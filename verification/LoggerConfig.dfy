/** The configuration of a logger and its conversion to and from a YAML tree. */
module LoggerConfigs {
  import opened ConfigTree
  import opened Options
  import opened Sequences

  datatype Level = UNKNOWN | DEBUG | INFO | WARN | ERROR | FATAL

  function LevelToString(level: Level): string {
    match level
    case DEBUG => "DEBUG"
    case INFO => "INFO"
    case WARN => "WARN"
    case ERROR => "ERROR"
    case FATAL => "FATAL"
    case UNKNOWN => "UNKNOWN"
  }

  function UpperChar(c: char): char {
    if 'a' <= c <= 'z' then ((c as int) - 32) as char else c
  }

  function Upper(s: string): string { seq(|s|, i requires 0 <= i < |s| => UpperChar(s[i])) }

  /** Only two of the levels are recognised. */
  function LevelFromString(s: string): Level {
    if Upper(s) == "DEBUG" then DEBUG else if Upper(s) == "INFO" then INFO else UNKNOWN
  }

  const STDOUT_APPENDER := "StdOutLogAppender"
  const FILE_APPENDER := "FileLogAppender"

  datatype AppenderConfig = AppenderConfig(ty: int, level: Level, formatter: string, file: string)

  datatype LoggerConfig = LoggerConfig(name: string, level: Level, formatter: string, appenders: seq<AppenderConfig>)

  /** In a set of configurations, whose order looks at the name only, names are distinct. */
  ghost predicate DistinctNames(cs: seq<LoggerConfig>) {
    forall i, j :: 0 <= i < j < |cs| ==> cs[i].name != cs[j].name
  }

  // ----- to a tree

  function AppenderToNode(a: AppenderConfig): Node {
    Map([Entry("type", Scalar(if a.ty == 0 then STDOUT_APPENDER else FILE_APPENDER))]
        + (if a.level != UNKNOWN then [Entry("level", Scalar(LevelToString(a.level)))] else [])
        + (if a.formatter != "" then [Entry("formatter", Scalar(a.formatter))] else [])
        + (if a.file != "" then [Entry("file", Scalar(a.file))] else []))
  }

  function AppenderNodes(appenders: seq<AppenderConfig>): seq<Node> {
    seq(|appenders|, i requires 0 <= i < |appenders| => AppenderToNode(appenders[i]))
  }

  /** The logger's own formatter is not written. */
  function ToNode(c: LoggerConfig): Node {
    var head := [Entry("name", Scalar(c.name)), Entry("level", Scalar(LevelToString(c.level)))];
    Map(if c.appenders == [] then head else head + [Entry("appenders", Sequence(AppenderNodes(c.appenders)))])
  }

  method ConfigToNode(config: LoggerConfig) returns (node: Node)
    ensures node == ToNode(config)
  {
    var entries := [Entry("name", Scalar(config.name)), Entry("level", Scalar(LevelToString(config.level)))];
    if config.appenders == [] {
      return Map(entries);
    }
    var arr := [];
    for i := 0 to |config.appenders|
      invariant arr == AppenderNodes(config.appenders[..i])
    {
      var a := config.appenders[i];
      var appender := [Entry("type", Scalar(if a.ty == 0 then STDOUT_APPENDER else FILE_APPENDER))];
      if a.level != UNKNOWN {
        appender := appender + [Entry("level", Scalar(LevelToString(a.level)))];
      }
      if a.formatter != "" {
        appender := appender + [Entry("formatter", Scalar(a.formatter))];
      }
      if a.file != "" {
        appender := appender + [Entry("file", Scalar(a.file))];
      }
      assert Map(appender) == AppenderToNode(a);
      arr := arr + [Map(appender)];
    }
    assert config.appenders[..|config.appenders|] == config.appenders;
    node := Map(entries + [Entry("appenders", Sequence(arr))]);
  }

  // ----- from a tree

  /** `node[key]`, if it is defined. */
  function Get(entries: seq<Entry>, key: string): Option<Node> {
    if entries == [] then None
    else if entries[0].key == key then Some(entries[0].node)
    else Get(entries[1..], key)
  }

  /** `Scalar()`: empty for anything but a scalar. */
  function ScalarText(node: Node): string { if node.Scalar? then node.text else "" }

  function TextAt(entries: seq<Entry>, key: string): string {
    match Get(entries, key)
    case Some(n) => ScalarText(n)
    case None => ""
  }

  function AppenderFromNode(node: Node): Option<AppenderConfig> {
    if !node.Map? then None
    else
      var es := node.entries;
      var level := match Get(es, "level") case Some(n) => LevelFromString(ScalarText(n)) case None => UNKNOWN;
      var formatter := TextAt(es, "formatter");
      match Get(es, "type")
      case None => None
      case Some(t) =>
        if ScalarText(t) == FILE_APPENDER then
          if Get(es, "file").None? then None else Some(AppenderConfig(1, level, formatter, TextAt(es, "file")))
        else if ScalarText(t) == STDOUT_APPENDER then Some(AppenderConfig(0, level, formatter, ""))
        else None
  }

  function AppendersFromNodes(nodes: seq<Node>): Option<seq<AppenderConfig>> { Each(AppenderFromNode, nodes) }

  function FromNode(y: Yaml, node: Node): Option<LoggerConfig> {
    if !node.Map? then None
    else
      var es := node.entries;
      match (Get(es, "name"), Get(es, "level"))
      case (Some(name), Some(level)) =>
        if !name.Scalar? then None
        else
          var base := LoggerConfig(name.text, LevelFromString(ScalarText(level)), TextAt(es, "formatter"), []);
          (match Get(es, "appenders")
           case None => Some(base)
           case Some(sub) =>
             match y.index(sub)
             case None => None
             case Some(items) =>
               match AppendersFromNodes(items)
               case None => None
               case Some(appenders) => Some(base.(appenders := appenders)))
      case _ => None
  }

  method ConfigFromNode(y: Yaml, node: Node) returns (res: Option<LoggerConfig>)
    ensures res == FromNode(y, node)
  {
    if !node.Map? {
      return None;
    }
    var name, level := Get(node.entries, "name"), Get(node.entries, "level");
    if name.None? || level.None? || !name.value.Scalar? {
      return None;
    }
    var config := LoggerConfig(name.value.text, LevelFromString(ScalarText(level.value)), "", []);
    if Get(node.entries, "formatter").Some? {
      config := config.(formatter := TextAt(node.entries, "formatter"));
    }
    var sub := Get(node.entries, "appenders");
    if sub.Some? {
      var items := y.index(sub.value);
      if items.None? {
        return None;
      }
      var nodes := items.value;
      var i := 0;
      while i < |nodes|
        invariant 0 <= i <= |nodes|
        invariant AppendersFromNodes(nodes[..i]) == Some(config.appenders)
        invariant config == LoggerConfig(name.value.text, LevelFromString(ScalarText(level.value)),
                                         TextAt(node.entries, "formatter"), config.appenders)
      {
        var a := AppenderFromNode(nodes[i]);
        assert nodes[..i + 1][..i] == nodes[..i];
        i := i + 1;
        if a.None? {
          EachStops(AppenderFromNode, nodes, i);
          return None;
        }
        config := config.(appenders := config.appenders + [a.value]);
      }
      assert nodes[..i] == nodes;
    }
    res := Some(config);
  }

  // ----- the round trip, and exactly when it holds

  predicate StableLevel(level: Level) { level == UNKNOWN || level == DEBUG || level == INFO }

  predicate StableAppender(a: AppenderConfig) {
    StableLevel(a.level) && ((a.ty == 0 && a.file == "") || (a.ty == 1 && a.file != ""))
  }

  predicate AllStable(appenders: seq<AppenderConfig>) {
    forall i :: 0 <= i < |appenders| ==> StableAppender(appenders[i])
  }

  predicate StableConfig(c: LoggerConfig) {
    c.formatter == "" && StableLevel(c.level) && AllStable(c.appenders)
  }

  lemma LevelRoundTrip(level: Level)
    ensures LevelFromString(LevelToString(level)) == level <==> StableLevel(level)
  {
    assert Upper("DEBUG") == "DEBUG" && Upper("INFO") == "INFO" && Upper("WARN") == "WARN";
    assert Upper("ERROR") == "ERROR" && Upper("FATAL") == "FATAL" && Upper("UNKNOWN") == "UNKNOWN";
  }

  lemma GetAppend(a: seq<Entry>, b: seq<Entry>, key: string)
    ensures Get(a + b, key) == if Get(a, key).Some? then Get(a, key) else Get(b, key)
  {
    if a == [] {
      assert a + b == b;
    } else {
      assert (a + b)[1..] == a[1..] + b;
    }
  }

  lemma GetOne(k: string, node: Node, key: string)
    ensures Get([Entry(k, node)], key) == if k == key then Some(node) else None
  {
    assert [Entry(k, node)][1..] == [];
  }

  /** The keys are pairwise different. */
  lemma KeysDiffer()
    ensures "type" != "level" && "type" != "formatter" && "type" != "file" && "level" != "formatter"
    ensures "level" != "file" && "formatter" != "file" && "name" != "level" && "name" != "formatter"
    ensures "name" != "appenders" && "level" != "appenders" && "formatter" != "appenders"
  {
    assert "type"[0] != "file"[0] && "formatter"[0] != "appenders"[0];
  }

  lemma AppenderFields(a: AppenderConfig)
    ensures var es := AppenderToNode(a).entries;
      && Get(es, "type") == Some(Scalar(if a.ty == 0 then STDOUT_APPENDER else FILE_APPENDER))
      && Get(es, "level") == (if a.level != UNKNOWN then Some(Scalar(LevelToString(a.level))) else None)
      && Get(es, "formatter") == (if a.formatter != "" then Some(Scalar(a.formatter)) else None)
      && Get(es, "file") == (if a.file != "" then Some(Scalar(a.file)) else None)
  {
    var kind, level := Scalar(if a.ty == 0 then STDOUT_APPENDER else FILE_APPENDER), Scalar(LevelToString(a.level));
    var t := [Entry("type", kind)];
    var l := if a.level != UNKNOWN then [Entry("level", level)] else [];
    var f := if a.formatter != "" then [Entry("formatter", Scalar(a.formatter))] else [];
    var p := if a.file != "" then [Entry("file", Scalar(a.file))] else [];
    KeysDiffer();
    forall key
      ensures Get(t + l + f + p, key) ==
        if key == "type" then Some(kind)
        else if key == "level" && a.level != UNKNOWN then Some(level)
        else if key == "formatter" && a.formatter != "" then Some(Scalar(a.formatter))
        else if key == "file" && a.file != "" then Some(Scalar(a.file))
        else None
    {
      GetAppend(t + l + f, p, key);
      GetAppend(t + l, f, key);
      GetAppend(t, l, key);
      GetOne("type", kind, key);
      GetOne("level", level, key);
      GetOne("formatter", Scalar(a.formatter), key);
      GetOne("file", Scalar(a.file), key);
    }
  }

  lemma AppenderRoundTrip(a: AppenderConfig)
    ensures AppenderFromNode(AppenderToNode(a)) == Some(a) <==> StableAppender(a)
  {
    AppenderFields(a);
    LevelRoundTrip(a.level);
  }

  lemma AppendersRoundTrip(appenders: seq<AppenderConfig>)
    ensures AppendersFromNodes(AppenderNodes(appenders)) == Some(appenders) <==> AllStable(appenders)
  {
    EachIff(AppenderFromNode, AppenderNodes(appenders), appenders);
    forall i | 0 <= i < |appenders| { AppenderRoundTrip(appenders[i]); }
  }

  lemma ConfigFields(c: LoggerConfig)
    ensures var es := ToNode(c).entries;
      && Get(es, "name") == Some(Scalar(c.name))
      && Get(es, "level") == Some(Scalar(LevelToString(c.level)))
      && Get(es, "formatter") == None
      && Get(es, "appenders") == (if c.appenders == [] then None else Some(Sequence(AppenderNodes(c.appenders))))
  {
    var name, level := [Entry("name", Scalar(c.name))], [Entry("level", Scalar(LevelToString(c.level)))];
    var sub := Sequence(AppenderNodes(c.appenders));
    var tail := if c.appenders == [] then [] else [Entry("appenders", sub)];
    assert ToNode(c).entries == name + level + tail;
    KeysDiffer();
    forall key
      ensures Get(name + level + tail, key) ==
        if key == "name" then Some(Scalar(c.name))
        else if key == "level" then Some(Scalar(LevelToString(c.level)))
        else if key == "appenders" && c.appenders != [] then Some(sub)
        else None
    {
      GetAppend(name + level, tail, key);
      GetAppend(name, level, key);
      GetOne("name", Scalar(c.name), key);
      GetOne("level", Scalar(LevelToString(c.level)), key);
      GetOne("appenders", sub, key);
    }
  }

  /** A logger's configuration comes back from its own tree exactly if it has no formatter of its own, only
      recognised levels, and a file exactly for file appenders. */
  lemma ConfigRoundTrip(y: Yaml, c: LoggerConfig)
    requires Lawful(y)
    ensures FromNode(y, ToNode(c)) == Some(c) <==> StableConfig(c)
  {
    ConfigFields(c);
    LevelRoundTrip(c.level);
    AppendersRoundTrip(c.appenders);
  }
}
