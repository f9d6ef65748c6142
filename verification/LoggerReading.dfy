/** What reading a logger's configuration takes from the entries of its node, and how levels are spelled. */
module LoggerReading {
  import opened ConfigTree
  import opened Letters
  import opened LoggerConfigs
  import opened Options
  import opened Sequences

  // ----- levels

  lemma SameUpper(c: char, d: char)
    ensures UpperChar(c) == UpperChar(d) <==> SameLetter(c, d)
  {
    RaisesSmall(c);
    RaisesSmall(d);
    NoCapitalIsSmall();
  }

  /** Raising turns the k-th small letter into the k-th capital and leaves every other character. */
  lemma RaisesSmall(c: char)
    ensures c in SMALL ==> exists k :: 0 <= k < 26 && c == SMALL[k] && UpperChar(c) == CAPITALS[k]
    ensures forall k :: 0 <= k < 26 && c == SMALL[k] ==> UpperChar(c) == CAPITALS[k]
    ensures c !in SMALL ==> UpperChar(c) == c
  {
    SmallRange(c);
    forall k | 0 <= k < 26 && c == SMALL[k] ensures UpperChar(c) == CAPITALS[k] {
      CapitalsInOrder(k);
      SmallInOrder(k);
    }
  }

  lemma NoCapitalIsSmall()
    ensures forall k :: 0 <= k < 26 ==> CAPITALS[k] !in SMALL
    ensures forall j, k :: 0 <= j < 26 && 0 <= k < 26 && CAPITALS[j] == CAPITALS[k] ==> j == k
  {
    forall k | 0 <= k < 26 ensures CAPITALS[k] !in SMALL {
      CapitalsInOrder(k);
      SmallRange(CAPITALS[k]);
    }
    forall j, k | 0 <= j < 26 && 0 <= k < 26 && CAPITALS[j] == CAPITALS[k] ensures j == k {
      CapitalsInOrder(j);
      CapitalsInOrder(k);
    }
  }

  lemma SameRaised(a: string, b: string)
    ensures Upper(a) == Upper(b) <==> SameUpToCase(a, b)
  {
    if |a| == |b| {
      forall i | 0 <= i < |a| ensures Upper(a)[i] == Upper(b)[i] <==> SameLetter(a[i], b[i]) {
        SameUpper(a[i], b[i]);
      }
    }
  }

  /** The level that a text stands for: the names DEBUG and INFO in any capitals; everything else is unknown. */
  ghost predicate Names(text: string, level: Level) {
    if SameUpToCase(text, "DEBUG") then level == DEBUG
    else if SameUpToCase(text, "INFO") then level == INFO
    else level == UNKNOWN
  }

  lemma LevelsRead(text: string, level: Level)
    ensures LevelFromString(text) == level <==> Names(text, level)
  {
    SameRaised(text, "DEBUG");
    SameRaised(text, "INFO");
    assert Upper("DEBUG") == "DEBUG" && Upper("INFO") == "INFO";
  }

  /** Levels are written by their names. */
  lemma LevelsWritten()
    ensures LevelToString(UNKNOWN) == "UNKNOWN" && LevelToString(DEBUG) == "DEBUG" && LevelToString(INFO) == "INFO"
    ensures LevelToString(WARN) == "WARN" && LevelToString(ERROR) == "ERROR" && LevelToString(FATAL) == "FATAL"
  {
  }

  // ----- fields

  /** The first entry with the key has this node. */
  ghost predicate IsAt(es: seq<Entry>, key: string, node: Node) {
    exists i :: 0 <= i < |es| && es[i] == Entry(key, node) && forall j :: 0 <= j < i ==> es[j].key != key
  }

  ghost predicate Absent(es: seq<Entry>, key: string) { forall i :: 0 <= i < |es| ==> es[i].key != key }

  /** The text of a field: that of its scalar, and empty for another node or without the field. */
  ghost predicate TextIs(es: seq<Entry>, key: string, text: string) {
    || IsAt(es, key, Scalar(text))
    || (text == "" && (Absent(es, key) || exists n :: IsAt(es, key, n) && !n.Scalar?))
  }

  lemma {:induction false} GetIs(es: seq<Entry>, key: string)
    ensures match Get(es, key) case Some(n) => IsAt(es, key, n) case None => Absent(es, key)
    ensures forall n :: IsAt(es, key, n) ==> Get(es, key) == Some(n)
  {
    if es != [] {
      var rest := es[1..];
      GetIs(rest, key);
      if es[0].key != key {
        forall n ensures IsAt(es, key, n) <==> IsAt(rest, key, n) { IsAtRest(es, key, n); }
        assert Absent(rest, key) ==> Absent(es, key) by { assert forall i :: 0 < i < |es| ==> es[i] == rest[i - 1]; }
      } else {
        assert es[0] == Entry(key, es[0].node);
        assert IsAt(es, key, es[0].node);
      }
    }
  }

  lemma IsAtRest(es: seq<Entry>, key: string, node: Node)
    requires es != [] && es[0].key != key
    ensures IsAt(es, key, node) <==> IsAt(es[1..], key, node)
  {
    var rest := es[1..];
    if IsAt(es, key, node) {
      var i :| 0 <= i < |es| && es[i] == Entry(key, node) && forall j :: 0 <= j < i ==> es[j].key != key;
      assert rest[i - 1] == Entry(key, node) && forall j :: 0 <= j < i - 1 ==> rest[j].key != key;
    }
    if IsAt(rest, key, node) {
      var i :| 0 <= i < |rest| && rest[i] == Entry(key, node) && forall j :: 0 <= j < i ==> rest[j].key != key;
      assert es[i + 1] == Entry(key, node);
      assert forall j :: 0 < j < i + 1 ==> es[j] == rest[j - 1];
    }
  }

  lemma TextAtIs(es: seq<Entry>, key: string, text: string)
    ensures TextAt(es, key) == text <==> TextIs(es, key, text)
  {
    GetIs(es, key);
    var found := Get(es, key);
    if found == None {
      assert !IsAt(es, key, Scalar(text));
    }
  }

  // ----- one appender

  /** What a node says about an appender, field by field. */
  ghost predicate SaysAppender(node: Node, a: AppenderConfig) {
    && node.Map?
    && (if Absent(node.entries, "level") then a.level == UNKNOWN
        else exists text :: TextIs(node.entries, "level", text) && Names(text, a.level))
    && TextIs(node.entries, "formatter", a.formatter)
    && ((a.ty == 0 && IsAt(node.entries, "type", Scalar("StdOutLogAppender")) && a.file == "")
        || (a.ty == 1 && IsAt(node.entries, "type", Scalar("FileLogAppender"))
            && !Absent(node.entries, "file") && TextIs(node.entries, "file", a.file)))
  }

  lemma ReadsLevelText(es: seq<Entry>, level: Level)
    requires !Absent(es, "level")
    ensures LevelFromString(TextAt(es, "level")) == level <==>
      exists text :: TextIs(es, "level", text) && Names(text, level)
  {
    var text := TextAt(es, "level");
    TextAtIs(es, "level", text);
    LevelsRead(text, level);
    forall other | TextIs(es, "level", other) ensures other == text { TextAtIs(es, "level", other); }
  }

  /** The type's text decides which of the two kinds it is. */
  lemma ReadsType(es: seq<Entry>, text: string)
    requires text != ""
    ensures (Get(es, "type").Some? && ScalarText(Get(es, "type").value) == text) <==> IsAt(es, "type", Scalar(text))
  {
    GetIs(es, "type");
  }

  lemma ReadsAppender(node: Node, a: AppenderConfig)
    ensures AppenderFromNode(node) == Some(a) <==> SaysAppender(node, a)
  {
    if node.Map? {
      var es := node.entries;
      GetIs(es, "level");
      GetIs(es, "file");
      if !Absent(es, "level") { ReadsLevelText(es, a.level); }
      TextAtIs(es, "formatter", a.formatter);
      TextAtIs(es, "file", a.file);
      ReadsType(es, "StdOutLogAppender");
      ReadsType(es, "FileLogAppender");
    }
  }

  // ----- one logger

  ghost predicate SaysAppenders(y: Yaml, es: seq<Entry>, appenders: seq<AppenderConfig>) {
    if Absent(es, "appenders") then appenders == []
    else exists sub, items :: IsAt(es, "appenders", sub) && y.index(sub) == Some(items) && SaysEach(items, appenders)
  }

  ghost predicate SaysEach(items: seq<Node>, appenders: seq<AppenderConfig>) {
    |items| == |appenders| && forall i :: 0 <= i < |items| ==> SaysAppender(items[i], appenders[i])
  }

  /** What a node says about a logger, field by field. */
  ghost predicate SaysLogger(y: Yaml, node: Node, c: LoggerConfig) {
    && node.Map?
    && IsAt(node.entries, "name", Scalar(c.name))
    && !Absent(node.entries, "level") && (exists text :: TextIs(node.entries, "level", text) && Names(text, c.level))
    && TextIs(node.entries, "formatter", c.formatter)
    && SaysAppenders(y, node.entries, c.appenders)
  }

  lemma ReadsEach(items: seq<Node>, appenders: seq<AppenderConfig>)
    ensures AppendersFromNodes(items) == Some(appenders) <==> SaysEach(items, appenders)
  {
    EachIff(AppenderFromNode, items, appenders);
    if |items| == |appenders| {
      forall i | 0 <= i < |items| { ReadsAppender(items[i], appenders[i]); }
    }
  }

  function AppendersOf(y: Yaml, es: seq<Entry>): Option<seq<AppenderConfig>> {
    match Get(es, "appenders")
    case None => Some([])
    case Some(sub) => match y.index(sub) case None => None case Some(items) => AppendersFromNodes(items)
  }

  lemma ReadsAppenders(y: Yaml, es: seq<Entry>, appenders: seq<AppenderConfig>)
    ensures AppendersOf(y, es) == Some(appenders) <==> SaysAppenders(y, es, appenders)
  {
    GetIs(es, "appenders");
    var sub := Get(es, "appenders");
    if sub.Some? && y.index(sub.value).Some? { ReadsEach(y.index(sub.value).value, appenders); }
  }

  /** A node is read as a configuration exactly if it says so in each of its fields: name, level, formatter and
      appenders. */
  lemma ReadsLogger(y: Yaml, node: Node, c: LoggerConfig)
    ensures FromNode(y, node) == Some(c) <==> SaysLogger(y, node, c)
  {
    if node.Map? {
      var es := node.entries;
      GetIs(es, "name");
      GetIs(es, "level");
      if !Absent(es, "level") { ReadsLevelText(es, c.level); }
      TextAtIs(es, "formatter", c.formatter);
      ReadsAppenders(y, es, c.appenders);
    }
  }
}
