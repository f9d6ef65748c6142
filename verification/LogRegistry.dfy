/** The registry of loggers and the listener that brings it in line with a changed configuration. */
module LogRegistry {
  import opened LoggerConfigs
  import PatternGrammar

  const ROOT := "root"
  const DEFAULT_PATTERN := "%d{%Y-%m-%d %H:%M:%S}" + "%T%t%T%N%T%F%T[%p]" + "%T[%c]%T%f:%l%T%m%n"

  /** Type 0 writes to standard output, type 1 to `file`; `pattern` is its formatter's. */
  datatype Appender = Appender(ty: int, file: string, level: Level, hasFormatter: bool, pattern: string)

  datatype Logger = Logger(level: Level, pattern: string, appenders: seq<Appender>)

  type Registry = map<string, Logger>

  /** A configuration set, in the set's order; the order looks at names only, so names are distinct. */
  type ConfigSet = seq<LoggerConfig>

  predicate IsError(pattern: string) { PatternGrammar.Parse(pattern).error }

  const NEW_LOGGER := Logger(DEBUG, DEFAULT_PATTERN, [])

  /** A new appender: its level is DEBUG until set. */
  function NewAppender(ty: int, file: string): Appender { Appender(ty, file, DEBUG, false, "") }

  function SetFormatter(a: Appender, pattern: string): Appender { a.(pattern := pattern, hasFormatter := true) }

  /** `Logger::AddAppender`. */
  function AddAppender(l: Logger, a: Appender): Logger {
    l.(appenders := l.appenders + [if a.hasFormatter then a else SetFormatter(a, l.pattern)])
  }

  /** `Logger::SetFormatter` with a pattern. */
  function SetLoggerFormatter(l: Logger, pattern: string): Logger {
    if IsError(pattern) then l
    else
      l.(pattern := pattern,
         appenders := seq(|l.appenders|, i requires 0 <= i < |l.appenders| =>
           if l.appenders[i].hasFormatter then l.appenders[i] else SetFormatter(l.appenders[i], pattern)))
  }

  /** The registry at the start: the root logger with its one appender. */
  function InitialRegistry(): Registry {
    map[ROOT := AddAppender(NEW_LOGGER, NewAppender(0, ""))]
  }

  function GetLogger(reg: Registry, name: string): Registry {
    if name in reg then reg else reg[name := NEW_LOGGER]
  }

  /** `old_val.find(entry)`: by name. */
  function Find(cs: ConfigSet, name: string): (i: nat)
    ensures i <= |cs| && (i < |cs| ==> cs[i].name == name)
    ensures forall k :: 0 <= k < i ==> cs[k].name != name
  {
    if cs == [] || cs[0].name == name then 0 else Find(cs[1..], name) + 1
  }

  predicate Has(cs: ConfigSet, name: string) { Find(cs, name) < |cs| }

  /** The listener's loop over an entry's appenders throws at a bad one; the root logger's entries of type 0
      are skipped before anything is checked. */
  predicate GoodAppender(name: string, a: AppenderConfig) {
    (a.ty == 0 && (name == ROOT || a.formatter == "" || !IsError(a.formatter)))
    || (a.ty == 1 && a.file != "" && (a.formatter == "" || !IsError(a.formatter)))
  }

  function Skipped(name: string, a: AppenderConfig): bool { a.ty == 0 && name == ROOT }

  function MakeAppender(a: AppenderConfig): Appender {
    var made := NewAppender(a.ty, if a.ty == 1 then a.file else "");
    var levelled := if a.level != UNKNOWN then made.(level := a.level) else made;
    if a.formatter != "" then SetFormatter(levelled, a.formatter) else levelled
  }

  /** The logger after the first appenders have been attached, up to the first bad one. */
  function AttachAll(l: Logger, name: string, appenders: seq<AppenderConfig>): Logger
    decreases |appenders|
  {
    if appenders == [] then l
    else if !GoodAppender(name, appenders[0]) then l
    else AttachAll(if Skipped(name, appenders[0]) then l else AddAppender(l, MakeAppender(appenders[0])),
                   name, appenders[1..])
  }

  predicate AllGood(name: string, appenders: seq<AppenderConfig>) {
    forall i :: 0 <= i < |appenders| ==> GoodAppender(name, appenders[i])
  }

  /** The logger of an entry before its appenders are attached. */
  function Prepared(l: Logger, entry: LoggerConfig, known: bool): Logger {
    var cleared := (if known then l.(appenders := []) else l).(level := entry.level);
    if entry.formatter != "" && cleared.pattern != entry.formatter
    then SetLoggerFormatter(cleared, entry.formatter) else cleared
  }

  predicate Unchanged(old_val: ConfigSet, entry: LoggerConfig) {
    Has(old_val, entry.name) && old_val[Find(old_val, entry.name)] == entry
  }

  /** One pass of the listener's first loop. */
  function ApplyEntry(old_val: ConfigSet, reg: Registry, entry: LoggerConfig): Registry {
    var reg1 := GetLogger(reg, entry.name);
    if Unchanged(old_val, entry) then reg1
    else
      var l := Prepared(reg1[entry.name], entry, Has(old_val, entry.name));
      reg1[entry.name := AttachAll(l, entry.name, entry.appenders)]
  }

  predicate EntryFails(old_val: ConfigSet, entry: LoggerConfig) {
    !Unchanged(old_val, entry) && !AllGood(entry.name, entry.appenders)
  }

  /** The first loop, which a bad appender leaves at once. */
  function ApplyEntries(old_val: ConfigSet, reg: Registry, entries: ConfigSet): Registry
    decreases |entries|
  {
    if entries == [] then reg
    else if EntryFails(old_val, entries[0]) then ApplyEntry(old_val, reg, entries[0])
    else ApplyEntries(old_val, ApplyEntry(old_val, reg, entries[0]), entries[1..])
  }

  predicate NoneFails(old_val: ConfigSet, entries: ConfigSet) {
    forall i :: 0 <= i < |entries| ==> !EntryFails(old_val, entries[i])
  }

  /** The second loop: loggers that are no longer configured go. */
  function Retire(reg: Registry, old_val: ConfigSet, new_val: ConfigSet): Registry {
    map name | name in reg && (Has(old_val, name) ==> Has(new_val, name)) :: reg[name]
  }

  function Reconcile(old_val: ConfigSet, new_val: ConfigSet, reg: Registry): Registry {
    var reg1 := ApplyEntries(old_val, reg, new_val);
    if NoneFails(old_val, new_val) then Retire(reg1, old_val, new_val) else reg1
  }

  lemma NextEntry(old_val: ConfigSet, reg: Registry, entries: ConfigSet, i: nat)
    requires i < |entries|
    ensures ApplyEntries(old_val, reg, entries[i..]) ==
      if EntryFails(old_val, entries[i]) then ApplyEntry(old_val, reg, entries[i])
      else ApplyEntries(old_val, ApplyEntry(old_val, reg, entries[i]), entries[i + 1..])
  {
    assert entries[i..][0] == entries[i] && entries[i..][1..] == entries[i + 1..];
  }

  // ----- the listener as it is written

  class LoggerManager {
    var m_loggers: Registry

    constructor ()
      ensures m_loggers == InitialRegistry()
    {
      m_loggers := InitialRegistry();
    }

    method OnChange(old_val: ConfigSet, new_val: ConfigSet) returns (ok: bool)
      modifies this
      ensures m_loggers == Reconcile(old_val, new_val, old(m_loggers))
      ensures ok <==> NoneFails(old_val, new_val)
    {
      ok := ApplyNew(old_val, new_val);
      if ok {
        DeleteOld(old_val, new_val);
      }
    }

    /** The first loop of the listener. */
    method ApplyNew(old_val: ConfigSet, new_val: ConfigSet) returns (ok: bool)
      modifies this
      ensures m_loggers == ApplyEntries(old_val, old(m_loggers), new_val)
      ensures ok <==> NoneFails(old_val, new_val)
    {
      var i := 0;
      assert new_val[0..] == new_val;
      while i < |new_val|
        invariant 0 <= i <= |new_val|
        invariant ApplyEntries(old_val, m_loggers, new_val[i..]) == ApplyEntries(old_val, old(m_loggers), new_val)
        invariant forall k :: 0 <= k < i ==> !EntryFails(old_val, new_val[k])
      {
        NextEntry(old_val, m_loggers, new_val, i);
        ok := Configure(old_val, new_val[i]);
        if !ok {
          return;
        }
        i := i + 1;
      }
      ok := true;
    }

    /** The second loop of the listener. */
    method DeleteOld(old_val: ConfigSet, new_val: ConfigSet)
      modifies this
      ensures m_loggers == Retire(old(m_loggers), old_val, new_val)
    {
      ghost var reg1 := m_loggers;
      var k := 0;
      while k < |old_val|
        invariant 0 <= k <= |old_val|
        invariant m_loggers == Retire(reg1, old_val[..k], new_val)
      {
        RetireNext(reg1, old_val, new_val, k);
        if !Has(new_val, old_val[k].name) {
          m_loggers := m_loggers - {old_val[k].name};
        }
        k := k + 1;
      }
      assert old_val[..k] == old_val;
    }

    /** The body of the first loop. */
    method Configure(old_val: ConfigSet, entry: LoggerConfig) returns (ok: bool)
      modifies this
      ensures m_loggers == ApplyEntry(old_val, old(m_loggers), entry)
      ensures ok <==> !EntryFails(old_val, entry)
    {
      var iter := Find(old_val, entry.name);
      m_loggers := GetLogger(m_loggers, entry.name);
      var ptr := m_loggers[entry.name];
      if iter < |old_val| {
        if old_val[iter] == entry {
          return true;
        }
        ptr := ptr.(appenders := []);
      }
      ptr := ptr.(level := entry.level);
      if entry.formatter != "" && ptr.pattern != entry.formatter {
        ptr := SetLoggerFormatter(ptr, entry.formatter);
      }
      ptr, ok := Attach(ptr, entry);
      m_loggers := m_loggers[entry.name := ptr];
    }

    /** The inner loop over an entry's appenders. */
    static method Attach(prepared: Logger, entry: LoggerConfig) returns (ptr: Logger, ok: bool)
      ensures ptr == AttachAll(prepared, entry.name, entry.appenders)
      ensures ok <==> AllGood(entry.name, entry.appenders)
    {
      ptr := prepared;
      var i := 0;
      while i < |entry.appenders|
        invariant 0 <= i <= |entry.appenders|
        invariant AttachAll(ptr, entry.name, entry.appenders[i..]) == AttachAll(prepared, entry.name, entry.appenders)
        invariant forall k :: 0 <= k < i ==> GoodAppender(entry.name, entry.appenders[k])
      {
        var a := entry.appenders[i];
        assert entry.appenders[i..][0] == a && entry.appenders[i..][1..] == entry.appenders[i + 1..];
        if a.ty == 0 && entry.name == ROOT {
          i := i + 1;
          continue;
        }
        if !GoodAppender(entry.name, a) {
          return ptr, false;
        }
        ptr := AddAppender(ptr, MakeAppender(a));
        i := i + 1;
      }
      ok := true;
    }
  }

  lemma RetireNext(reg: Registry, old_val: ConfigSet, new_val: ConfigSet, k: nat)
    requires k < |old_val|
    ensures Retire(reg, old_val[..k + 1], new_val) ==
      if Has(new_val, old_val[k].name) then Retire(reg, old_val[..k], new_val)
      else Retire(reg, old_val[..k], new_val) - {old_val[k].name}
  {
    HasNext(old_val, k);
    var x, r, r0 := old_val[k].name, Retire(reg, old_val[..k + 1], new_val), Retire(reg, old_val[..k], new_val);
    forall name ensures name in r <==> name in r0 && (name == x ==> Has(new_val, x)) { }
  }

  lemma HasNext(cs: ConfigSet, k: nat)
    requires k < |cs|
    ensures forall name :: Has(cs[..k + 1], name) <==> Has(cs[..k], name) || name == cs[k].name
  {
    forall name ensures Has(cs[..k + 1], name) <==> Has(cs[..k], name) || name == cs[k].name {
      var i, j := Find(cs[..k + 1], name), Find(cs[..k], name);
      if name == cs[k].name { assert cs[..k + 1][k].name == name; }
      if j < k { assert cs[..k + 1][j].name == name; }
      if i < k { assert cs[..k][i].name == name; }
    }
  }
}
