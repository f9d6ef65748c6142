/** What each attached appender prints with. */
module AppenderPatterns {
  import opened LoggerConfigs
  import ConfigVars
  import DefaultLine
  import opened LogRegistry
  import opened PatternGrammar
  import opened Reconciliation
  import opened Sequences

  /** A formatter set on a logger by pattern never reaches an attached appender. */
  lemma SetFormatterMissesAppenders(l: Logger, pattern: string)
    requires AllFormatted(l)
    ensures SetLoggerFormatter(l, pattern).appenders == l.appenders
    ensures SetLoggerFormatter(l, pattern).pattern == if NoneUnclosed(Lex(pattern)) then pattern else l.pattern
  {
    ErrorIffUnclosed(pattern);
  }

  function Patterns(appenders: seq<Appender>): seq<string> {
    seq(|appenders|, i requires 0 <= i < |appenders| => appenders[i].pattern)
  }

  function WantedPattern(name: string, a: AppenderConfig, pattern: string): seq<string> {
    if Skipped(name, a) then [] else [if a.formatter != "" then a.formatter else pattern]
  }

  /** An appender's own formatter if it has one, otherwise its logger's. */
  function WantedPatterns(name: string, appenders: seq<AppenderConfig>, pattern: string): seq<string> {
    if appenders == [] then []
    else WantedPattern(name, appenders[0], pattern) + WantedPatterns(name, appenders[1..], pattern)
  }

  lemma AttachOnePattern(l: Logger, name: string, a: AppenderConfig)
    requires GoodAppender(name, a) && !Skipped(name, a)
    ensures Patterns(AddAppender(l, MakeAppender(a)).appenders) == Patterns(l.appenders) + WantedPattern(name, a, l.pattern)
  {
    var made := AddAppender(l, MakeAppender(a)).appenders[|l.appenders|];
    assert AddAppender(l, MakeAppender(a)).appenders == l.appenders + [made];
    assert Patterns(l.appenders + [made]) == Patterns(l.appenders) + [made.pattern];
  }

  lemma {:induction false} AttachPatterns(l: Logger, name: string, appenders: seq<AppenderConfig>)
    ensures Patterns(AttachAll(l, name, appenders).appenders) ==
      Patterns(l.appenders) + WantedPatterns(name, GoodPart(name, appenders), l.pattern)
    decreases |appenders|
  {
    if appenders == [] || !GoodAppender(name, appenders[0]) {
      assert Patterns(l.appenders) + [] == Patterns(l.appenders);
    } else {
      var a, rest := appenders[0], appenders[1..];
      var part := GoodPart(name, rest);
      assert ([a] + part)[1..] == part;
      if Skipped(name, a) {
        AttachPatterns(l, name, rest);
        assert [] + WantedPatterns(name, part, l.pattern) == WantedPatterns(name, part, l.pattern);
      } else {
        AttachOnePattern(l, name, a);
        AttachPatterns(AddAppender(l, MakeAppender(a)), name, rest);
        Assoc(Patterns(l.appenders), WantedPattern(name, a, l.pattern), WantedPatterns(name, part, l.pattern));
      }
    }
  }

  /** The patterns a logger's appenders should print with: the root logger's first appender keeps the default. */
  function ExpectedPatterns(cfg: ConfigSet, name: string, kept: bool, pattern: string): seq<string> {
    (if kept && name == ROOT then [DEFAULT_PATTERN] else [])
    + (if Has(cfg, name) then WantedPatterns(name, EntryOf(cfg, name).appenders, pattern) else [])
  }

  ghost predicate Prints(l: Logger, cfg: ConfigSet, name: string, kept: bool) {
    Patterns(l.appenders) == ExpectedPatterns(cfg, name, kept, l.pattern)
  }

  ghost predicate AllPrint(cfg: ConfigSet, reg: Registry, kept: bool) {
    forall name :: name in reg ==> Prints(reg[name], cfg, name, kept)
  }

  function PatternsBefore(old_val: ConfigSet, reg: Registry, name: string): seq<string> {
    if Has(old_val, name) || name !in reg then [] else Patterns(reg[name].appenders)
  }

  lemma ChangedPatterns(old_val: ConfigSet, reg: Registry, entry: LoggerConfig)
    requires !Unchanged(old_val, entry) && (entry.name in reg ==> AllFormatted(reg[entry.name]))
    ensures var l := EntryLogger(old_val, reg, entry);
      Patterns(l.appenders) ==
      PatternsBefore(old_val, reg, entry.name)
      + WantedPatterns(entry.name, GoodPart(entry.name, entry.appenders), l.pattern)
  {
    var l := GetLogger(reg, entry.name)[entry.name];
    var p := Prepared(l, entry, Has(old_val, entry.name));
    var before := if Has(old_val, entry.name) then [] else l.appenders;
    assert p.appenders == before by {
      assert forall i :: 0 <= i < |before| ==> before[i].hasFormatter;
    }
    AttachTargets(p, entry.name, entry.appenders);
    AttachPatterns(p, entry.name, entry.appenders);
  }

  lemma EntryPrints(old_val: ConfigSet, new_val: ConfigSet, reg: Registry, kept: bool, name: string)
    requires Follows(old_val, reg, kept) && AllPrint(old_val, reg, kept)
    requires Has(new_val, name) && !EntryFails(old_val, EntryOf(new_val, name))
    ensures Prints(EntryLogger(old_val, reg, EntryOf(new_val, name)), new_val, name,
                   kept && !RootTouched(old_val, new_val))
  {
    var entry := EntryOf(new_val, name);
    if !Unchanged(old_val, entry) {
      PatternsLeft(old_val, new_val, reg, kept, name);
      ChangedPatterns(old_val, reg, entry);
      AllGoodPart(name, entry.appenders);
    }
  }

  lemma PatternsLeft(old_val: ConfigSet, new_val: ConfigSet, reg: Registry, kept: bool, name: string)
    requires Follows(old_val, reg, kept) && AllPrint(old_val, reg, kept)
    requires Has(new_val, name) && !Unchanged(old_val, EntryOf(new_val, name))
    ensures PatternsBefore(old_val, reg, name) ==
      if kept && !RootTouched(old_val, new_val) && name == ROOT then [DEFAULT_PATTERN] else []
  {
    assert [DEFAULT_PATTERN] + [] == [DEFAULT_PATTERN];
  }

  lemma ReconcilePrints(old_val: ConfigSet, new_val: ConfigSet, reg: Registry, kept: bool)
    requires DistinctNames(new_val) && NoneFails(old_val, new_val)
    requires Follows(old_val, reg, kept) && AllPrint(old_val, reg, kept)
    ensures AllPrint(new_val, Reconcile(old_val, new_val, reg), kept && !RootTouched(old_val, new_val))
  {
    var r, kept1 := Reconcile(old_val, new_val, reg), kept && !RootTouched(old_val, new_val);
    forall name | name in r ensures Prints(r[name], new_val, name, kept1) {
      ReconciledLogger(old_val, new_val, reg, name);
      if Has(new_val, name) {
        assert !EntryFails(old_val, new_val[Find(new_val, name)]);
        EntryPrints(old_val, new_val, reg, kept, name);
      }
    }
  }

  lemma FetchPrints(cfg: ConfigSet, reg: Registry, kept: bool, name: string)
    requires Follows(cfg, reg, kept) && AllPrint(cfg, reg, kept)
    ensures AllPrint(cfg, GetLogger(reg, name), kept)
  {
  }

  lemma InitiallyPrints()
    ensures AllPrint([], InitialRegistry(), true)
  {
    assert [DEFAULT_PATTERN] + [] == [DEFAULT_PATTERN];
  }

  lemma {:induction false} AppendersFollow(events: seq<Event>, to: ConfigSet)
    requires Leads(events, [], to)
    ensures AllPrint(to, Replay(InitialRegistry(), events), RootUntouched(ChangesOf(events)))
  {
    InitiallyPrints();
    if events != [] {
      var n := |events| - 1;
      var kept := RootUntouched(ChangesOf(events[..n]));
      LastEvent(events, [], to);
      match events[n]
      case Fetch(name) =>
        AppendersFollow(events[..n], to);
        ReplaySyncs(events[..n], to);
        FetchPrints(to, Replay(InitialRegistry(), events[..n]), kept, name);
      case Change(call) =>
        AppendersFollow(events[..n], call.before);
        ReplaySyncs(events[..n], call.before);
        ReconcilePrints(call.before, to, Replay(InitialRegistry(), events[..n]), kept);
    }
  }

  // ----- all patterns in use are closed

  predicate Closed(pattern: string) { NoneUnclosed(Lex(pattern)) }

  predicate AllClosed(patterns: seq<string>) { forall i :: 0 <= i < |patterns| ==> Closed(patterns[i]) }

  lemma DefaultClosed(pattern: string)
    requires pattern == DEFAULT_PATTERN
    ensures Closed(pattern)
  {
    DefaultLine.DefaultClosed(pattern);
    ErrorIffUnclosed(pattern);
  }

  /** Every entry of an accepted configuration has good appenders only. */
  lemma {:induction false} AcceptedAreGood(events: seq<Event>, to: ConfigSet, name: string)
    requires Leads(events, [], to) && Has(to, name)
    ensures AllGood(name, EntryOf(to, name).appenders)
  {
    if events != [] {
      var n := |events| - 1;
      LastEvent(events, [], to);
      match events[n]
      case Fetch(_) => AcceptedAreGood(events[..n], to, name);
      case Change(call) =>
        assert !EntryFails(call.before, to[Find(to, name)]);
        if Unchanged(call.before, EntryOf(to, name)) { AcceptedAreGood(events[..n], call.before, name); }
    }
  }

  lemma {:induction false} WantedClosed(name: string, appenders: seq<AppenderConfig>, pattern: string)
    requires AllGood(name, appenders) && Closed(pattern)
    ensures AllClosed(WantedPatterns(name, appenders, pattern))
  {
    if appenders != [] {
      var a := appenders[0];
      assert AllGood(name, appenders[1..]);
      WantedClosed(name, appenders[1..], pattern);
      assert GoodAppender(name, a);
      ErrorIffUnclosed(a.formatter);
    }
  }

  lemma {:induction false} LastIsClosed(calls: seq<ConfigVars.Call<ConfigSet>>, name: string)
    ensures Closed(LastFormatter(calls, name))
  {
    DefaultClosed(DEFAULT_PATTERN);
    if calls != [] { LastIsClosed(calls[..|calls| - 1], name); }
  }

  /** After any run every attached appender prints with its own formatter if its configuration gives one, and
      otherwise with the last one given to its logger in which every parameter is closed; the root logger's first
      appender prints with the default. None of these patterns has an open parameter. */
  lemma AppendersPrint(events: seq<Event>, to: ConfigSet, name: string)
    requires Leads(events, [], to) && name in Replay(InitialRegistry(), events)
    ensures var patterns := Patterns(Replay(InitialRegistry(), events)[name].appenders);
      && patterns == ExpectedPatterns(to, name, RootUntouched(ChangesOf(events)), LastFormatter(ChangesOf(events), name))
      && AllClosed(patterns)
  {
    AppendersFollow(events, to);
    FormatterAfterChain(events, to, name);
    LastIsClosed(ChangesOf(events), name);
    DefaultClosed(DEFAULT_PATTERN);
    if Has(to, name) {
      AcceptedAreGood(events, to, name);
      WantedClosed(name, EntryOf(to, name).appenders, LastFormatter(ChangesOf(events), name));
    }
  }
}
