/** The registry of loggers follows the configuration over every run of changes. */
module Reconciliation {
  import opened LoggerConfigs
  import opened LogRegistry
  import opened Sequences
  import ConfigVars
  import PatternGrammar

  /** What matters of an appender: where it writes, and from which level on. */
  datatype Target = Target(ty: int, file: string, level: Level)

  function Targets(appenders: seq<Appender>): seq<Target> {
    seq(|appenders|, i requires 0 <= i < |appenders| =>
      Target(appenders[i].ty, appenders[i].file, appenders[i].level))
  }

  /** The target of one appender. */
  function WantedOne(name: string, a: AppenderConfig): seq<Target> {
    if Skipped(name, a) then []
    else [Target(a.ty, if a.ty == 1 then a.file else "", if a.level == UNKNOWN then DEBUG else a.level)]
  }

  /** The targets an entry asks for; an unknown level means DEBUG, and the root logger has no type 0. */
  function Wanted(name: string, appenders: seq<AppenderConfig>): seq<Target> {
    if appenders == [] then [] else WantedOne(name, appenders[0]) + Wanted(name, appenders[1..])
  }

  const DEFAULT_TARGET := Target(0, "", DEBUG)

  predicate AllFormatted(l: Logger) { forall i :: 0 <= i < |l.appenders| ==> l.appenders[i].hasFormatter }

  function EntryOf(cfg: ConfigSet, name: string): LoggerConfig
    requires Has(cfg, name)
  {
    cfg[Find(cfg, name)]
  }

  /** What a logger should be: `kept` says whether the root logger still has its first appender. */
  function ExpectedTargets(cfg: ConfigSet, name: string, kept: bool): seq<Target> {
    (if kept && name == ROOT then [DEFAULT_TARGET] else [])
    + (if Has(cfg, name) then Wanted(name, EntryOf(cfg, name).appenders) else [])
  }

  function ExpectedLevel(cfg: ConfigSet, name: string): Level {
    if Has(cfg, name) then EntryOf(cfg, name).level else DEBUG
  }

  ghost predicate InStep(l: Logger, cfg: ConfigSet, name: string, kept: bool) {
    && l.level == ExpectedLevel(cfg, name)
    && Targets(l.appenders) == ExpectedTargets(cfg, name, kept)
    && AllFormatted(l)
  }

  /** Every configured logger is registered, and the root logger as long as it has its first appender; each
      registered logger is as its entry says, or new if it has none. */
  ghost predicate Follows(cfg: ConfigSet, reg: Registry, kept: bool) {
    && (forall name :: Has(cfg, name) || (kept && name == ROOT) ==> name in reg)
    && (forall name :: name in reg ==> InStep(reg[name], cfg, name, kept))
  }

  /** And no others are registered. */
  ghost predicate Synced(cfg: ConfigSet, reg: Registry, kept: bool) {
    && Follows(cfg, reg, kept)
    && (forall name :: name in reg ==> Has(cfg, name) || (kept && name == ROOT))
  }

  lemma InitiallySynced()
    ensures Synced([], InitialRegistry(), true)
  {
  }

  // ----- one entry

  /** The appenders before the first bad one. */
  function GoodPart(name: string, appenders: seq<AppenderConfig>): seq<AppenderConfig> {
    if appenders == [] || !GoodAppender(name, appenders[0]) then []
    else [appenders[0]] + GoodPart(name, appenders[1..])
  }

  lemma {:induction false} AllGoodPart(name: string, appenders: seq<AppenderConfig>)
    requires AllGood(name, appenders)
    ensures GoodPart(name, appenders) == appenders
  {
    if appenders != [] {
      AllGoodPart(name, appenders[1..]);
      assert appenders == [appenders[0]] + appenders[1..];
    }
  }

  lemma AttachOne(l: Logger, name: string, a: AppenderConfig)
    requires GoodAppender(name, a) && AllFormatted(l)
    ensures var m := if Skipped(name, a) then l else AddAppender(l, MakeAppender(a));
      && m.level == l.level && m.pattern == l.pattern && AllFormatted(m)
      && Targets(m.appenders) == Targets(l.appenders) + WantedOne(name, a)
  {
    if Skipped(name, a) {
      assert Targets(l.appenders) + [] == Targets(l.appenders);
    } else {
      var made := AddAppender(l, MakeAppender(a)).appenders[|l.appenders|];
      assert AddAppender(l, MakeAppender(a)).appenders == l.appenders + [made];
      assert Targets(l.appenders + [made]) == Targets(l.appenders) + WantedOne(name, a);
    }
  }

  /** Attaching adds, in order, the appenders before the first bad one. */
  lemma {:induction false} AttachTargets(l: Logger, name: string, appenders: seq<AppenderConfig>)
    requires AllFormatted(l)
    ensures var m := AttachAll(l, name, appenders);
      && m.level == l.level && m.pattern == l.pattern && AllFormatted(m)
      && Targets(m.appenders) == Targets(l.appenders) + Wanted(name, GoodPart(name, appenders))
    decreases |appenders|
  {
    if appenders == [] || !GoodAppender(name, appenders[0]) {
      assert Targets(l.appenders) + [] == Targets(l.appenders);
    } else {
      var a, rest := appenders[0], appenders[1..];
      AttachOne(l, name, a);
      var next := if Skipped(name, a) then l else AddAppender(l, MakeAppender(a));
      AttachTargets(next, name, rest);
      var part := GoodPart(name, rest);
      assert ([a] + part)[1..] == part;
      Assoc(Targets(l.appenders), WantedOne(name, a), Wanted(name, part));
    }
  }

  /** The logger an entry leads to. */
  function EntryLogger(old_val: ConfigSet, reg: Registry, entry: LoggerConfig): Logger {
    ApplyEntry(old_val, reg, entry)[entry.name]
  }

  function TargetsBefore(old_val: ConfigSet, reg: Registry, name: string): seq<Target> {
    if Has(old_val, name) || name !in reg then [] else Targets(reg[name].appenders)
  }

  lemma ChangedEntry(old_val: ConfigSet, reg: Registry, entry: LoggerConfig)
    requires !Unchanged(old_val, entry) && (entry.name in reg ==> AllFormatted(reg[entry.name]))
    ensures var l := EntryLogger(old_val, reg, entry);
      && l.level == entry.level && AllFormatted(l)
      && Targets(l.appenders) ==
           TargetsBefore(old_val, reg, entry.name) + Wanted(entry.name, GoodPart(entry.name, entry.appenders))
  {
    var l := GetLogger(reg, entry.name)[entry.name];
    var p := Prepared(l, entry, Has(old_val, entry.name));
    var before := if Has(old_val, entry.name) then [] else l.appenders;
    assert p.appenders == before by {
      assert forall i :: 0 <= i < |before| ==> before[i].hasFormatter;
    }
    AttachTargets(p, entry.name, entry.appenders);
  }

  lemma EntryTouchesOne(old_val: ConfigSet, reg: Registry, entry: LoggerConfig)
    ensures var r := ApplyEntry(old_val, reg, entry);
      && (forall name :: name in r <==> name in reg || name == entry.name)
      && (forall name :: name in reg && name != entry.name ==> r[name] == reg[name])
  {
  }

  lemma EntryIsLocal(old_val: ConfigSet, reg: Registry, reg1: Registry, entry: LoggerConfig)
    requires entry.name in reg <==> entry.name in reg1
    requires entry.name in reg ==> reg[entry.name] == reg1[entry.name]
    ensures EntryLogger(old_val, reg, entry) == EntryLogger(old_val, reg1, entry)
  {
  }

  /** What `r` is when each of the entries has been applied to `reg` on its own. */
  ghost predicate Pointwise(old_val: ConfigSet, reg: Registry, entries: ConfigSet, r: Registry) {
    && (forall name :: name in r <==> name in reg || Has(entries, name))
    && (forall name :: name in reg && !Has(entries, name) ==> r[name] == reg[name])
    && (forall i :: 0 <= i < |entries| ==>
          entries[i].name in r && r[entries[i].name] == EntryLogger(old_val, reg, entries[i]))
  }

  lemma PointwiseCons(old_val: ConfigSet, reg: Registry, entries: ConfigSet, r: Registry)
    requires entries != [] && DistinctNames(entries)
    requires Pointwise(old_val, ApplyEntry(old_val, reg, entries[0]), entries[1..], r)
    ensures Pointwise(old_val, reg, entries, r)
  {
    var entry, rest := entries[0], entries[1..];
    var reg1 := ApplyEntry(old_val, reg, entry);
    EntryTouchesOne(old_val, reg, entry);
    HasCons(entries);
    assert !Has(rest, entry.name);
    forall i | 0 <= i < |entries|
      ensures entries[i].name in r && r[entries[i].name] == EntryLogger(old_val, reg, entries[i])
    {
      if i > 0 {
        assert entries[i] == rest[i - 1];
        EntryIsLocal(old_val, reg, reg1, entries[i]);
      }
    }
  }

  /** The entries the first loop looks at: all, or those up to the first that fails. */
  function Reached(old_val: ConfigSet, entries: ConfigSet): ConfigSet {
    if entries == [] then []
    else [entries[0]] + (if EntryFails(old_val, entries[0]) then [] else Reached(old_val, entries[1..]))
  }

  lemma {:induction false} ReachedPrefix(old_val: ConfigSet, entries: ConfigSet)
    ensures Reached(old_val, entries) <= entries
    ensures DistinctNames(entries) ==> DistinctNames(Reached(old_val, entries))
  {
    if entries != [] {
      ReachedPrefix(old_val, entries[1..]);
      assert entries == [entries[0]] + entries[1..];
    }
  }

  lemma NoneFailsCons(old_val: ConfigSet, entries: ConfigSet)
    requires entries != []
    ensures NoneFails(old_val, entries) <==> !EntryFails(old_val, entries[0]) && NoneFails(old_val, entries[1..])
  {
    if !EntryFails(old_val, entries[0]) && NoneFails(old_val, entries[1..]) {
      forall i | 0 <= i < |entries| ensures !EntryFails(old_val, entries[i]) {
        if i > 0 { assert entries[i] == entries[1..][i - 1]; }
      }
    }
    assert forall i :: 0 <= i < |entries| - 1 ==> entries[1..][i] == entries[i + 1];
  }

  lemma {:induction false} ReachedAll(old_val: ConfigSet, entries: ConfigSet)
    requires NoneFails(old_val, entries)
    ensures Reached(old_val, entries) == entries
  {
    if entries != [] {
      NoneFailsCons(old_val, entries);
      ReachedAll(old_val, entries[1..]);
      assert entries == [entries[0]] + entries[1..];
    }
  }

  lemma {:induction false} ReachedUpTo(old_val: ConfigSet, entries: ConfigSet, i: nat)
    requires i < |entries| && EntryFails(old_val, entries[i]) && NoneFails(old_val, entries[..i])
    ensures Reached(old_val, entries) == entries[..i + 1]
  {
    if i == 0 {
      assert entries[..1] == [entries[0]] + [];
    } else {
      NoneFailsCons(old_val, entries[..i]);
      assert entries[..i][1..] == entries[1..][..i - 1];
      ReachedUpTo(old_val, entries[1..], i - 1);
      assert entries[..i + 1] == [entries[0]] + entries[1..][..i];
    }
  }

  /** The entries of one change, as far as they are reached, do not touch each other's loggers. */
  lemma {:induction false} ApplyEntriesPointwise(old_val: ConfigSet, reg: Registry, entries: ConfigSet)
    requires DistinctNames(entries)
    ensures Pointwise(old_val, reg, Reached(old_val, entries), ApplyEntries(old_val, reg, entries))
    decreases |entries|
  {
    if entries != [] {
      var reached, rest := Reached(old_val, entries), entries[1..];
      ReachedPrefix(old_val, entries);
      var reg1 := ApplyEntry(old_val, reg, entries[0]);
      if EntryFails(old_val, entries[0]) {
        assert reached[1..] == [];
      } else {
        assert reached[1..] == Reached(old_val, rest);
        ApplyEntriesPointwise(old_val, reg1, rest);
      }
      PointwiseCons(old_val, reg, reached, ApplyEntries(old_val, reg, entries));
    }
  }

  lemma HasCons(cs: ConfigSet)
    requires cs != []
    ensures forall name :: Has(cs, name) <==> cs[0].name == name || Has(cs[1..], name)
  {
  }

  // ----- one change that is accepted

  /** The root's entry is changed or removed, which costs the root logger its first appender. */
  predicate RootTouched(before: ConfigSet, after: ConfigSet) {
    Has(before, ROOT) && !(Has(after, ROOT) && EntryOf(after, ROOT) == EntryOf(before, ROOT))
  }

  lemma EntryInStep(old_val: ConfigSet, new_val: ConfigSet, reg: Registry, kept: bool, name: string)
    requires Follows(old_val, reg, kept) && Has(new_val, name) && !EntryFails(old_val, EntryOf(new_val, name))
    ensures InStep(EntryLogger(old_val, reg, EntryOf(new_val, name)), new_val, name,
                   kept && !RootTouched(old_val, new_val))
  {
    var entry := EntryOf(new_val, name);
    if !Unchanged(old_val, entry) {
      TargetsLeft(old_val, new_val, reg, kept, name);
      ChangedEntry(old_val, reg, entry);
      AllGoodPart(name, entry.appenders);
    }
  }

  /** What a changed entry finds attached: the root logger's first appender, if that is still there and the
      root's entry is new. */
  lemma TargetsLeft(old_val: ConfigSet, new_val: ConfigSet, reg: Registry, kept: bool, name: string)
    requires Follows(old_val, reg, kept) && Has(new_val, name) && !Unchanged(old_val, EntryOf(new_val, name))
    ensures TargetsBefore(old_val, reg, name) ==
      if kept && !RootTouched(old_val, new_val) && name == ROOT then [DEFAULT_TARGET] else []
  {
    assert [DEFAULT_TARGET] + [] == [DEFAULT_TARGET];
  }

  /** What an accepted change leaves of each logger. */
  lemma ReconciledLogger(old_val: ConfigSet, new_val: ConfigSet, reg: Registry, name: string)
    requires DistinctNames(new_val) && NoneFails(old_val, new_val)
    ensures var r := Reconcile(old_val, new_val, reg);
      && (name in r <==> Has(new_val, name) || (name in reg && !Has(old_val, name)))
      && (Has(new_val, name) ==> r[name] == EntryLogger(old_val, reg, EntryOf(new_val, name)))
      && (name in r && !Has(new_val, name) ==> r[name] == reg[name])
  {
    ReachedAll(old_val, new_val);
    ApplyEntriesPointwise(old_val, reg, new_val);
  }

  /** A change that does not throw leaves the registry in line with the new configuration; the root logger
      keeps its first appender exactly if its entry was not there before or is unchanged. */
  lemma ReconcileFollows(old_val: ConfigSet, new_val: ConfigSet, reg: Registry, kept: bool)
    requires DistinctNames(new_val) && Follows(old_val, reg, kept) && NoneFails(old_val, new_val)
    ensures Follows(new_val, Reconcile(old_val, new_val, reg), kept && !RootTouched(old_val, new_val))
  {
    var r := Reconcile(old_val, new_val, reg);
    var kept1 := kept && !RootTouched(old_val, new_val);
    forall name | Has(new_val, name) || (kept1 && name == ROOT) ensures name in r {
      ReconciledLogger(old_val, new_val, reg, name);
    }
    forall name | name in r ensures InStep(r[name], new_val, name, kept1) {
      ReconciledLogger(old_val, new_val, reg, name);
      if Has(new_val, name) {
        assert !EntryFails(old_val, new_val[Find(new_val, name)]);
        EntryInStep(old_val, new_val, reg, kept, name);
      }
    }
  }

  /** Whether a name is registered just as the configuration asks. */
  predicate Exact(cfg: ConfigSet, reg: Registry, kept: bool, name: string) {
    name in reg <==> Has(cfg, name) || (kept && name == ROOT)
  }

  lemma ReconcileExact(old_val: ConfigSet, new_val: ConfigSet, reg: Registry, kept: bool, name: string)
    requires DistinctNames(new_val) && NoneFails(old_val, new_val) && Exact(old_val, reg, kept, name)
    ensures Exact(new_val, Reconcile(old_val, new_val, reg), kept && !RootTouched(old_val, new_val), name)
  {
    ReconciledLogger(old_val, new_val, reg, name);
  }

  /** If only the asked-for loggers were registered, that stays so. */
  lemma ReconcileSyncs(old_val: ConfigSet, new_val: ConfigSet, reg: Registry, kept: bool)
    requires DistinctNames(new_val) && Synced(old_val, reg, kept) && NoneFails(old_val, new_val)
    ensures Synced(new_val, Reconcile(old_val, new_val, reg), kept && !RootTouched(old_val, new_val))
  {
    ReconcileFollows(old_val, new_val, reg, kept);
    var r := Reconcile(old_val, new_val, reg);
    forall name | name in r
      ensures Has(new_val, name) || (kept && !RootTouched(old_val, new_val) && name == ROOT)
    {
      ReconcileExact(old_val, new_val, reg, kept, name);
    }
  }

  // ----- one change that throws

  /** An entry whose application shows neither in the registered names nor in a logger's level and appenders (it
      may show in the logger's formatter): it is unchanged, or it leads to the level and the appenders that the
      old entry has, or it is a new one for an untouched root that asks for nothing. */
  predicate Harmless(old_val: ConfigSet, entry: LoggerConfig, kept: bool) {
    var wanted := Wanted(entry.name, GoodPart(entry.name, entry.appenders));
    if Has(old_val, entry.name) then
      var was := EntryOf(old_val, entry.name);
      was == entry || (was.level == entry.level && wanted == Wanted(entry.name, was.appenders))
    else
      kept && entry.name == ROOT && entry.level == DEBUG && wanted == []
  }

  /** The root's first appender has type 0, which no entry of the root gives. */
  lemma {:induction false} RootWantsFiles(appenders: seq<AppenderConfig>)
    ensures Wanted(ROOT, appenders) == [] || Wanted(ROOT, appenders)[0].ty != 0
  {
    if appenders != [] {
      RootWantsFiles(appenders[1..]);
      assert Skipped(ROOT, appenders[0]) ==>
        WantedOne(ROOT, appenders[0]) + Wanted(ROOT, appenders[1..]) == Wanted(ROOT, appenders[1..]);
    }
  }

  /** The first loop has reached a root entry that differs from the configured one. */
  predicate RootCleared(old_val: ConfigSet, reached: ConfigSet) {
    Has(reached, ROOT) && Has(old_val, ROOT) && !Unchanged(old_val, EntryOf(reached, ROOT))
  }

  lemma HarmlessStays(old_val: ConfigSet, reg: Registry, kept: bool, entry: LoggerConfig, b: bool)
    requires Synced(old_val, reg, kept) && Harmless(old_val, entry, kept)
    requires entry.name == ROOT ==> b == (kept && (Has(old_val, ROOT) ==> Unchanged(old_val, entry)))
    ensures InStep(EntryLogger(old_val, reg, entry), old_val, entry.name, b)
  {
    if !Unchanged(old_val, entry) { ChangedEntry(old_val, reg, entry); }
  }

  lemma HarmShows(old_val: ConfigSet, reg: Registry, kept: bool, entry: LoggerConfig, b: bool)
    requires Synced(old_val, reg, kept)
    requires Has(old_val, entry.name) || (b && entry.name == ROOT)
    requires InStep(EntryLogger(old_val, reg, entry), old_val, entry.name, b)
    ensures Harmless(old_val, entry, kept)
  {
    if !Unchanged(old_val, entry) {
      ChangedEntry(old_val, reg, entry);
      var part := GoodPart(entry.name, entry.appenders);
      var wanted := Wanted(entry.name, part);
      assert [] + wanted == wanted;
      if Has(old_val, entry.name) {
        var was := Wanted(entry.name, EntryOf(old_val, entry.name).appenders);
        assert [] + was == was && ([DEFAULT_TARGET] + was)[0] == DEFAULT_TARGET;
        if entry.name == ROOT { RootWantsFiles(part); }
      } else {
        RootWantsFiles(part);
        assert [DEFAULT_TARGET] + [] == [DEFAULT_TARGET];
        assert kept;
        assert |[DEFAULT_TARGET] + wanted| == 1;
      }
    }
  }

  ghost predicate AllHarmless(old_val: ConfigSet, reached: ConfigSet, kept: bool) {
    forall k :: 0 <= k < |reached| ==> Harmless(old_val, reached[k], kept)
  }

  lemma HarmlessSyncs(old_val: ConfigSet, reg: Registry, kept: bool, reached: ConfigSet, r: Registry)
    requires Synced(old_val, reg, kept) && DistinctNames(reached) && Pointwise(old_val, reg, reached, r)
    requires AllHarmless(old_val, reached, kept)
    ensures Synced(old_val, r, kept && !RootCleared(old_val, reached))
  {
    var b := kept && !RootCleared(old_val, reached);
    forall name ensures name in r <==> Has(old_val, name) || (b && name == ROOT) {
      if Has(reached, name) { assert Harmless(old_val, reached[Find(reached, name)], kept); }
    }
    forall name | name in r ensures InStep(r[name], old_val, name, b) {
      if Has(reached, name) {
        var k := Find(reached, name);
        HarmlessStays(old_val, reg, kept, reached[k], b);
      }
    }
  }

  lemma SyncNeedsHarmless(old_val: ConfigSet, reg: Registry, kept: bool, reached: ConfigSet, r: Registry, b: bool)
    requires Synced(old_val, reg, kept) && Pointwise(old_val, reg, reached, r) && Synced(old_val, r, b)
    ensures AllHarmless(old_val, reached, kept)
  {
    forall k | 0 <= k < |reached| ensures Harmless(old_val, reached[k], kept) {
      assert reached[k].name in r;
      HarmShows(old_val, reg, kept, reached[k], b);
    }
  }

  ghost predicate InLine(cfg: ConfigSet, reg: Registry) { Synced(cfg, reg, true) || Synced(cfg, reg, false) }

  lemma InLineIffHarmless(old_val: ConfigSet, reg: Registry, kept: bool, reached: ConfigSet, r: Registry)
    requires Synced(old_val, reg, kept) && DistinctNames(reached) && Pointwise(old_val, reg, reached, r)
    ensures InLine(old_val, r) <==> AllHarmless(old_val, reached, kept)
  {
    if AllHarmless(old_val, reached, kept) { HarmlessSyncs(old_val, reg, kept, reached, r); }
    if Synced(old_val, r, true) { SyncNeedsHarmless(old_val, reg, kept, reached, r, true); }
    if Synced(old_val, r, false) { SyncNeedsHarmless(old_val, reg, kept, reached, r, false); }
  }

  /** A change that throws at entry i leaves the configuration as it was. The registry is still in line with it
      exactly if every entry up to the failing one is harmless. */
  lemma FailureBreaksSync(old_val: ConfigSet, new_val: ConfigSet, reg: Registry, kept: bool, i: nat)
    requires Synced(old_val, reg, kept) && DistinctNames(new_val)
    requires i < |new_val| && EntryFails(old_val, new_val[i]) && NoneFails(old_val, new_val[..i])
    ensures InLine(old_val, Reconcile(old_val, new_val, reg)) <==> AllHarmless(old_val, new_val[..i + 1], kept)
  {
    ReachedUpTo(old_val, new_val, i);
    ApplyEntriesPointwise(old_val, reg, new_val);
    assert !NoneFails(old_val, new_val);
    InLineIffHarmless(old_val, reg, kept, new_val[..i + 1], ApplyEntries(old_val, reg, new_val));
  }

  // ----- every run

  /** What happens to the registry: the listener is shown a change, or the program fetches a logger, which
      registers a new one if there is none of that name. */
  datatype Event = Change(call: ConfigVars.Call<ConfigSet>) | Fetch(name: string)

  function Replay(reg: Registry, events: seq<Event>): Registry {
    if events == [] then reg
    else
      var last, before := events[|events| - 1], Replay(reg, events[..|events| - 1]);
      match last
      case Change(call) => Reconcile(call.before, call.after, before)
      case Fetch(name) => GetLogger(before, name)
  }

  function ChangesOf(events: seq<Event>): seq<ConfigVars.Call<ConfigSet>> {
    if events == [] then []
    else
      var last := events[|events| - 1];
      ChangesOf(events[..|events| - 1]) + (if last.Change? then [last.call] else [])
  }

  /** No change in the history made the listener throw, and each was to a set. */
  ghost predicate Accepted(calls: seq<ConfigVars.Call<ConfigSet>>) {
    forall i :: 0 <= i < |calls| ==> NoneFails(calls[i].before, calls[i].after) && DistinctNames(calls[i].after)
  }

  predicate RootUntouched(calls: seq<ConfigVars.Call<ConfigSet>>) {
    forall i :: 0 <= i < |calls| ==> !RootTouched(calls[i].before, calls[i].after)
  }

  /** The history leads from one configuration to another, and is accepted. */
  ghost predicate Leads(events: seq<Event>, from: ConfigSet, to: ConfigSet) {
    ConfigVars.IsChain(ChangesOf(events), from, to) && Accepted(ChangesOf(events))
  }

  lemma LastEvent(events: seq<Event>, from: ConfigSet, to: ConfigSet)
    requires events != [] && Leads(events, from, to)
    ensures var n := |events| - 1;
      match events[n]
      case Fetch(_) => Leads(events[..n], from, to) && ChangesOf(events) == ChangesOf(events[..n])
      case Change(call) =>
        && Leads(events[..n], from, call.before) && call.after == to
        && NoneFails(call.before, to) && DistinctNames(to)
        && (RootUntouched(ChangesOf(events)) <==> RootUntouched(ChangesOf(events[..n])) && !RootTouched(call.before, to))
  {
    var n := |events| - 1;
    var calls := ChangesOf(events[..n]);
    if events[n].Change? {
      var all := ChangesOf(events);
      assert all == calls + [events[n].call] && all[..|calls|] == calls && all[|calls|] == events[n].call;
      assert forall i :: 0 <= i < |calls| ==> all[i] == calls[i];
    } else {
      assert calls + [] == calls;
    }
  }

  lemma FetchFollows(cfg: ConfigSet, reg: Registry, kept: bool, name: string)
    requires Follows(cfg, reg, kept)
    ensures Follows(cfg, GetLogger(reg, name), kept)
  {
  }

  /** Over any run in which no change throws the registry follows the configuration. */
  lemma {:induction false} ReplayFollows(reg: Registry, events: seq<Event>, from: ConfigSet, to: ConfigSet, kept: bool)
    requires Leads(events, from, to) && Follows(from, reg, kept)
    ensures Follows(to, Replay(reg, events), kept && RootUntouched(ChangesOf(events)))
  {
    if events != [] {
      var n := |events| - 1;
      LastEvent(events, from, to);
      match events[n]
      case Fetch(name) =>
        ReplayFollows(reg, events[..n], from, to, kept);
        FetchFollows(to, Replay(reg, events[..n]), kept && RootUntouched(ChangesOf(events[..n])), name);
      case Change(call) =>
        ReplayFollows(reg, events[..n], from, call.before, kept);
        ReconcileFollows(call.before, to, Replay(reg, events[..n]), kept && RootUntouched(ChangesOf(events[..n])));
    }
  }

  /** And a name that the program has not fetched is registered exactly if the configuration asks for it. */
  lemma {:induction false} ReplayExact(reg: Registry, events: seq<Event>, from: ConfigSet, to: ConfigSet, kept: bool,
                                       name: string)
    requires Leads(events, from, to) && Exact(from, reg, kept, name) && Fetch(name) !in events
    ensures Exact(to, Replay(reg, events), kept && RootUntouched(ChangesOf(events)), name)
  {
    if events != [] {
      var n := |events| - 1;
      LastEvent(events, from, to);
      assert Fetch(name) !in events[..n] && events[n] != Fetch(name);
      match events[n]
      case Fetch(_) => ReplayExact(reg, events[..n], from, to, kept, name);
      case Change(call) =>
        ReplayExact(reg, events[..n], from, call.before, kept, name);
        ReconcileExact(call.before, to, Replay(reg, events[..n]), kept && RootUntouched(ChangesOf(events[..n])), name);
    }
  }

  lemma UnfetchedExact(events: seq<Event>, to: ConfigSet, name: string)
    requires Leads(events, [], to) && Fetch(name) !in events
    ensures Exact(to, Replay(InitialRegistry(), events), RootUntouched(ChangesOf(events)), name)
  {
    ReplayExact(InitialRegistry(), events, [], to, true, name);
  }

  /** From the initial registry on. */
  lemma ReplaySyncs(events: seq<Event>, to: ConfigSet)
    requires Leads(events, [], to)
    ensures var r, kept := Replay(InitialRegistry(), events), RootUntouched(ChangesOf(events));
      Follows(to, r, kept) && forall name :: Fetch(name) !in events ==> Exact(to, r, kept, name)
  {
    InitiallySynced();
    ReplayFollows(InitialRegistry(), events, [], to, true);
    forall name | Fetch(name) !in events
      ensures Exact(to, Replay(InitialRegistry(), events), RootUntouched(ChangesOf(events)), name)
    {
      UnfetchedExact(events, to, name);
    }
  }

  /** From new configuration variables and the initial registry, over any run of operations in which the
      listener stays registered and no change throws, and however the program fetches loggers meanwhile: the
      registry follows the current configuration, names not fetched are registered exactly if asked for, and
      the root logger has its first appender exactly if its entry was never changed or removed. */
  lemma RegistryFollowsConfig(s0: ConfigVars.Store<ConfigSet>, before: seq<ConfigVars.Op<ConfigSet>>, j: nat,
                              ops: seq<ConfigVars.Op<ConfigSet>>, events: seq<Event>)
    requires ConfigVars.Initial(s0) && j < |ConfigVars.RunOps(s0, before).vars|
    requires var u := ConfigVars.Registered(s0, before, j);
      && u.vars[j].val == []
      && ConfigVars.StaysRegistered(u, ops, j, u.key) && ConfigVars.NeverMisled(u, ops, j, u.key)
      && ChangesOf(events) == ConfigVars.CallsOf(ConfigVars.RunOps(u, ops).vars[j].calls, u.key)
      && Accepted(ChangesOf(events))
    ensures var v := ConfigVars.RunOps(ConfigVars.Registered(s0, before, j), ops).vars[j];
      var r, kept := Replay(InitialRegistry(), events), RootUntouched(ChangesOf(events));
      Follows(v.val, r, kept) && forall name :: Fetch(name) !in events ==> Exact(v.val, r, kept, name)
  {
    ConfigVars.ListenerHistoryFromRegistration(s0, before, j, ops);
    var u := ConfigVars.Registered(s0, before, j);
    ReplaySyncs(events, ConfigVars.RunOps(u, ops).vars[j].val);
  }

  /** Whether a logger's first appender is the one the root logger starts with. */
  predicate HasFirstAppender(l: Logger) { l.appenders != [] && Targets(l.appenders)[0] == DEFAULT_TARGET }

  lemma RootThatFollows(cfg: ConfigSet, reg: Registry, kept: bool)
    requires Follows(cfg, reg, kept)
    ensures (ROOT in reg && HasFirstAppender(reg[ROOT])) <==> kept
    ensures !kept && ROOT in reg ==>
      Targets(reg[ROOT].appenders) == if Has(cfg, ROOT) then Wanted(ROOT, EntryOf(cfg, ROOT).appenders) else []
  {
    if kept {
      assert ExpectedTargets(cfg, ROOT, kept)[0] == DEFAULT_TARGET;
    } else if ROOT in reg && Has(cfg, ROOT) {
      var wanted := Wanted(ROOT, EntryOf(cfg, ROOT).appenders);
      assert [] + wanted == wanted;
      RootWantsFiles(EntryOf(cfg, ROOT).appenders);
    }
  }

  /** After any run the root logger still has its first appender exactly if no change has touched its entry;
      once one has, the root logger is what its entry says, or gone unless it has been fetched. */
  lemma RootLosesStdOut(events: seq<Event>, to: ConfigSet)
    requires Leads(events, [], to)
    ensures var reg, kept := Replay(InitialRegistry(), events), RootUntouched(ChangesOf(events));
      && ((ROOT in reg && HasFirstAppender(reg[ROOT])) <==> kept)
      && (!kept && Fetch(ROOT) !in events ==> (ROOT in reg <==> Has(to, ROOT)))
      && (!kept && ROOT in reg ==>
            Targets(reg[ROOT].appenders) == if Has(to, ROOT) then Wanted(ROOT, EntryOf(to, ROOT).appenders) else [])
  {
    ReplaySyncs(events, to);
    RootThatFollows(to, Replay(InitialRegistry(), events), RootUntouched(ChangesOf(events)));
  }

  // ----- the formatter

  /** The entry gives a pattern in which every parameter is closed. */
  predicate SetsFormatter(entry: LoggerConfig) {
    entry.formatter != "" && PatternGrammar.NoneUnclosed(PatternGrammar.Lex(entry.formatter))
  }

  function PatternBefore(reg: Registry, name: string): string {
    if name in reg then reg[name].pattern else DEFAULT_PATTERN
  }

  lemma PatternOfEntry(old_val: ConfigSet, reg: Registry, entry: LoggerConfig)
    requires !Unchanged(old_val, entry) && (entry.name in reg ==> AllFormatted(reg[entry.name]))
    ensures EntryLogger(old_val, reg, entry).pattern ==
      if SetsFormatter(entry) then entry.formatter else PatternBefore(reg, entry.name)
  {
    var l := GetLogger(reg, entry.name)[entry.name];
    var p := Prepared(l, entry, Has(old_val, entry.name));
    PatternGrammar.ErrorIffUnclosed(entry.formatter);
    AttachTargets(p, entry.name, entry.appenders);
  }

  /** The last usable formatter that a logger's entries have given since it was last absent. */
  function LastFormatter(calls: seq<ConfigVars.Call<ConfigSet>>, name: string): string {
    if calls == [] || !Has(calls[|calls| - 1].after, name) then DEFAULT_PATTERN
    else
      var entry := EntryOf(calls[|calls| - 1].after, name);
      if SetsFormatter(entry) then entry.formatter else LastFormatter(calls[..|calls| - 1], name)
  }

  lemma ReconcilePattern(old_val: ConfigSet, new_val: ConfigSet, reg: Registry, kept: bool, name: string)
    requires DistinctNames(new_val) && Follows(old_val, reg, kept) && NoneFails(old_val, new_val)
    requires Has(old_val, name) && SetsFormatter(EntryOf(old_val, name)) ==>
      PatternBefore(reg, name) == EntryOf(old_val, name).formatter
    requires !Has(old_val, name) ==> PatternBefore(reg, name) == DEFAULT_PATTERN
    ensures PatternBefore(Reconcile(old_val, new_val, reg), name) ==
      if !Has(new_val, name) then DEFAULT_PATTERN
      else if SetsFormatter(EntryOf(new_val, name)) then EntryOf(new_val, name).formatter
      else PatternBefore(reg, name)
  {
    ReconciledLogger(old_val, new_val, reg, name);
    if Has(new_val, name) && !Unchanged(old_val, EntryOf(new_val, name)) {
      PatternOfEntry(old_val, reg, EntryOf(new_val, name));
    }
  }

  lemma LastFormatterNext(events: seq<Event>, name: string)
    requires events != [] && events[|events| - 1].Change?
    ensures var n := |events| - 1;
      var to, calls := events[n].call.after, ChangesOf(events);
      && calls != [] && calls[|calls| - 1].after == to
      && LastFormatter(calls, name) ==
           if !Has(to, name) then DEFAULT_PATTERN
           else if SetsFormatter(EntryOf(to, name)) then EntryOf(to, name).formatter
           else LastFormatter(ChangesOf(events[..n]), name)
  {
    var n := |events| - 1;
    var before := ChangesOf(events[..n]);
    assert ChangesOf(events) == before + [events[n].call];
    assert (before + [events[n].call])[..|before|] == before;
  }

  /** The last change of an accepted history is to the current configuration. */
  lemma LastFormatterNow(calls: seq<ConfigVars.Call<ConfigSet>>, to: ConfigSet, name: string)
    requires ConfigVars.IsChain(calls, [], to)
    ensures !Has(to, name) ==> LastFormatter(calls, name) == DEFAULT_PATTERN
    ensures Has(to, name) && SetsFormatter(EntryOf(to, name)) ==>
      LastFormatter(calls, name) == EntryOf(to, name).formatter
  {
  }

  /** After any run each logger's formatter is the last usable one given since it was last absent. */
  lemma {:induction false} FormatterAfterChain(events: seq<Event>, to: ConfigSet, name: string)
    requires Leads(events, [], to)
    ensures PatternBefore(Replay(InitialRegistry(), events), name) == LastFormatter(ChangesOf(events), name)
  {
    if events != [] {
      var n := |events| - 1;
      LastEvent(events, [], to);
      match events[n]
      case Fetch(_) => FormatterAfterChain(events[..n], to, name);
      case Change(call) =>
        FormatterAfterChain(events[..n], call.before, name);
        ReplaySyncs(events[..n], call.before);
        LastFormatterNow(ChangesOf(events[..n]), call.before, name);
        LastFormatterNext(events, name);
        ReconcilePattern(call.before, to, Replay(InitialRegistry(), events[..n]),
                         RootUntouched(ChangesOf(events[..n])), name);
    }
  }

  lemma OneMoreChange(events: seq<Event>, from: ConfigSet, to: ConfigSet, next: ConfigSet)
    requires Leads(events, from, to) && to != next && NoneFails(to, next) && DistinctNames(next)
    ensures Leads(events + [Change(ConfigVars.Call(0, to, next))], from, next)
  {
    var more := events + [Change(ConfigVars.Call(0, to, next))];
    var calls := ChangesOf(events);
    assert more[..|events|] == events;
    assert ChangesOf(more) == calls + [ConfigVars.Call(0, to, next)];
    assert (calls + [ConfigVars.Call(0, to, next)])[..|calls|] == calls;
  }

  lemma OneEntrySet(e: LoggerConfig, old_val: ConfigSet)
    requires AllGood(e.name, e.appenders)
    ensures NoneFails(old_val, [e]) && DistinctNames([e]) && Has([e], e.name) && EntryOf([e], e.name) == e
  {
    assert Find([e], e.name) == 0;
  }

  /** One change, from nothing to one entry. */
  function Direct(e: LoggerConfig): seq<Event> { [] + [Change(ConfigVars.Call(0, [], [e]))] }

  /** The same with another entry in between. */
  function Detour(earlier: LoggerConfig, e: LoggerConfig): seq<Event> {
    Direct(earlier) + [Change(ConfigVars.Call(0, [earlier], [e]))]
  }

  lemma DirectChain(e: LoggerConfig)
    requires AllGood(e.name, e.appenders)
    ensures Leads(Direct(e), [], [e])
    ensures LastFormatter(ChangesOf(Direct(e)), e.name) == if SetsFormatter(e) then e.formatter else DEFAULT_PATTERN
  {
    OneEntrySet(e, []);
    OneMoreChange([], [], [], [e]);
    assert Direct(e)[..0] == [];
    LastFormatterNext(Direct(e), e.name);
  }

  lemma DetourChain(earlier: LoggerConfig, e: LoggerConfig)
    requires AllGood(earlier.name, earlier.appenders) && AllGood(e.name, e.appenders) && earlier.name == e.name
    requires SetsFormatter(earlier) && !SetsFormatter(e)
    ensures Leads(Detour(earlier, e), [], [e])
    ensures LastFormatter(ChangesOf(Detour(earlier, e)), e.name) == earlier.formatter
  {
    DirectChain(earlier);
    OneEntrySet(e, [earlier]);
    assert [earlier][0] != [e][0];
    OneMoreChange(Direct(earlier), [], [earlier], [e]);
    assert Detour(earlier, e)[..1] == Direct(earlier);
    LastFormatterNext(Detour(earlier, e), e.name);
  }

  /** So two chains to the same configuration can leave different formatters: an entry without a usable
      formatter keeps what an earlier entry has set. */
  lemma FormatterDependsOnHistory(earlier: LoggerConfig, e: LoggerConfig)
    requires AllGood(earlier.name, earlier.appenders) && AllGood(e.name, e.appenders) && earlier.name == e.name
    requires SetsFormatter(earlier) && !SetsFormatter(e) && earlier.formatter != DEFAULT_PATTERN
    ensures Leads(Direct(e), [], [e]) && Leads(Detour(earlier, e), [], [e])
    ensures PatternBefore(Replay(InitialRegistry(), Direct(e)), e.name) == DEFAULT_PATTERN
    ensures PatternBefore(Replay(InitialRegistry(), Detour(earlier, e)), e.name) == earlier.formatter
  {
    DirectChain(e);
    DetourChain(earlier, e);
    FormatterAfterChain(Direct(e), [e], e.name);
    FormatterAfterChain(Detour(earlier, e), [e], e.name);
  }
}
