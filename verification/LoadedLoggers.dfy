/** From configuration files to loggers: loading trees sets the variable "logs", whose listener keeps the
    registry of loggers in line. */
module LoadedLoggers {
  import opened ConfigTree
  import CL = ConfigLoad
  import opened LoggerConfigs
  import opened LogRegistry
  import opened Options
  import opened Reconciliation
  import CV = ConfigVars
  import LT = LoggerTexts
  import LS = LoggerSets
  import opened Sequences

  const LOGS := "logs"

  /** The value of a configuration variable: the set of logger configurations, or that of another variable,
      which matters only up to equality. */
  datatype Setting = Loggers(cs: ConfigSet) | Other(text: string)

  /** The conversion of the variable "logs". */
  function ParseLogs(y: Yaml, text: string): Option<Setting> {
    match LT.ReadSet(y, text)
    case Some(cs) => Some(Loggers(cs))
    case None => None
  }

  /** "logs" has type `ty`, and the listener with key `id` is the one that keeps the registry: it throws exactly
      at the changes that the registry's listener throws at. */
  ghost predicate LogsEnv(c: CL.Env<Setting>, y: Yaml, ty: nat, id: nat) {
    && (forall node :: c.emit(node) == y.emit(node))
    && (forall text :: c.parse(ty, text) == ParseLogs(y, text))
    && (forall a, b :: id in c.throws(LOGS, Loggers(a), Loggers(b)) <==> !NoneFails(a, b))
  }

  /** A change from one set to another that the listener accepts. */
  ghost predicate IsSetChange(call: CV.Call<Setting>) {
    && call.before.Loggers? && call.after.Loggers?
    && NoneFails(call.before.cs, call.after.cs) && DistinctNames(call.after.cs)
  }

  ghost predicate AreSetChanges(calls: seq<CV.Call<Setting>>) { forall i :: 0 <= i < |calls| ==> IsSetChange(calls[i]) }

  /** What the listener has been shown, as changes between sets. */
  function Sets(calls: seq<CV.Call<Setting>>): seq<CV.Call<ConfigSet>>
    requires forall i :: 0 <= i < |calls| ==> calls[i].before.Loggers? && calls[i].after.Loggers?
  {
    seq(|calls|, i requires 0 <= i < |calls| => CV.Call(calls[i].id, calls[i].before.cs, calls[i].after.cs))
  }

  lemma {:induction false} ChainOfSets(calls: seq<CV.Call<Setting>>, from: ConfigSet, to: ConfigSet)
    requires AreSetChanges(calls) && CV.IsChain(calls, Loggers(from), Loggers(to))
    ensures CV.IsChain(Sets(calls), from, to) && Accepted(Sets(calls))
  {
    if calls != [] {
      var n := |calls| - 1;
      ChainOfSets(calls[..n], from, calls[n].before.cs);
      assert Sets(calls)[..n] == Sets(calls[..n]);
    }
  }

  function CallsTo(r: CL.Registry<Setting>, id: nat): seq<CV.Call<Setting>>
    requires LOGS in r.vars
  {
    CV.CallsOf(r.vars[LOGS].v.calls, id)
  }

  /** The listener has seen every change of "logs" since the empty set. */
  ghost predicate Following(r: CL.Registry<Setting>, ty: nat, id: nat) {
    && LOGS in r.vars && r.vars[LOGS].ty == ty && r.vars[LOGS].v.val.Loggers?
    && CV.Ascending(r.vars[LOGS].v.cbs) && id in r.vars[LOGS].v.cbs
    && AreSetChanges(CallsTo(r, id)) && CV.IsChain(CallsTo(r, id), Loggers([]), r.vars[LOGS].v.val)
  }

  /** What the listener is shown by one accepted change. */
  lemma ShownOnce(v: CV.Var<Setting>, x: Setting, throwing: set<nat>, id: nat)
    requires CV.Ascending(v.cbs) && id in v.cbs && x != v.val && !CV.Throws(v.cbs, throwing)
    ensures CV.CallsOf(CV.AfterSet(v, x, throwing).calls, id) == CV.CallsOf(v.calls, id) + [CV.Call(id, v.val, x)]
    ensures id !in throwing
  {
    var k := CV.Invoked(v.cbs, throwing);
    assert k == |v.cbs| && v.cbs[..k] == v.cbs;
    CV.CallsOfAppend(v.calls, CV.CallsFor(v.cbs, v.val, x), id);
    CV.CalledOnce(v.cbs, v.val, x, id);
  }

  lemma ParsedSets(y: Yaml, text: string)
    ensures ParseLogs(y, text).Some? ==> ParseLogs(y, text).value.Loggers? && DistinctNames(ParseLogs(y, text).value.cs)
  {
    LT.ReadSetsHaveDistinctNames(y, text);
  }

  lemma FollowingChange(c: CL.Env<Setting>, y: Yaml, r: CL.Registry<Setting>, ty: nat, id: nat, x: Setting)
    requires LogsEnv(c, y, ty, id) && Following(r, ty, id) && x.Loggers? && DistinctNames(x.cs)
    requires !CL.Refuses(c, LOGS, r.vars[LOGS].v.cbs, r.vars[LOGS].v.val, x)
    ensures Following(r.(vars := r.vars[LOGS := CL.SetSlot(c, LOGS, r.vars[LOGS], x)]), ty, id)
  {
    var v := r.vars[LOGS].v;
    if x != v.val {
      var throwing := c.throws(LOGS, v.val, x);
      ShownOnce(v, x, throwing, id);
      var calls := CV.CallsOf(v.calls, id);
      var call := CV.Call(id, v.val, x);
      assert v.val == Loggers(v.val.cs) && x == Loggers(x.cs);
      assert IsSetChange(call);
      assert (calls + [call])[..|calls|] == calls;
    }
  }

  lemma FollowingOne(c: CL.Env<Setting>, y: Yaml, r: CL.Registry<Setting>, ty: nat, id: nat, entry: Named)
    requires LogsEnv(c, y, ty, id) && Following(r, ty, id) && r.ok && CL.LoadOne(c, r, entry).ok
    ensures Following(CL.LoadOne(c, r, entry), ty, id)
  {
    if entry.name != "" && Lower(entry.name) == LOGS && CL.Regular(LOGS) {
      var text := if entry.node.Scalar? then entry.node.text else c.emit(entry.node);
      ParsedSets(y, text);
      assert CL.Converted(c, ty, entry.node) == ParseLogs(y, text);
      FollowingChange(c, y, r, ty, id, ParseLogs(y, text).value);
    }
  }

  lemma {:induction false} FollowingAll(c: CL.Env<Setting>, y: Yaml, r: CL.Registry<Setting>, ty: nat, id: nat, list: seq<Named>)
    requires LogsEnv(c, y, ty, id) && Following(r, ty, id) && r.ok && CL.LoadAll(c, r, list).ok
    ensures Following(CL.LoadAll(c, r, list), ty, id)
  {
    if list != [] {
      var n := |list| - 1;
      FollowingAll(c, y, r, ty, id, list[..n]);
      FollowingOne(c, y, CL.LoadAll(c, r, list[..n]), ty, id, list[n]);
    }
  }

  /** Several files, one after the other. */
  function LoadFiles(c: CL.Env<Setting>, r: CL.Registry<Setting>, files: seq<Node>): CL.Registry<Setting> {
    if files == [] then r else CL.Load(c, LoadFiles(c, r, files[..|files| - 1]), files[|files| - 1])
  }

  lemma {:induction false} FailedStays(c: CL.Env<Setting>, r: CL.Registry<Setting>, list: seq<Named>)
    requires !r.ok
    ensures !CL.LoadAll(c, r, list).ok
  {
    if list != [] { FailedStays(c, r, list[..|list| - 1]); }
  }

  lemma {:induction false} FollowingFiles(c: CL.Env<Setting>, y: Yaml, r: CL.Registry<Setting>, ty: nat, id: nat, files: seq<Node>)
    requires LogsEnv(c, y, ty, id) && Following(r, ty, id) && r.ok && LoadFiles(c, r, files).ok
    ensures Following(LoadFiles(c, r, files), ty, id)
  {
    if files != [] {
      var n := |files| - 1;
      var s := LoadFiles(c, r, files[..n]);
      if !s.ok { FailedStays(c, s, Flatten("", files[n])); }
      FollowingFiles(c, y, r, ty, id, files[..n]);
      FollowingAll(c, y, s, ty, id, Flatten("", files[n]));
    }
  }

  // ----- what the files say

  /** The node "logs" of the last file that has one. */
  function FinalNode(files: seq<Node>): Option<Node> {
    if files == [] then None
    else
      var found := Navigate(files[|files| - 1], Split(LOGS));
      if found != [] then Some(found[0]) else FinalNode(files[..|files| - 1])
  }

  lemma {:induction false} FinalValue(c: CL.Env<Setting>, r: CL.Registry<Setting>, files: seq<Node>)
    requires r.ok && LOGS in r.vars && LoadFiles(c, r, files).ok
    requires forall i :: 0 <= i < |files| ==> WellKeyed(files[i])
    ensures var s := LoadFiles(c, r, files);
      && LOGS in s.vars && s.vars[LOGS].ty == r.vars[LOGS].ty
      && match FinalNode(files)
         case None => s.vars[LOGS] == r.vars[LOGS]
         case Some(node) => CL.Converted(c, r.vars[LOGS].ty, node) == Some(s.vars[LOGS].v.val)
  {
    if files != [] {
      var n := |files| - 1;
      var s := LoadFiles(c, r, files[..n]);
      if !s.ok { FailedStays(c, s, Flatten("", files[n])); }
      FinalValue(c, r, files[..n]);
      CL.LoadIsNavigation(c, s, files[n], LOGS);
      CL.LastMatchWins(c, s, Flatten("", files[n]), LOGS);
    }
  }

  function TextOf(y: Yaml, node: Node): string { if node.Scalar? then node.text else y.emit(node) }

  /** The loggers that the files ask for: those of the last "logs" node, none without one. */
  function AskedFor(y: Yaml, files: seq<Node>): Option<ConfigSet> {
    match FinalNode(files)
    case None => Some([])
    case Some(node) => LT.ReadSet(y, TextOf(y, node))
  }

  /** If that node is a sequence, they are the loggers that its elements describe, one for each name. */
  lemma AskedForBySequence(y: Yaml, files: seq<Node>, items: seq<Node>, ds: seq<LoggerConfig>)
    requires Lawful(y) && FinalNode(files) == Some(Sequence(items))
    requires |ds| == |items| && forall i :: 0 <= i < |items| ==> FromNode(y, items[i]) == Some(ds[i])
    ensures AskedFor(y, files) == Some(LS.Collect(ds))
  {
    LT.ReadEmitted(y, items);
    EachIff(LT.AsConfig(y), items, ds);
  }

  lemma ConvertedLogs(c: CL.Env<Setting>, y: Yaml, ty: nat, id: nat, node: Node)
    requires LogsEnv(c, y, ty, id)
    ensures CL.Converted(c, ty, node) == ParseLogs(y, TextOf(y, node))
  {
    assert c.emit(node) == y.emit(node);
  }

  lemma HeldIsAskedFor(c: CL.Env<Setting>, y: Yaml, r: CL.Registry<Setting>, ty: nat, id: nat, files: seq<Node>)
    requires LogsEnv(c, y, ty, id) && r.ok && LoadFiles(c, r, files).ok
    requires forall i :: 0 <= i < |files| ==> WellKeyed(files[i])
    requires LOGS in r.vars && r.vars[LOGS].ty == ty && r.vars[LOGS].v.val == Loggers([])
    ensures var s := LoadFiles(c, r, files);
      LOGS in s.vars && s.vars[LOGS].v.val.Loggers? && AskedFor(y, files) == Some(s.vars[LOGS].v.val.cs)
  {
    FinalValue(c, r, files);
    if FinalNode(files).Some? { ConvertedLogs(c, y, ty, id, FinalNode(files).value); }
  }

  lemma FollowingMeansFollows(s: CL.Registry<Setting>, ty: nat, id: nat, events: seq<Event>)
    requires Following(s, ty, id) && ChangesOf(events) == Sets(CallsTo(s, id))
    ensures var cs := s.vars[LOGS].v.val.cs;
      var reg, kept := Replay(InitialRegistry(), events), RootUntouched(ChangesOf(events));
      Follows(cs, reg, kept) && forall name :: Fetch(name) !in events ==> Exact(cs, reg, kept, name)
  {
    ChainOfSets(CallsTo(s, id), [], s.vars[LOGS].v.val.cs);
    ReplaySyncs(events, s.vars[LOGS].v.val.cs);
  }

  /** From files to loggers: any sequence of loads that succeed, with "logs" empty at the start and only the
      listener's own calls counting, and however the program fetches loggers meanwhile, leaves the registry in
      line with the loggers that the files ask for. */
  lemma LoggersFollowFiles(c: CL.Env<Setting>, y: Yaml, r: CL.Registry<Setting>, ty: nat, id: nat, files: seq<Node>,
                           events: seq<Event>)
    requires LogsEnv(c, y, ty, id) && r.ok && LoadFiles(c, r, files).ok
    requires forall i :: 0 <= i < |files| ==> WellKeyed(files[i])
    requires LOGS in r.vars && r.vars[LOGS].ty == ty && r.vars[LOGS].v.val == Loggers([])
    requires CV.Ascending(r.vars[LOGS].v.cbs) && id in r.vars[LOGS].v.cbs && CallsTo(r, id) == []
    requires Following(LoadFiles(c, r, files), ty, id) ==> ChangesOf(events) == Sets(CallsTo(LoadFiles(c, r, files), id))
    ensures Following(LoadFiles(c, r, files), ty, id)
    ensures AskedFor(y, files) == Some(LoadFiles(c, r, files).vars[LOGS].v.val.cs)
    ensures var cs := AskedFor(y, files).value;
      var reg, kept := Replay(InitialRegistry(), events), RootUntouched(ChangesOf(events));
      Follows(cs, reg, kept) && forall name :: Fetch(name) !in events ==> Exact(cs, reg, kept, name)
  {
    FollowingFiles(c, y, r, ty, id, files);
    HeldIsAskedFor(c, y, r, ty, id, files);
    FollowingMeansFollows(LoadFiles(c, r, files), ty, id, events);
  }
}
