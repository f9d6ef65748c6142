/** `ConfigVarManager`: the typed registry, and loading a tree into it. */
module ConfigLoad {
  import opened ConfigTree
  import opened Options
  import CV = ConfigVars

  /** A registered variable with its type. */
  datatype Slot<V> = Slot(ty: nat, v: CV.Var<V>)

  /** What a load relies on: a tree to text, text to a value of a given type, and which listeners of the named
      variable throw when they are shown a change. */
  datatype Env<!V> = Env(
    emit: Node -> string, parse: (nat, string) -> Option<V>, throws: (string, V, V) -> set<nat>)

  /** `ok` is false once an invalid key, a failed conversion or a listener has thrown. */
  datatype Registry<V> = Registry(vars: map<string, Slot<V>>, ok: bool)

  predicate RegularChar(c: char) { 'a' <= c <= 'z' || '0' <= c <= '9' || c == '.' || c == '_' }

  predicate Regular(name: string) { forall i :: 0 <= i < |name| ==> RegularChar(name[i]) }

  /** The value a node gives to a variable of type `ty`. */
  function Converted<V>(c: Env<V>, ty: nat, node: Node): Option<V> {
    c.parse(ty, if node.Scalar? then node.text else c.emit(node))
  }

  /** Some listener throws when the variable is to change from its value to `x`. */
  predicate Refuses<V(==)>(c: Env<V>, name: string, cbs: seq<nat>, from: V, x: V) {
    x != from && CV.Throws(cbs, c.throws(name, from, x))
  }

  /** `SetValue` on a registered variable. */
  function SetSlot<V(==)>(c: Env<V>, name: string, slot: Slot<V>, x: V): Slot<V> {
    slot.(v := CV.AfterSet(slot.v, x, c.throws(name, slot.v.val, x)))
  }

  /** One pass of the loop in LoadFromYaml. */
  function LoadOne<V(==)>(c: Env<V>, r: Registry<V>, entry: Named): Registry<V> {
    var key := Lower(entry.name);
    if !r.ok || key == "" then r
    else if !Regular(key) then r.(ok := false)
    else if key !in r.vars then r
    else
      var slot := r.vars[key];
      match Converted(c, slot.ty, entry.node)
      case None => r.(ok := false)
      case Some(x) =>
        Registry(r.vars[key := SetSlot(c, key, slot, x)], !Refuses(c, key, slot.v.cbs, slot.v.val, x))
  }

  function LoadAll<V(==)>(c: Env<V>, r: Registry<V>, list: seq<Named>): Registry<V> {
    if list == [] then r else LoadOne(c, LoadAll(c, r, list[..|list| - 1]), list[|list| - 1])
  }

  function Load<V(==)>(c: Env<V>, r: Registry<V>, node: Node): Registry<V> { LoadAll(c, r, Flatten("", node)) }

  // ----- the manager as it is written

  /** A shared pointer to a variable, and the variable's type. */
  datatype Shared<V(==)> = Shared(ty: nat, ptr: CV.ConfigVar<V>)

  datatype LookUpResult<V(==)> = Found(e: Shared<V>) | TypeMismatch(actual: nat) | InvalidName

  class ConfigVarManager<V(==)> {
    var m_datas: map<string, Shared<V>>

    ghost function Repr(): set<CV.ConfigVar<V>>
      reads this
    {
      set name | name in m_datas :: m_datas[name].ptr
    }

    /** Only names made of regular letters are registered, each with a variable of its own. */
    ghost predicate Valid()
      reads this
    {
      && (forall name :: name in m_datas ==> Regular(name))
      && (forall a, b :: a in m_datas && b in m_datas && m_datas[a].ptr == m_datas[b].ptr ==> a == b)
    }

    ghost function State(): map<string, Slot<V>>
      reads this, Repr()
    {
      map name | name in m_datas :: Slot(m_datas[name].ty, m_datas[name].ptr.State())
    }

    constructor ()
      ensures Valid() && m_datas == map[]
    {
      m_datas := map[];
    }

    /** An existing variable is found if the type is right; a new one is registered under a regular name. */
    method LookUp(name: string, ty: nat, default: V, counter: CV.KeyCounter) returns (r: LookUpResult<V>)
      requires Valid()
      modifies this
      ensures Valid()
      ensures name in old(m_datas) ==>
        m_datas == old(m_datas)
        && r == if m_datas[name].ty == ty then Found(m_datas[name]) else TypeMismatch(m_datas[name].ty)
      ensures name !in old(m_datas) && !Regular(name) ==> m_datas == old(m_datas) && r == InvalidName
      ensures name !in old(m_datas) && Regular(name) ==>
        && name in m_datas && m_datas == old(m_datas)[name := m_datas[name]] && r == Found(m_datas[name])
        && fresh(m_datas[name].ptr) && m_datas[name].ptr.State() == CV.Var(default, [], [])
        && m_datas[name].ty == ty && m_datas[name].ptr.keys == counter
    {
      if name in m_datas {
        var e := m_datas[name];
        if e.ty != ty {
          return TypeMismatch(e.ty);
        }
        return Found(e);
      }
      if !Regular(name) {
        return InvalidName;
      }
      var ptr := new CV.ConfigVar(default, counter);
      m_datas := m_datas[name := Shared(ty, ptr)];
      r := Found(m_datas[name]);
    }

    method LoadFromYaml(c: Env<V>, node: Node) returns (ok: bool)
      requires Valid()
      modifies Repr()
      ensures Valid() && m_datas == old(m_datas)
      ensures Registry(State(), ok) == Load(c, Registry(old(State()), true), node)
    {
      var output := new Output();
      ParseAllNodes("", node, output);
      assert output.items == Flatten("", node);
      ok := LoadNamed(c, output.items);
    }

    /** The loop over the flattened tree. */
    method LoadNamed(c: Env<V>, list: seq<Named>) returns (ok: bool)
      requires Valid()
      modifies Repr()
      ensures m_datas == old(m_datas)
      ensures Registry(State(), ok) == LoadAll(c, Registry(old(State()), true), list)
    {
      ghost var r := Registry(State(), true);
      var i := 0;
      while i < |list|
        invariant 0 <= i <= |list| && m_datas == old(m_datas)
        invariant Registry(State(), true) == LoadAll(c, r, list[..i])
      {
        LoadNext(c, r, list, i);
        ok := LoadEntry(c, list[i]);
        i := i + 1;
        if !ok {
          LoadStops(c, r, list, i);
          return;
        }
      }
      assert list[..i] == list;
      ok := true;
    }

    /** The body of the loop; `ok` is false if it throws. */
    method LoadEntry(c: Env<V>, entry: Named) returns (ok: bool)
      requires Valid()
      modifies Repr()
      ensures m_datas == old(m_datas)
      ensures Registry(State(), ok) == LoadOne(c, Registry(old(State()), true), entry)
    {
      if entry.name == "" {
        return true;
      }
      var key := Lower(entry.name);
      if !Regular(key) {
        return false;
      }
      if key !in m_datas {
        return true;
      }
      match Converted(c, m_datas[key].ty, entry.node) {
        case None => ok := false;
        case Some(x) => ok := SetRegistered(c, key, x);
      }
    }

    /** `SetValue` through the registry's pointer: only this variable changes. */
    method SetRegistered(c: Env<V>, key: string, x: V) returns (ok: bool)
      requires Valid() && key in m_datas
      modifies m_datas[key].ptr
      ensures State() == old(State())[key := SetSlot(c, key, old(State())[key], x)]
      ensures ok <==> !Refuses(c, key, old(State())[key].v.cbs, old(State())[key].v.val, x)
    {
      var ptr := m_datas[key].ptr;
      ok := ptr.SetValue(x, c.throws(key, ptr.m_val, x));
    }
  }

  lemma LoadNext<V>(c: Env<V>, r: Registry<V>, list: seq<Named>, i: nat)
    requires i < |list|
    ensures LoadAll(c, r, list[..i + 1]) == LoadOne(c, LoadAll(c, r, list[..i]), list[i])
  {
    assert list[..i + 1][..i] == list[..i];
  }

  // ----- failure

  /** Once an entry has failed, the rest of the list is not looked at. */
  lemma {:induction false} LoadStops<V>(c: Env<V>, r: Registry<V>, list: seq<Named>, i: nat)
    requires i <= |list| && !LoadAll(c, r, list[..i]).ok
    ensures LoadAll(c, r, list) == LoadAll(c, r, list[..i])
    decreases |list|
  {
    if i == |list| {
      assert list[..i] == list;
    } else {
      assert list[..|list| - 1][..i] == list[..i];
      LoadStops(c, r, list[..|list| - 1], i);
    }
  }

  /** The value that the first entries of a list give to a variable: that of the last one with its name. */
  function ValueAfter<V(==)>(c: Env<V>, r: Registry<V>, list: seq<Named>, name: string): V
    requires name in r.vars
  {
    var m := Matches(list, name);
    if m == [] then r.vars[name].v.val
    else match Converted(c, r.vars[name].ty, m[|m| - 1]) case Some(x) => x case None => r.vars[name].v.val
  }

  /** A listener refuses the change that entry i asks for, after the entries before it. */
  predicate RefusedAt<V(==)>(c: Env<V>, r: Registry<V>, list: seq<Named>, i: nat)
    requires i < |list|
  {
    var key := Lower(list[i].name);
    key != "" && Regular(key) && key in r.vars &&
    match Converted(c, r.vars[key].ty, list[i].node)
    case None => false
    case Some(x) => Refuses(c, key, r.vars[key].v.cbs, ValueAfter(c, r, list[..i], key), x)
  }

  /** Entry i throws: an irregular key, or a registered one whose conversion fails or whose listeners refuse.
      All of this is judged from the registry before the load. */
  predicate BadAt<V(==)>(c: Env<V>, r: Registry<V>, list: seq<Named>, i: nat)
    requires i < |list|
  {
    var key := Lower(list[i].name);
    || (key != "" && !Regular(key))
    || (key != "" && key in r.vars && Converted(c, r.vars[key].ty, list[i].node).None?)
    || RefusedAt(c, r, list, i)
  }

  ghost predicate NoneBad<V>(c: Env<V>, r: Registry<V>, list: seq<Named>) {
    forall i :: 0 <= i < |list| ==> !BadAt(c, r, list, i)
  }

  lemma BadInFront<V>(c: Env<V>, r: Registry<V>, list: seq<Named>, n: nat)
    requires n <= |list|
    ensures NoneBad(c, r, list[..n]) <==> forall i :: 0 <= i < n ==> !BadAt(c, r, list, i)
  {
    assert forall i :: 0 <= i < n ==> list[..n][..i] == list[..i];
    assert forall i :: 0 <= i < n ==> (BadAt(c, r, list[..n], i) <==> BadAt(c, r, list, i));
  }

  /** The same variables with the same types and listeners. */
  ghost predicate SameShape<V(!new)>(a: Registry<V>, b: Registry<V>) {
    && a.vars.Keys == b.vars.Keys
    && forall name :: name in a.vars ==> a.vars[name].ty == b.vars[name].ty && a.vars[name].v.cbs == b.vars[name].v.cbs
  }

  lemma {:induction false} LoadKeepsShape<V(!new)>(c: Env<V>, r: Registry<V>, list: seq<Named>)
    ensures SameShape(r, LoadAll(c, r, list))
  {
    if list != [] { LoadKeepsShape(c, r, list[..|list| - 1]); }
  }

  /** What a list without bad entries does: it loads, and leaves the predicted values. */
  ghost predicate Predicted<V(!new)>(c: Env<V>, r: Registry<V>, list: seq<Named>) {
    var s := LoadAll(c, r, list);
    s.ok && SameShape(r, s) && forall name :: name in r.vars ==> s.vars[name].v.val == ValueAfter(c, r, list, name)
  }

  lemma MatchesSnoc(list: seq<Named>, name: string)
    requires list != []
    ensures var n := |list| - 1;
      Matches(list, name) ==
      Matches(list[..n], name) + (if list[n].name != "" && Lower(list[n].name) == name then [list[n].node] else [])
  {
  }

  lemma ValueNext<V>(c: Env<V>, r: Registry<V>, list: seq<Named>, i: nat, name: string)
    requires i < |list| && name in r.vars
    ensures ValueAfter(c, r, list[..i + 1], name) ==
      if list[i].name == "" || Lower(list[i].name) != name then ValueAfter(c, r, list[..i], name)
      else match Converted(c, r.vars[name].ty, list[i].node) case Some(x) => x case None => r.vars[name].v.val
  {
    assert list[..i + 1][..i] == list[..i];
    MatchesSnoc(list[..i + 1], name);
  }

  /** One entry that is not bad: the load goes on, and only the variable it names can change. */
  lemma GoodEntry<V>(c: Env<V>, r: Registry<V>, s: Registry<V>, list: seq<Named>, i: nat)
    requires s.ok && i < |list| && !BadAt(c, r, list, i)
    requires var key := Lower(list[i].name);
      (key in s.vars <==> key in r.vars) && (key in r.vars ==>
        s.vars[key].ty == r.vars[key].ty && s.vars[key].v.cbs == r.vars[key].v.cbs
        && s.vars[key].v.val == ValueAfter(c, r, list[..i], key))
    ensures var t, key := LoadOne(c, s, list[i]), Lower(list[i].name);
      && t.ok && (forall name :: name in s.vars && (key == "" || name != key) ==> name in t.vars && t.vars[name] == s.vars[name])
      && (key != "" && key in r.vars ==> key in t.vars && Converted(c, r.vars[key].ty, list[i].node) == Some(t.vars[key].v.val))
  {
  }

  lemma PredictedNext<V(!new)>(c: Env<V>, r: Registry<V>, list: seq<Named>, i: nat)
    requires i < |list| && Predicted(c, r, list[..i]) && !BadAt(c, r, list, i)
    ensures Predicted(c, r, list[..i + 1])
  {
    var s, t := LoadAll(c, r, list[..i]), LoadAll(c, r, list[..i + 1]);
    LoadNext(c, r, list, i);
    LoadKeepsShape(c, r, list[..i + 1]);
    GoodEntry(c, r, s, list, i);
    forall name | name in r.vars ensures t.vars[name].v.val == ValueAfter(c, r, list[..i + 1], name) {
      ValueNext(c, r, list, i, name);
    }
  }

  lemma {:induction false} GoodEntriesLoad<V(!new)>(c: Env<V>, r: Registry<V>, list: seq<Named>, n: nat)
    requires r.ok && n <= |list| && NoneBad(c, r, list[..n])
    ensures Predicted(c, r, list[..n])
    decreases n
  {
    if n == 0 {
      assert list[..n] == [];
    } else {
      BadInFront(c, r, list, n);
      BadInFront(c, r, list, n - 1);
      GoodEntriesLoad(c, r, list, n - 1);
      PredictedNext(c, r, list, n - 1);
    }
  }

  /** If entry i is the first bad one, exactly the entries before it are applied; if it is a listener that
      refuses, it and the listeners before it have been called. */
  lemma FailureAppliesPrefix<V(!new)>(c: Env<V>, r: Registry<V>, list: seq<Named>, i: nat)
    requires r.ok && i < |list| && NoneBad(c, r, list[..i]) && BadAt(c, r, list, i)
    ensures var s, t, key := LoadAll(c, r, list[..i]), LoadAll(c, r, list), Lower(list[i].name);
      && s.ok && !t.ok
      && (!RefusedAt(c, r, list, i) ==> t.vars == s.vars)
      && (RefusedAt(c, r, list, i) ==>
            var x := Converted(c, r.vars[key].ty, list[i].node).value;
            && key in s.vars && t.vars == s.vars[key := SetSlot(c, key, s.vars[key], x)]
            && t.vars[key].v.val == s.vars[key].v.val && |t.vars[key].v.calls| > |s.vars[key].v.calls|)
  {
    GoodEntriesLoad(c, r, list, i);
    LoadNext(c, r, list, i);
    LoadStops(c, r, list, i + 1);
    if RefusedAt(c, r, list, i) { RefusalShows(c, r, list, i); }
  }

  lemma RefusalShows<V(!new)>(c: Env<V>, r: Registry<V>, list: seq<Named>, i: nat)
    requires i < |list| && Predicted(c, r, list[..i]) && RefusedAt(c, r, list, i)
    ensures var s, key := LoadAll(c, r, list[..i]), Lower(list[i].name);
      key in s.vars && Converted(c, r.vars[key].ty, list[i].node).Some? &&
      var x := Converted(c, r.vars[key].ty, list[i].node).value;
      var slot := SetSlot(c, key, s.vars[key], x);
      && LoadOne(c, s, list[i]) == Registry(s.vars[key := slot], false)
      && slot.v.val == s.vars[key].v.val && |slot.v.calls| > |s.vars[key].v.calls|
  {
    var s, key := LoadAll(c, r, list[..i]), Lower(list[i].name);
    var x := Converted(c, r.vars[key].ty, list[i].node).value;
    var cbs := s.vars[key].v.cbs;
    var k := CV.Invoked(cbs, c.throws(key, s.vars[key].v.val, x));
    assert k > 0;
  }

  lemma {:induction false} FirstBad<V>(c: Env<V>, r: Registry<V>, list: seq<Named>, n: nat) returns (i: nat)
    requires n <= |list| && !NoneBad(c, r, list[..n])
    ensures i < n && NoneBad(c, r, list[..i]) && BadAt(c, r, list, i)
  {
    BadInFront(c, r, list, n);
    if NoneBad(c, r, list[..n - 1]) {
      i := n - 1;
      BadInFront(c, r, list, n - 1);
    } else {
      i := FirstBad(c, r, list, n - 1);
    }
  }

  /** A load succeeds exactly if no entry of the flattened tree is bad, judged before the load. */
  lemma LoadSucceedsIff<V(!new)>(c: Env<V>, r: Registry<V>, node: Node)
    requires r.ok
    ensures Load(c, r, node).ok <==> NoneBad(c, r, Flatten("", node))
  {
    var list := Flatten("", node);
    assert list[..|list|] == list;
    if NoneBad(c, r, list) {
      GoodEntriesLoad(c, r, list, |list|);
    } else {
      var i := FirstBad(c, r, list, |list|);
      FailureAppliesPrefix(c, r, list, i);
    }
  }

  // ----- what a load does to one variable

  /** The last node that matches a name decides its variable; without a match it stays as it was, with its
      history. */
  lemma {:induction false} LastMatchWins<V>(c: Env<V>, r: Registry<V>, list: seq<Named>, name: string)
    requires r.ok && name in r.vars && LoadAll(c, r, list).ok
    ensures var m := Matches(list, name);
      var s := LoadAll(c, r, list);
      && name in s.vars && s.vars[name].ty == r.vars[name].ty
      && (m == [] ==> s.vars[name] == r.vars[name])
      && (m != [] ==> Converted(c, r.vars[name].ty, m[|m| - 1]) == Some(s.vars[name].v.val))
  {
    if list != [] {
      LastMatchWins(c, r, list[..|list| - 1], name);
      MatchesSnoc(list, name);
    }
  }

  lemma EmptyNameUnreachable(node: Node)
    requires WellKeyed(node)
    ensures Navigate(node, Split("")) == []
  {
    if node.Map? { NoChild(node.entries, ""); }
  }

  lemma {:induction false} EmptyNameUnmatched(list: seq<Named>)
    ensures Matches(list, "") == []
  {
    if list != [] { EmptyNameUnmatched(list[..|list| - 1]); }
  }

  lemma MatchesAreNavigation(node: Node, name: string)
    requires WellKeyed(node)
    ensures Matches(Flatten("", node), name) == Navigate(node, Split(name))
  {
    if name == "" {
      EmptyNameUnreachable(node);
      EmptyNameUnmatched(Flatten("", node));
    } else {
      FlattenIsNavigation("", node, name);
    }
  }

  /** Loading a tree sets each registered variable to the converted node that its name, split at the dots,
      leads to, and leaves it alone if there is no such node. */
  lemma LoadIsNavigation<V>(c: Env<V>, r: Registry<V>, node: Node, name: string)
    requires r.ok && WellKeyed(node) && name in r.vars && Load(c, r, node).ok
    ensures var found := Navigate(node, Split(name));
      var s := Load(c, r, node);
      && name in s.vars && |found| <= 1
      && (found == [] ==> s.vars[name] == r.vars[name])
      && (found != [] ==> Converted(c, r.vars[name].ty, found[0]) == Some(s.vars[name].v.val))
  {
    MatchesAreNavigation(node, name);
    NavigateAtMostOne(node, Split(name));
    LastMatchWins(c, r, Flatten("", node), name);
  }

  lemma {:induction false} NavigateAtMostOne(node: Node, path: seq<string>)
    ensures |Navigate(node, path)| <= 1
    decreases |path|
  {
    if path != [] && node.Map? {
      var child := Child(node.entries, path[0]);
      if child != [] { NavigateAtMostOne(child[0], path[1..]); }
    }
  }

  /** A load that succeeds keeps the history of every listener it calls, and of the others: the changes shown
      lead to the current value afterwards exactly if they did before. */
  lemma {:induction false} LoadKeepsHistory<V(!new)>(c: Env<V>, r: Registry<V>, list: seq<Named>, name: string, id: nat, from: V)
    requires r.ok && name in r.vars && LoadAll(c, r, list).ok
    requires CV.Ascending(r.vars[name].v.cbs) && id in r.vars[name].v.cbs
    ensures var v, s := r.vars[name].v, LoadAll(c, r, list);
      name in s.vars &&
      (CV.IsChain(CV.CallsOf(s.vars[name].v.calls, id), from, s.vars[name].v.val) <==>
       CV.IsChain(CV.CallsOf(v.calls, id), from, v.val))
  {
    if list != [] {
      var n := |list| - 1;
      LoadKeepsHistory(c, r, list[..n], name, id, from);
      LoadKeepsShape(c, r, list[..n]);
      OneKeepsHistory(c, LoadAll(c, r, list[..n]), list[n], name, id, from);
    }
  }

  lemma OneKeepsHistory<V(!new)>(c: Env<V>, r: Registry<V>, entry: Named, name: string, id: nat, from: V)
    requires r.ok && name in r.vars && LoadOne(c, r, entry).ok
    requires CV.Ascending(r.vars[name].v.cbs) && id in r.vars[name].v.cbs
    ensures var v, w := r.vars[name].v, LoadOne(c, r, entry).vars[name].v;
      CV.IsChain(CV.CallsOf(w.calls, id), from, w.val) <==> CV.IsChain(CV.CallsOf(v.calls, id), from, v.val)
  {
    if Lower(entry.name) == name && entry.name != "" && Regular(name) {
      var v := r.vars[name].v;
      var x := Converted(c, r.vars[name].ty, entry.node).value;
      CV.ChainStep(v, CV.Set(0, x, c.throws(name, v.val, x)), id, from);
    }
  }

  // ----- loading the same tree again

  lemma {:induction false} TwoMatches(list: seq<Named>, i: nat, j: nat)
    requires i < j < |list| && list[i].name != "" && Lower(list[i].name) == Lower(list[j].name)
    ensures |Matches(list, Lower(list[i].name))| >= 2
  {
    var name := Lower(list[i].name);
    var a, b := list[..i + 1], list[i + 1..];
    assert list == a + b;
    MatchesAppend(a, b, name);
    assert |Matches(a, name)| >= 1;
    OneMatch(b, j - i - 1);
  }

  lemma {:induction false} OneMatch(list: seq<Named>, j: nat)
    requires j < |list| && list[j].name != ""
    ensures |Matches(list, Lower(list[j].name))| >= 1
  {
    if j < |list| - 1 { OneMatch(list[..|list| - 1], j); }
  }

  ghost predicate DistinctNames(list: seq<Named>) {
    forall i, j :: 0 <= i < j < |list| && list[i].name != "" ==> Lower(list[i].name) != Lower(list[j].name)
  }

  lemma FlattenDistinct(node: Node)
    requires WellKeyed(node)
    ensures DistinctNames(Flatten("", node))
  {
    var list := Flatten("", node);
    forall i, j | 0 <= i < j < |list| && list[i].name != ""
      ensures Lower(list[i].name) != Lower(list[j].name)
    {
      var name := Lower(list[i].name);
      MatchesAreNavigation(node, name);
      NavigateAtMostOne(node, Split(name));
      if Lower(list[j].name) == name { TwoMatches(list, i, j); }
    }
  }

  /** A variable keeps what entry k gave it if no later entry has its name. */
  lemma {:induction false} LaterUntouched<V>(c: Env<V>, r: Registry<V>, list: seq<Named>, k: nat, name: string)
    requires k <= |list| && forall j :: k <= j < |list| ==> Lower(list[j].name) != name
    ensures name in LoadAll(c, r, list[..k]).vars ==>
      name in LoadAll(c, r, list).vars && LoadAll(c, r, list).vars[name] == LoadAll(c, r, list[..k]).vars[name]
    decreases |list|
  {
    if k < |list| {
      assert list[..|list| - 1][..k] == list[..k];
      LaterUntouched(c, r, list[..|list| - 1], k, name);
    } else {
      assert list[..k] == list;
    }
  }

  /** As far as a first pass succeeded, a second pass changes nothing and calls nobody. */
  lemma {:induction false} SecondPass<V(!new)>(c: Env<V>, r: Registry<V>, list: seq<Named>, k: nat)
    requires r.ok && DistinctNames(list) && k <= |list| && LoadAll(c, r, list[..k]).ok
    ensures var s := LoadAll(c, r, list).(ok := true); LoadAll(c, s, list[..k]) == s
    decreases k
  {
    if k > 0 {
      LoadNext(c, r, list, k - 1);
      SecondPass(c, r, list, k - 1);
      var s := LoadAll(c, r, list).(ok := true);
      LoadNext(c, s, list, k - 1);
      SecondTime(c, r, list, k - 1);
    }
  }

  lemma NothingToDo<V>(c: Env<V>, s: Registry<V>, entry: Named)
    requires var key := Lower(entry.name);
      && s.ok && (key != "" ==> Regular(key))
      && (key != "" && key in s.vars ==> Converted(c, s.vars[key].ty, entry.node) == Some(s.vars[key].v.val))
    ensures LoadOne(c, s, entry) == s
  {
    var key := Lower(entry.name);
    if key in s.vars { assert s.vars[key := s.vars[key]] == s.vars; }
  }

  lemma WasApplied<V>(c: Env<V>, r: Registry<V>, entry: Named)
    requires r.ok && LoadOne(c, r, entry).ok && Lower(entry.name) != ""
    ensures var t, key := LoadOne(c, r, entry), Lower(entry.name);
      && Regular(key)
      && (key in r.vars ==>
            key in t.vars && t.vars[key].ty == r.vars[key].ty
            && Converted(c, r.vars[key].ty, entry.node) == Some(t.vars[key].v.val))
  {
  }

  /** Entry i, applied again at the end, has nothing left to do. */
  lemma SecondTime<V(!new)>(c: Env<V>, r: Registry<V>, list: seq<Named>, i: nat)
    requires r.ok && DistinctNames(list) && i < |list| && LoadAll(c, r, list[..i + 1]).ok
    ensures var s := LoadAll(c, r, list).(ok := true); LoadOne(c, s, list[i]) == s
  {
    var s, key := LoadAll(c, r, list).(ok := true), Lower(list[i].name);
    LoadNext(c, r, list, i);
    LoadKeepsShape(c, r, list[..i]);
    LoadKeepsShape(c, r, list);
    if key != "" {
      WasApplied(c, LoadAll(c, r, list[..i]), list[i]);
      LaterUntouched(c, r, list, i + 1, key);
    }
    NothingToDo(c, s, list[i]);
  }

  ghost predicate SameValues<V(!new)>(a: Registry<V>, b: Registry<V>) {
    a.ok == b.ok && SameShape(a, b) && forall name :: name in a.vars ==> a.vars[name].v.val == b.vars[name].v.val
  }

  /** The load stops at a listener that refuses a change. */
  ghost predicate StoppedByListener<V>(c: Env<V>, r: Registry<V>, list: seq<Named>) {
    exists i :: 0 <= i < |list| && NoneBad(c, r, list[..i]) && RefusedAt(c, r, list, i)
  }

  /** A second pass over a list whose entry i was the first bad one. */
  lemma SecondFailure<V(!new)>(c: Env<V>, r: Registry<V>, list: seq<Named>, i: nat)
    requires r.ok && DistinctNames(list) && i < |list| && NoneBad(c, r, list[..i]) && BadAt(c, r, list, i)
    ensures var s := LoadAll(c, r, list);
      var t := LoadAll(c, s.(ok := true), list);
      SameValues(t, s) && (t == s <==> !RefusedAt(c, r, list, i))
  {
    var s := LoadAll(c, r, list);
    var again := s.(ok := true);
    FailureAppliesPrefix(c, r, list, i);
    SecondPass(c, r, list, i);
    LoadNext(c, again, list, i);
    LoadKeepsShape(c, r, list);
    LoadKeepsShape(c, r, list[..i]);
    GoodEntriesLoad(c, r, list, i);
    var key := Lower(list[i].name);
    if RefusedAt(c, r, list, i) {
      var x := Converted(c, r.vars[key].ty, list[i].node).value;
      assert Refuses(c, key, again.vars[key].v.cbs, again.vars[key].v.val, x);
      RefusedAgain(c, again, list[i]);
    }
    LoadStops(c, again, list, i + 1);
  }

  lemma RefusedAgain<V(!new)>(c: Env<V>, r: Registry<V>, entry: Named)
    requires var key := Lower(entry.name);
      && r.ok && key != "" && Regular(key) && key in r.vars && Converted(c, r.vars[key].ty, entry.node).Some?
      && Refuses(c, key, r.vars[key].v.cbs, r.vars[key].v.val, Converted(c, r.vars[key].ty, entry.node).value)
    ensures var s := LoadOne(c, r, entry);
      !s.ok && SameValues(s, r.(ok := false)) && s.vars != r.vars
  {
    var key := Lower(entry.name);
    var x := Converted(c, r.vars[key].ty, entry.node).value;
    var k := CV.Invoked(r.vars[key].v.cbs, c.throws(key, r.vars[key].v.val, x));
    assert k > 0;
    assert |SetSlot(c, key, r.vars[key], x).v.calls| == |r.vars[key].v.calls| + k;
  }

  /** Loading the same tree a second time changes no variable and fails where the first load did; and it calls
      no listener exactly if the first load was not stopped by one. */
  lemma ReloadIsIdempotent<V(!new)>(c: Env<V>, r: Registry<V>, node: Node)
    requires r.ok && WellKeyed(node)
    ensures var s := Load(c, r, node);
      var t := Load(c, s.(ok := true), node);
      SameValues(t, s) && (t == s <==> !StoppedByListener(c, r, Flatten("", node)))
  {
    FlattenDistinct(node);
    var list := Flatten("", node);
    assert list[..|list|] == list;
    LoadSucceedsIff(c, r, node);
    if NoneBad(c, r, list) {
      SecondPass(c, r, list, |list|);
      NotStopped(c, r, list);
    } else {
      var i := FirstBad(c, r, list, |list|);
      SecondFailure(c, r, list, i);
      OnlyFirstBad(c, r, list, i);
    }
  }

  lemma NotStopped<V>(c: Env<V>, r: Registry<V>, list: seq<Named>)
    requires NoneBad(c, r, list)
    ensures !StoppedByListener(c, r, list)
  {
    forall i | 0 <= i < |list| ensures !RefusedAt(c, r, list, i) { assert !BadAt(c, r, list, i); }
  }

  lemma OnlyFirstBad<V>(c: Env<V>, r: Registry<V>, list: seq<Named>, i: nat)
    requires i < |list| && NoneBad(c, r, list[..i]) && BadAt(c, r, list, i)
    ensures StoppedByListener(c, r, list) <==> RefusedAt(c, r, list, i)
  {
    forall j | 0 <= j < |list| && NoneBad(c, r, list[..j]) && BadAt(c, r, list, j) ensures j == i {
      BadInFront(c, r, list, i);
      BadInFront(c, r, list, j);
    }
  }
}
