/** `ConfigVar`: a value, its listeners in an ordered map, and the key counter that all variables of one type
    share. */
module ConfigVars {

  /** One invocation of the callback with key `id`. */
  datatype Call<T> = Call(id: nat, before: T, after: T)

  /** A variable: `cbs` are the keys of the listener map in the map's order, `calls` is the history of the
      callbacks invoked. */
  datatype Var<T> = Var(val: T, cbs: seq<nat>, calls: seq<Call<T>>)

  ghost predicate Ascending(s: seq<nat>) { forall i, j :: 0 <= i < j < |s| ==> s[i] < s[j] }

  /** How many callbacks a change invokes: all, or those up to the first that throws. */
  function Invoked(cbs: seq<nat>, throwing: set<nat>): (k: nat)
    ensures k <= |cbs|
    ensures forall i :: 0 <= i < k - 1 ==> cbs[i] !in throwing
    ensures k < |cbs| ==> k > 0 && cbs[k - 1] in throwing
  {
    if cbs == [] then 0 else if cbs[0] in throwing then 1 else
      var k := Invoked(cbs[1..], throwing);
      assert forall i :: 0 <= i < |cbs[1..]| ==> cbs[1..][i] == cbs[i + 1];
      k + 1
  }

  predicate Throws(cbs: seq<nat>, throwing: set<nat>) { exists i :: 0 <= i < |cbs| && cbs[i] in throwing }

  function CallsFor<T>(ids: seq<nat>, before: T, after: T): seq<Call<T>> {
    seq(|ids|, i requires 0 <= i < |ids| => Call(ids[i], before, after))
  }

  /** `SetValue`: nothing for an equal value; otherwise the callbacks in key order, and the new value only if
      none of them throws. */
  function AfterSet<T(==)>(v: Var<T>, x: T, throwing: set<nat>): Var<T> {
    if x == v.val then v
    else
      v.(calls := v.calls + CallsFor(v.cbs[..Invoked(v.cbs, throwing)], v.val, x),
         val := if Throws(v.cbs, throwing) then v.val else x)
  }

  function Without(s: seq<nat>, id: nat): seq<nat> {
    if s == [] then [] else (if s[0] == id then [] else [s[0]]) + Without(s[1..], id)
  }

  class KeyCounter {
    var monotone_key: nat
    constructor () ensures monotone_key == 0 { monotone_key := 0; }
  }

  class ConfigVar<T(==)> {
    var m_val: T
    var m_cbs: seq<nat>
    ghost var calls: seq<Call<T>>
    const keys: KeyCounter

    ghost function State(): Var<T>
      reads this
    {
      Var(m_val, m_cbs, calls)
    }

    constructor (default: T, counter: KeyCounter)
      ensures State() == Var(default, [], []) && keys == counter
    {
      m_val, m_cbs, calls, keys := default, [], [], counter;
    }

    /** `throwing` are the listeners whose callback throws in this call; `ok` is false if one did. */
    method SetValue(val: T, throwing: set<nat>) returns (ok: bool)
      modifies this
      ensures State() == AfterSet(old(State()), val, throwing)
      ensures ok <==> val == old(m_val) || !Throws(old(m_cbs), throwing)
    {
      ok := true;
      if val == m_val {
        return;
      }
      var i := 0;
      while i < |m_cbs|
        invariant 0 <= i <= |m_cbs|
        invariant m_val == old(m_val) && m_cbs == old(m_cbs)
        invariant calls == old(calls) + CallsFor(m_cbs[..i], m_val, val)
        invariant forall k :: 0 <= k < i ==> m_cbs[k] !in throwing
      {
        calls := calls + [Call(m_cbs[i], m_val, val)];
        assert CallsFor(m_cbs[..i + 1], m_val, val) == CallsFor(m_cbs[..i], m_val, val) + [Call(m_cbs[i], m_val, val)];
        if m_cbs[i] in throwing {
          assert Invoked(m_cbs, throwing) == i + 1;
          return false;
        }
        i := i + 1;
      }
      m_val := val;
    }

    method AddListener(isNull: bool) returns (key: nat)
      modifies this, keys
      ensures isNull ==> key == 0 && State() == old(State()) && keys.monotone_key == old(keys.monotone_key)
      ensures !isNull ==> key == keys.monotone_key == old(keys.monotone_key) + 1
      ensures !isNull ==> State() == old(State()).(cbs := old(m_cbs) + [key])
    {
      if isNull {
        return 0;
      }
      keys.monotone_key := keys.monotone_key + 1;
      key := keys.monotone_key;
      m_cbs := m_cbs + [key];
    }

    method DelListener(key: nat)
      modifies this
      ensures State() == old(State()).(cbs := Without(old(m_cbs), key))
    {
      m_cbs := Without(m_cbs, key);
    }

    method ClearListener()
      modifies this
      ensures State() == old(State()).(cbs := [])
    {
      m_cbs := [];
    }
  }

  // ----- all variables of one type, over any sequence of operations

  datatype Store<T> = Store(vars: seq<Var<T>>, key: nat)

  datatype Op<T> =
    | Set(j: nat, x: T, throwing: set<nat>)
    | Listen(j: nat)
    | Unlisten(j: nat, id: nat)
    | Clear(j: nat)

  function Apply<T(==)>(s: Store<T>, op: Op<T>): Store<T> {
    if op.j >= |s.vars| then s
    else
      var v := s.vars[op.j];
      match op
      case Set(j, x, throwing) => s.(vars := s.vars[j := AfterSet(v, x, throwing)])
      case Listen(j) => Store(s.vars[j := v.(cbs := v.cbs + [s.key + 1])], s.key + 1)
      case Unlisten(j, id) => s.(vars := s.vars[j := v.(cbs := Without(v.cbs, id))])
      case Clear(j) => s.(vars := s.vars[j := v.(cbs := [])])
  }

  function RunOps<T(==)>(s: Store<T>, ops: seq<Op<T>>): Store<T> {
    if ops == [] then s else Apply(RunOps(s, ops[..|ops| - 1]), ops[|ops| - 1])
  }

  // ----- keys

  /** Keys are positive, within the counter, in registration order, and belong to one variable each. */
  ghost predicate KeysInv<T>(s: Store<T>) {
    && (forall j :: 0 <= j < |s.vars| ==> Ascending(s.vars[j].cbs))
    && (forall j, id :: 0 <= j < |s.vars| && id in s.vars[j].cbs ==> 0 < id <= s.key)
    && (forall i, j, id :: 0 <= i < j < |s.vars| && id in s.vars[i].cbs ==> id !in s.vars[j].cbs)
  }

  lemma {:induction false} WithoutRemoves(s: seq<nat>, id: nat)
    requires Ascending(s)
    ensures Ascending(Without(s, id)) && id !in Without(s, id)
    ensures forall x :: x != id ==> (x in Without(s, id) <==> x in s)
    ensures id !in s ==> Without(s, id) == s
  {
    if s != [] {
      var rest := s[1..];
      var w := Without(rest, id);
      assert Ascending(rest);
      WithoutRemoves(rest, id);
      assert s == [s[0]] + rest;
      forall i | 0 <= i < |w| ensures s[0] < w[i] {
        assert w[i] in rest;
      }
      if s[0] == id { assert id !in rest; }
    }
  }

  /** Replacing one variable's keys by some of them, or by them and a new one. */
  lemma KeysReplace<T>(s: Store<T>, j: nat, v: Var<T>, key: nat)
    requires KeysInv(s) && j < |s.vars| && Ascending(v.cbs) && s.key <= key
    requires forall id :: id in v.cbs ==> id in s.vars[j].cbs || s.key < id <= key
    ensures KeysInv(s.(vars := s.vars[j := v], key := key))
  {
  }

  lemma KeysStep<T>(s: Store<T>, op: Op<T>)
    requires KeysInv(s)
    ensures KeysInv(Apply(s, op)) && s.key <= Apply(s, op).key
  {
    if op.j < |s.vars| {
      var v, t := s.vars[op.j], Apply(s, op);
      if op.Listen? { assert forall i :: 0 <= i < |v.cbs| ==> v.cbs[i] in v.cbs; }
      if op.Unlisten? { WithoutRemoves(v.cbs, op.id); }
      KeysReplace(s, op.j, t.vars[op.j], t.key);
    }
  }

  lemma {:induction false} KeysRun<T>(s: Store<T>, ops: seq<Op<T>>)
    requires KeysInv(s)
    ensures KeysInv(RunOps(s, ops)) && s.key <= RunOps(s, ops).key
  {
    if ops != [] {
      KeysRun(s, ops[..|ops| - 1]);
      KeysStep(RunOps(s, ops[..|ops| - 1]), ops[|ops| - 1]);
    }
  }

  /** A key is never handed out twice, and deleting it touches only the variable it was handed out for. */
  lemma KeysAreUnique<T>(s: Store<T>, j: nat, ops: seq<Op<T>>, i: nat)
    requires KeysInv(s) && j < |s.vars|
    ensures var id := Apply(s, Listen(j)).key;
      var t := RunOps(Apply(s, Listen(j)), ops);
      && 0 < id
      && (i < |t.vars| ==> Apply(t, Listen(i)).key > id)
      && (i < |t.vars| && i != j ==> Apply(t, Unlisten(i, id)) == t)
      && (i < |t.vars| && id in t.vars[i].cbs ==> i == j)
  {
    var u := Apply(s, Listen(j));
    KeysStep(s, Listen(j));
    KeysRun(u, ops);
    OwnerKept(u, ops, j, u.key);
    var t := RunOps(u, ops);
    if i < |t.vars| && i != j {
      WithoutRemoves(t.vars[i].cbs, u.key);
      assert t.vars[i := t.vars[i].(cbs := t.vars[i].cbs)] == t.vars;
    }
  }

  /** Once handed out for variable j, a key never turns up in another variable. */
  lemma {:induction false} OwnerKept<T>(s: Store<T>, ops: seq<Op<T>>, j: nat, id: nat)
    requires KeysInv(s) && j < |s.vars| && id <= s.key
    requires forall i :: 0 <= i < |s.vars| && i != j ==> id !in s.vars[i].cbs
    ensures |RunOps(s, ops).vars| == |s.vars|
    ensures forall i :: 0 <= i < |s.vars| && i != j ==> id !in RunOps(s, ops).vars[i].cbs
  {
    if ops != [] {
      var front, op := ops[..|ops| - 1], ops[|ops| - 1];
      OwnerKept(s, front, j, id);
      KeysRun(s, front);
      var t := RunOps(s, front);
      if op.Unlisten? && op.j < |t.vars| { WithoutRemoves(t.vars[op.j].cbs, op.id); }
    }
  }

  // ----- what a listener sees

  /** The calls of one listener. */
  function CallsOf<T>(calls: seq<Call<T>>, id: nat): seq<Call<T>> {
    if calls == [] then []
    else CallsOf(calls[..|calls| - 1], id) + if calls[|calls| - 1].id == id then [calls[|calls| - 1]] else []
  }

  /** The calls lead from one value to another without gap, and each is a real change. */
  ghost predicate IsChain<T>(h: seq<Call<T>>, from: T, to: T) {
    if h == [] then from == to
    else
      var last := h[|h| - 1];
      last.after == to && last.before != last.after && IsChain(h[..|h| - 1], from, last.before)
  }

  lemma {:induction false} CallsOfAppend<T>(a: seq<Call<T>>, b: seq<Call<T>>, id: nat)
    ensures CallsOf(a + b, id) == CallsOf(a, id) + CallsOf(b, id)
  {
    if b == [] {
      assert a + b == a;
    } else {
      CallsOfAppend(a, b[..|b| - 1], id);
      assert (a + b)[..|a + b| - 1] == a + b[..|b| - 1];
    }
  }

  /** In one change each listener is called at most once. */
  lemma {:induction false} CalledOnce<T>(ids: seq<nat>, before: T, after: T, id: nat)
    requires Ascending(ids)
    ensures CallsOf(CallsFor(ids, before, after), id) == if id in ids then [Call(id, before, after)] else []
  {
    if ids != [] {
      var front := ids[..|ids| - 1];
      CalledOnce(front, before, after, id);
      var calls := CallsFor(ids, before, after);
      assert calls[..|calls| - 1] == CallsFor(front, before, after);
      assert ids == front + [ids[|ids| - 1]];
    }
  }

  /** How many callbacks are invoked, and whether the last one threw. */
  lemma InvokedAll(cbs: seq<nat>, throwing: set<nat>)
    ensures var n := Invoked(cbs, throwing);
      if Throws(cbs, throwing) then n > 0 && cbs[n - 1] in throwing else n == |cbs|
  {
    var n := Invoked(cbs, throwing);
    if Throws(cbs, throwing) {
      var i :| 0 <= i < |cbs| && cbs[i] in throwing;
      assert n == |cbs| ==> i == n - 1;
    }
  }

  /** A change calls the registered listeners in registration order with the old and the new value: all of
      them and then the value changes, or those up to the first that throws and the value stays. */
  lemma ListenersFireInOrder<T>(v: Var<T>, x: T, throwing: set<nat>)
    requires Ascending(v.cbs) && x != v.val
    ensures var w := AfterSet(v, x, throwing);
      var n := |w.calls| - |v.calls|;
      && n <= |v.cbs| && w.calls == v.calls + CallsFor(v.cbs[..n], v.val, x) && Ascending(v.cbs[..n])
      && (forall i :: 0 <= i < n - 1 ==> v.cbs[i] !in throwing)
      && (if Throws(v.cbs, throwing) then w.val == v.val && n > 0 && v.cbs[n - 1] in throwing
          else w.val == x && n == |v.cbs|)
  {
    InvokedAll(v.cbs, throwing);
  }

  // ----- after a listener has been removed

  lemma SilentStep<T>(s: Store<T>, op: Op<T>, j: nat, id: nat)
    requires KeysInv(s) && j < |s.vars| && id !in s.vars[j].cbs && id <= s.key
    ensures var t := Apply(s, op);
      && j < |t.vars| && id !in t.vars[j].cbs && id <= t.key
      && CallsOf(t.vars[j].calls, id) == CallsOf(s.vars[j].calls, id)
  {
    var v := s.vars[j];
    if op.j == j && op.Unlisten? { WithoutRemoves(v.cbs, op.id); }
    if op.j == j && op.Set? && op.x != v.val {
      var ids := v.cbs[..Invoked(v.cbs, op.throwing)];
      CalledOnce(ids, v.val, op.x, id);
      CallsOfAppend(v.calls, CallsFor(ids, v.val, op.x), id);
      assert CallsOf(v.calls, id) + [] == CallsOf(v.calls, id);
    }
  }

  lemma {:induction false} SilentRun<T>(s: Store<T>, ops: seq<Op<T>>, j: nat, id: nat)
    requires KeysInv(s) && j < |s.vars| && id !in s.vars[j].cbs && id <= s.key
    ensures var t := RunOps(s, ops);
      && j < |t.vars| && id !in t.vars[j].cbs && id <= t.key
      && CallsOf(t.vars[j].calls, id) == CallsOf(s.vars[j].calls, id)
  {
    if ops != [] {
      var n := |ops| - 1;
      SilentRun(s, ops[..n], j, id);
      KeysRun(s, ops[..n]);
      SilentStep(RunOps(s, ops[..n]), ops[n], j, id);
    }
  }

  /** A listener that has been deleted, or cleared with all the others, is never called again, whatever is done
      to the variables afterwards. */
  lemma RemovedIsSilent<T>(s: Store<T>, j: nat, id: nat, remove: Op<T>, ops: seq<Op<T>>)
    requires KeysInv(s) && j < |s.vars| && id <= s.key && (remove == Unlisten(j, id) || remove == Clear(j))
    ensures var t := RunOps(Apply(s, remove), ops);
      j < |t.vars| && id !in t.vars[j].cbs && CallsOf(t.vars[j].calls, id) == CallsOf(s.vars[j].calls, id)
  {
    KeysStep(s, remove);
    WithoutRemoves(s.vars[j].cbs, id);
    SilentRun(Apply(s, remove), ops, j, id);
  }

  // ----- the whole history of a listener

  /** The operation calls the listener and then fails. */
  ghost predicate Misleads<T>(v: Var<T>, op: Op<T>, id: nat) {
    op.Set? && op.x != v.val && Throws(v.cbs, op.throwing) && id in v.cbs[..Invoked(v.cbs, op.throwing)]
  }

  /** One change extends the listener's chain to the current value exactly if it does not mislead it. */
  lemma ChainStep<T>(v: Var<T>, op: Op<T>, id: nat, from: T)
    requires op.Set? && Ascending(v.cbs) && id in v.cbs
    ensures var w := AfterSet(v, op.x, op.throwing);
      IsChain(CallsOf(w.calls, id), from, w.val) <==> IsChain(CallsOf(v.calls, id), from, v.val) && !Misleads(v, op, id)
  {
    if op.x != v.val {
      var ids := v.cbs[..Invoked(v.cbs, op.throwing)];
      CalledOnce(ids, v.val, op.x, id);
      CallsOfAppend(v.calls, CallsFor(ids, v.val, op.x), id);
      var h := CallsOf(v.calls, id);
      if id in ids {
        assert (h + [Call(id, v.val, op.x)])[..|h|] == h;
      } else {
        assert h + [] == h;
        assert Throws(v.cbs, op.throwing);
      }
    }
  }

  /** The listener is registered, at variable j, in every state the run goes through. */
  ghost predicate StaysRegistered<T>(s: Store<T>, ops: seq<Op<T>>, j: nat, id: nat) {
    forall k :: 0 <= k <= |ops| ==> j < |RunOps(s, ops[..k]).vars| && id in RunOps(s, ops[..k]).vars[j].cbs
  }

  ghost predicate Misled<T>(s: Store<T>, op: Op<T>, j: nat, id: nat) {
    op.j == j && j < |s.vars| && Misleads(s.vars[j], op, id)
  }

  /** No operation of the run misleads the listener. */
  ghost predicate NeverMisled<T>(s: Store<T>, ops: seq<Op<T>>, j: nat, id: nat) {
    forall k :: 0 <= k < |ops| ==> !Misled(RunOps(s, ops[..k]), ops[k], j, id)
  }

  /** The changes shown to the listener lead from `from` to the variable's value. */
  ghost predicate Chained<T>(s: Store<T>, j: nat, id: nat, from: T) {
    j < |s.vars| && IsChain(CallsOf(s.vars[j].calls, id), from, s.vars[j].val)
  }

  lemma LastOperation<T>(s: Store<T>, ops: seq<Op<T>>, j: nat, id: nat)
    requires ops != []
    ensures var n := |ops| - 1;
      && (StaysRegistered(s, ops, j, id) ==>
            StaysRegistered(s, ops[..n], j, id)
            && j < |RunOps(s, ops[..n]).vars| && id in RunOps(s, ops[..n]).vars[j].cbs)
      && (NeverMisled(s, ops, j, id) <==>
          NeverMisled(s, ops[..n], j, id) && !Misled(RunOps(s, ops[..n]), ops[n], j, id))
  {
    var n := |ops| - 1;
    assert forall k :: 0 <= k <= n ==> ops[..n][..k] == ops[..k];
    forall k | 0 <= k < n ensures ops[..n][k] == ops[k] { }
  }

  /** Any operation on any variable: the listener's chain reaches the current value afterwards exactly if it
      did before and the operation does not mislead it. */
  lemma HistoryStep<T>(s: Store<T>, op: Op<T>, j: nat, id: nat, from: T)
    requires KeysInv(s) && j < |s.vars| && id in s.vars[j].cbs
    ensures Chained(Apply(s, op), j, id, from) <==> Chained(s, j, id, from) && !Misled(s, op, j, id)
  {
    if op.j == j && op.Set? { ChainStep(s.vars[j], op, id, from); }
  }

  /** Over any run of operations on any of the variables, while a listener stays registered, the changes it
      has been shown lead without gap from the value at registration to the current value, exactly if no
      SetValue has thrown after calling it. */
  lemma {:induction false} ListenerHistory<T>(s: Store<T>, ops: seq<Op<T>>, j: nat, id: nat, from: T)
    requires KeysInv(s) && j < |s.vars| && StaysRegistered(s, ops, j, id)
    requires from == s.vars[j].val && CallsOf(s.vars[j].calls, id) == []
    ensures Chained(RunOps(s, ops), j, id, from) <==> NeverMisled(s, ops, j, id)
    decreases |ops|
  {
    if ops != [] {
      var n := |ops| - 1;
      LastOperation(s, ops, j, id);
      ListenerHistory(s, ops[..n], j, id, from);
      KeysRun(s, ops[..n]);
      HistoryStep(RunOps(s, ops[..n]), ops[n], j, id, from);
    }
  }

  /** No callback has been invoked with a key not handed out yet. */
  ghost predicate CallsInv<T>(s: Store<T>) {
    forall j, i :: 0 <= j < |s.vars| && 0 <= i < |s.vars[j].calls| ==> s.vars[j].calls[i].id <= s.key
  }

  lemma CallsStep<T>(s: Store<T>, op: Op<T>)
    requires KeysInv(s) && CallsInv(s)
    ensures CallsInv(Apply(s, op))
  {
    if op.Set? && op.j < |s.vars| {
      var v := s.vars[op.j];
      forall i | 0 <= i < |v.cbs| ensures v.cbs[i] <= s.key { assert v.cbs[i] in v.cbs; }
    }
  }

  lemma {:induction false} NoCalls<T>(calls: seq<Call<T>>, id: nat)
    requires forall i :: 0 <= i < |calls| ==> calls[i].id != id
    ensures CallsOf(calls, id) == []
  {
    if calls != [] { NoCalls(calls[..|calls| - 1], id); }
  }

  lemma {:induction false} CallsRun<T>(s: Store<T>, ops: seq<Op<T>>)
    requires KeysInv(s) && CallsInv(s)
    ensures CallsInv(RunOps(s, ops))
  {
    if ops != [] {
      var n := |ops| - 1;
      CallsRun(s, ops[..n]);
      KeysRun(s, ops[..n]);
      CallsStep(RunOps(s, ops[..n]), ops[n]);
    }
  }

  /** Variables just created: no key handed out, no listener, no callback invoked. */
  ghost predicate Initial<T>(s: Store<T>) {
    s.key == 0 && forall j :: 0 <= j < |s.vars| ==> s.vars[j].cbs == [] && s.vars[j].calls == []
  }

  lemma InitialInv<T>(s: Store<T>)
    requires Initial(s)
    ensures KeysInv(s) && CallsInv(s)
  {
  }

  /** The store in which a listener has just been added to variable j, after some operations on new variables. */
  ghost function Registered<T>(s0: Store<T>, before: seq<Op<T>>, j: nat): Store<T> {
    Apply(RunOps(s0, before), Listen(j))
  }

  /** The history of a listener from its registration on: whatever has been done to new variables before, the
      changes it has been shown lead from the value at registration to the current value exactly if no
      SetValue has thrown after calling it. */
  lemma ListenerHistoryFromRegistration<T>(s0: Store<T>, before: seq<Op<T>>, j: nat, ops: seq<Op<T>>)
    requires Initial(s0) && j < |RunOps(s0, before).vars|
    requires var u := Registered(s0, before, j); StaysRegistered(u, ops, j, u.key)
    ensures var u := Registered(s0, before, j);
      Chained(RunOps(u, ops), j, u.key, u.vars[j].val) <==> NeverMisled(u, ops, j, u.key)
  {
    InitialInv(s0);
    KeysRun(s0, before);
    CallsRun(s0, before);
    JustRegistered(RunOps(s0, before), j);
    var u := Registered(s0, before, j);
    ListenerHistory(u, ops, j, u.key, u.vars[j].val);
  }

  /** A listener just added has its key, and has been shown nothing. */
  lemma JustRegistered<T>(s: Store<T>, j: nat)
    requires KeysInv(s) && CallsInv(s) && j < |s.vars|
    ensures var u := Apply(s, Listen(j));
      KeysInv(u) && j < |u.vars| && CallsOf(u.vars[j].calls, u.key) == []
  {
    KeysStep(s, Listen(j));
    NoCalls(s.vars[j].calls, s.key + 1);
  }
}
