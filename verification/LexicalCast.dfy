/** The container conversions, nested to any depth, over the conversions of scalars and of YAML itself. */
module LexicalCast {
  import opened ConfigTree
  import opened Options
  import opened Sequences

  /** Vectors and lists are converted alike, and so are the ordered and unordered sets and maps. */
  datatype Ty = Leaf | Vector(elem: Ty) | SetOf(elem: Ty) | Dict(elem: Ty)

  /** Members of a set are listed in the set's order. */
  datatype Value<A> = Atom(a: A) | Items(vs: seq<Value<A>>) | Members(vs: seq<Value<A>>) | Pairs(ps: seq<Pair<A>>)

  datatype Pair<A> = Pair(key: string, value: Value<A>)

  /** YAML, the conversions of scalars, and the order that sets are kept in. */
  datatype Casts<!A> = Casts(
    yaml: Yaml, show: A -> string, parse: string -> Option<A>,
    before: (Value<A>, Value<A>) -> bool)

  // ----- to text

  function ToText<A>(c: Casts<A>, v: Value<A>): string
    decreases v, 1
  {
    match v
    case Atom(a) => c.show(a)
    case Items(vs) => c.yaml.emit(Sequence(Nodes(c, v, vs, |vs|)))
    case Members(vs) => c.yaml.emit(Sequence(Nodes(c, v, vs, |vs|)))
    case Pairs(ps) => c.yaml.emit(Map(Entries(c, v, |ps|)))
  }

  function Nodes<A>(c: Casts<A>, v: Value<A>, vs: seq<Value<A>>, n: nat): (nodes: seq<Node>)
    requires (v.Items? || v.Members?) && vs == v.vs && n <= |vs|
    ensures |nodes| == n && forall i :: 0 <= i < n ==> nodes[i] == c.yaml.load(ToText(c, vs[i]))
    decreases v, 0, n
  {
    if n == 0 then [] else Nodes(c, v, vs, n - 1) + [c.yaml.load(ToText(c, vs[n - 1]))]
  }

  function Entries<A>(c: Casts<A>, v: Value<A>, n: nat): (es: seq<Entry>)
    requires v.Pairs? && n <= |v.ps|
    ensures |es| == n && forall i :: 0 <= i < n ==> es[i] == Entry(v.ps[i].key, c.yaml.load(ToText(c, v.ps[i].value)))
    decreases v, 0, n
  {
    if n == 0 then []
    else Entries(c, v, n - 1) + [Entry(v.ps[n - 1].key, c.yaml.load(ToText(c, v.ps[n - 1].value)))]
  }

  // ----- from text

  /** `std::set::insert`: in order, unless an equivalent member is there. */
  function Insert<A>(c: Casts<A>, vs: seq<Value<A>>, v: Value<A>): seq<Value<A>> {
    if vs == [] || c.before(v, vs[0]) then [v] + vs
    else if c.before(vs[0], v) then [vs[0]] + Insert(c, vs[1..], v)
    else vs
  }

  predicate HasKey<A>(ps: seq<Pair<A>>, key: string) { exists i :: 0 <= i < |ps| && ps[i].key == key }

  function Emplace<A>(ps: seq<Pair<A>>, p: Pair<A>): seq<Pair<A>> { if HasKey(ps, p.key) then ps else ps + [p] }

  function FromText<A>(c: Casts<A>, ty: Ty, text: string): Option<Value<A>>
    decreases ty, 1, 0
  {
    match ty
    case Leaf =>
      (match c.parse(text) case Some(a) => Some(Atom(a)) case None => None)
    case Dict(elem) =>
      (match c.yaml.pairs(c.yaml.load(text))
       case None => None
       case Some(es) => match FromEntries(c, elem, es) case Some(ps) => Some(Pairs(ps)) case None => None)
    case Vector(elem) =>
      (match c.yaml.index(c.yaml.load(text))
       case None => None
       case Some(nodes) => match FromNodes(c, elem, nodes, false) case Some(vs) => Some(Items(vs)) case None => None)
    case SetOf(elem) =>
      (match c.yaml.index(c.yaml.load(text))
       case None => None
       case Some(nodes) => match FromNodes(c, elem, nodes, true) case Some(vs) => Some(Members(vs)) case None => None)
  }

  /** The loop over the nodes of a sequence, pushing or inserting each converted element. */
  function FromNodes<A>(c: Casts<A>, elem: Ty, nodes: seq<Node>, insert: bool): Option<seq<Value<A>>>
    decreases elem, 2, |nodes|
  {
    if nodes == [] then Some([])
    else match (FromNodes(c, elem, nodes[..|nodes| - 1], insert), FromText(c, elem, c.yaml.emit(nodes[|nodes| - 1])))
      case (Some(vs), Some(v)) => Some(if insert then Insert(c, vs, v) else vs + [v])
      case _ => None
  }

  function FromEntries<A>(c: Casts<A>, elem: Ty, es: seq<Entry>): Option<seq<Pair<A>>>
    decreases elem, 2, |es|
  {
    if es == [] then Some([])
    else match (FromEntries(c, elem, es[..|es| - 1]), FromText(c, elem, c.yaml.emit(es[|es| - 1].node)))
      case (Some(ps), Some(v)) => Some(Emplace(ps, Pair(es[|es| - 1].key, v)))
      case _ => None
  }

  /** The conversions from text with their loops. */
  method Cast<A>(c: Casts<A>, ty: Ty, text: string) returns (r: Option<Value<A>>)
    ensures r == FromText(c, ty, text)
    decreases ty, 1
  {
    match ty
    case Leaf =>
      var a := c.parse(text);
      r := if a.Some? then Some(Atom(a.value)) else None;
    case Vector(elem) =>
      var nodes := c.yaml.index(c.yaml.load(text));
      if nodes.None? { return None; }
      var vs := CastNodes(c, elem, nodes.value, false);
      r := if vs.Some? then Some(Items(vs.value)) else None;
    case SetOf(elem) =>
      var nodes := c.yaml.index(c.yaml.load(text));
      if nodes.None? { return None; }
      var vs := CastNodes(c, elem, nodes.value, true);
      r := if vs.Some? then Some(Members(vs.value)) else None;
    case Dict(elem) =>
      var es := c.yaml.pairs(c.yaml.load(text));
      if es.None? { return None; }
      var ps := CastEntries(c, elem, es.value);
      r := if ps.Some? then Some(Pairs(ps.value)) else None;
  }

  method CastNodes<A>(c: Casts<A>, elem: Ty, nodes: seq<Node>, insert: bool) returns (r: Option<seq<Value<A>>>)
    ensures r == FromNodes(c, elem, nodes, insert)
    decreases elem, 2
  {
    var res: seq<Value<A>> := [];
    for i := 0 to |nodes|
      invariant FromNodes(c, elem, nodes[..i], insert) == Some(res)
    {
      assert nodes[..i + 1][..i] == nodes[..i];
      var v := Cast(c, elem, c.yaml.emit(nodes[i]));
      if v.None? {
        NodesStop(c, elem, nodes, i + 1, insert);
        return None;
      }
      res := if insert then Insert(c, res, v.value) else res + [v.value];
    }
    assert nodes[..|nodes|] == nodes;
    r := Some(res);
  }

  method CastEntries<A>(c: Casts<A>, elem: Ty, es: seq<Entry>) returns (r: Option<seq<Pair<A>>>)
    ensures r == FromEntries(c, elem, es)
    decreases elem, 2
  {
    var res: seq<Pair<A>> := [];
    for i := 0 to |es|
      invariant FromEntries(c, elem, es[..i]) == Some(res)
    {
      assert es[..i + 1][..i] == es[..i];
      var v := Cast(c, elem, c.yaml.emit(es[i].node));
      if v.None? {
        EntriesStop(c, elem, es, i + 1);
        return None;
      }
      res := Emplace(res, Pair(es[i].key, v.value));
    }
    assert es[..|es|] == es;
    r := Some(res);
  }

  lemma {:induction false} NodesStop<A>(c: Casts<A>, elem: Ty, nodes: seq<Node>, i: nat, insert: bool)
    requires i <= |nodes| && FromNodes(c, elem, nodes[..i], insert).None?
    ensures FromNodes(c, elem, nodes, insert).None?
    decreases |nodes|
  {
    if i == |nodes| {
      assert nodes[..i] == nodes;
    } else {
      assert nodes[..|nodes| - 1][..i] == nodes[..i];
      NodesStop(c, elem, nodes[..|nodes| - 1], i, insert);
    }
  }

  lemma {:induction false} EntriesStop<A>(c: Casts<A>, elem: Ty, es: seq<Entry>, i: nat)
    requires i <= |es| && FromEntries(c, elem, es[..i]).None?
    ensures FromEntries(c, elem, es).None?
    decreases |es|
  {
    if i == |es| {
      assert es[..i] == es;
    } else {
      assert es[..|es| - 1][..i] == es[..i];
      EntriesStop(c, elem, es[..|es| - 1], i);
    }
  }

  // ----- the round trip

  predicate Precedes<A>(c: Casts<A>, a: Value<A>, b: Value<A>) { c.before(a, b) && !c.before(b, a) }

  lemma {:induction false} InsertLast<A>(c: Casts<A>, vs: seq<Value<A>>, v: Value<A>)
    requires forall i :: 0 <= i < |vs| ==> Precedes(c, vs[i], v)
    ensures Insert(c, vs, v) == vs + [v]
  {
    if vs == [] {
      assert vs + [v] == [v] + vs;
    } else {
      InsertLast(c, vs[1..], v);
      assert vs == [vs[0]] + vs[1..];
    }
  }

  /** A value of a type: the members of a set are listed in its order, maps have no repeated keys. */
  ghost predicate HasType<A(!new)>(c: Casts<A>, ty: Ty, v: Value<A>)
    decreases ty
  {
    match ty
    case Leaf => v.Atom?
    case Vector(elem) => v.Items? && forall i :: 0 <= i < |v.vs| ==> HasType(c, elem, v.vs[i])
    case SetOf(elem) =>
      v.Members? && (forall i :: 0 <= i < |v.vs| ==> HasType(c, elem, v.vs[i]))
      && forall i, j :: 0 <= i < j < |v.vs| ==> Precedes(c, v.vs[i], v.vs[j])
    case Dict(elem) =>
      v.Pairs? && (forall i :: 0 <= i < |v.ps| ==> HasType(c, elem, v.ps[i].value))
      && forall i, j :: 0 <= i < j < |v.ps| ==> v.ps[i].key != v.ps[j].key
  }

  /** The text that stands for a value inside a container: it has been loaded and emitted once more. */
  function Inner<A>(c: Casts<A>, v: Value<A>): string { c.yaml.emit(c.yaml.load(ToText(c, v))) }

  /** The scalars come back: on their own as printed, inside a container after one more load and emit. */
  ghost predicate Stable<A(!new)>(c: Casts<A>, ty: Ty, v: Value<A>, inner: bool)
    requires HasType(c, ty, v)
    decreases ty
  {
    match ty
    case Leaf => c.parse(if inner then Inner(c, v) else ToText(c, v)) == Some(v.a)
    case Vector(elem) => forall i :: 0 <= i < |v.vs| ==> Stable(c, elem, v.vs[i], true)
    case SetOf(elem) => forall i :: 0 <= i < |v.vs| ==> Stable(c, elem, v.vs[i], true)
    case Dict(elem) => forall i :: 0 <= i < |v.ps| ==> Stable(c, elem, v.ps[i].value, true)
  }

  predicate NoSets(ty: Ty) {
    match ty
    case Leaf => true
    case Vector(elem) => NoSets(elem)
    case SetOf(_) => false
    case Dict(elem) => NoSets(elem)
  }

  lemma {:induction false} NodesBack<A(!new)>(c: Casts<A>, elem: Ty, nodes: seq<Node>, vs: seq<Value<A>>, insert: bool)
    requires |nodes| == |vs|
    requires forall i :: 0 <= i < |vs| ==> FromText(c, elem, c.yaml.emit(nodes[i])) == Some(vs[i])
    requires insert ==> forall i, j :: 0 <= i < j < |vs| ==> Precedes(c, vs[i], vs[j])
    ensures FromNodes(c, elem, nodes, insert) == Some(vs)
    decreases |vs|
  {
    if vs != [] {
      var n := |vs| - 1;
      NodesBack(c, elem, nodes[..n], vs[..n], insert);
      if insert { InsertLast(c, vs[..n], vs[n]); }
      assert vs == vs[..n] + [vs[n]];
    }
  }

  lemma {:induction false} EntriesBack<A(!new)>(c: Casts<A>, elem: Ty, es: seq<Entry>, ps: seq<Pair<A>>)
    requires |es| == |ps|
    requires forall i :: 0 <= i < |ps| ==>
      es[i].key == ps[i].key && FromText(c, elem, c.yaml.emit(es[i].node)) == Some(ps[i].value)
    requires forall i, j :: 0 <= i < j < |ps| ==> ps[i].key != ps[j].key
    ensures FromEntries(c, elem, es) == Some(ps)
    decreases |ps|
  {
    if ps != [] {
      var n := |ps| - 1;
      EntriesBack(c, elem, es[..n], ps[..n]);
      assert ps == ps[..n] + [ps[n]];
    }
  }

  function Itself<T>(r: Option<T>): Option<T> { r }

  /** Reading a set whose elements come in its order, some of which may fail to convert. */
  lemma {:induction false} SetReadsEach<A(!new)>(c: Casts<A>, elem: Ty, nodes: seq<Node>, read: seq<Option<Value<A>>>)
    requires |read| == |nodes|
    requires forall i :: 0 <= i < |nodes| ==> read[i] == FromText(c, elem, c.yaml.emit(nodes[i]))
    requires forall i, j :: 0 <= i < j < |read| && read[i].Some? && read[j].Some? ==>
      Precedes(c, read[i].value, read[j].value)
    ensures FromNodes(c, elem, nodes, true) == Each(Itself<Value<A>>, read)
    decreases |nodes|
  {
    if nodes != [] {
      var n := |nodes| - 1;
      SetReadsEach(c, elem, nodes[..n], read[..n]);
      var front := FromNodes(c, elem, nodes[..n], true);
      if front.Some? {
        EachIff(Itself<Value<A>>, read[..n], front.value);
        if read[n].Some? { InsertLast(c, front.value, read[n].value); }
      }
    }
  }

  /** The text of a container is emitted from a tree, so loading and emitting it again changes nothing. */
  lemma InnerOfContainer<A(!new)>(c: Casts<A>, v: Value<A>)
    requires Lawful(c.yaml) && !v.Atom?
    ensures Inner(c, v) == ToText(c, v)
  {
  }

  lemma LoadedItems<A(!new)>(c: Casts<A>, v: Value<A>)
    requires Lawful(c.yaml) && (v.Items? || v.Members?)
    ensures c.yaml.index(c.yaml.load(ToText(c, v))) == Some(Nodes(c, v, v.vs, |v.vs|))
  {
  }

  lemma LoadedEntries<A(!new)>(c: Casts<A>, v: Value<A>)
    requires Lawful(c.yaml) && v.Pairs?
    ensures c.yaml.pairs(c.yaml.load(ToText(c, v))) == Some(Entries(c, v, |v.ps|))
  {
  }

  /** If YAML is lawful and the scalars are stable, to text and back is the identity at every type,
      to any depth. */
  lemma {:induction false} RoundTrip<A(!new)>(c: Casts<A>, ty: Ty, v: Value<A>, inner: bool)
    requires Lawful(c.yaml) && HasType(c, ty, v) && Stable(c, ty, v, inner)
    ensures FromText(c, ty, if inner then Inner(c, v) else ToText(c, v)) == Some(v)
    decreases ty, 1
  {
    if ty.Leaf? {
    } else if ty.Dict? {
      RoundTripDict(c, ty, v, inner);
    } else {
      InnerOfContainer(c, v);
      LoadedItems(c, v);
      forall i | 0 <= i < |v.vs| ensures FromText(c, ty.elem, Inner(c, v.vs[i])) == Some(v.vs[i]) {
        RoundTrip(c, ty.elem, v.vs[i], true);
      }
      NodesBack(c, ty.elem, Nodes(c, v, v.vs, |v.vs|), v.vs, ty.SetOf?);
    }
  }

  lemma {:induction false} RoundTripDict<A(!new)>(c: Casts<A>, ty: Ty, v: Value<A>, inner: bool)
    requires Lawful(c.yaml) && HasType(c, ty, v) && Stable(c, ty, v, inner) && ty.Dict?
    ensures FromText(c, ty, if inner then Inner(c, v) else ToText(c, v)) == Some(v)
    decreases ty, 0
  {
    InnerOfContainer(c, v);
    LoadedEntries(c, v);
    forall i | 0 <= i < |v.ps| ensures FromText(c, ty.elem, Inner(c, v.ps[i].value)) == Some(v.ps[i].value) {
      RoundTrip(c, ty.elem, v.ps[i].value, true);
    }
    EntriesBack(c, ty.elem, Entries(c, v, |v.ps|), v.ps);
  }

  lemma {:induction false} NodesNeedElements<A(!new)>(c: Casts<A>, elem: Ty, nodes: seq<Node>, vs: seq<Value<A>>)
    requires |nodes| == |vs| && FromNodes(c, elem, nodes, false) == Some(vs)
    ensures forall i :: 0 <= i < |vs| ==> FromText(c, elem, c.yaml.emit(nodes[i])) == Some(vs[i])
    decreases |vs|
  {
    if vs != [] {
      var n := |vs| - 1;
      var front, last := FromNodes(c, elem, nodes[..n], false), FromText(c, elem, c.yaml.emit(nodes[n]));
      SnocEqual(front.value, last.value, vs);
      NodesNeedElements(c, elem, nodes[..n], vs[..n]);
    }
  }

  /** A vector is read element by element, and not at all if one of them is not. */
  lemma VectorReadsEach<A(!new)>(c: Casts<A>, elem: Ty, nodes: seq<Node>, vs: seq<Value<A>>)
    requires |nodes| == |vs|
    ensures FromNodes(c, elem, nodes, false) == Some(vs) <==>
      forall i :: 0 <= i < |vs| ==> FromText(c, elem, c.yaml.emit(nodes[i])) == Some(vs[i])
  {
    if forall i :: 0 <= i < |vs| ==> FromText(c, elem, c.yaml.emit(nodes[i])) == Some(vs[i]) {
      NodesBack(c, elem, nodes, vs, false);
    }
    if FromNodes(c, elem, nodes, false) == Some(vs) { NodesNeedElements(c, elem, nodes, vs); }
  }

  /** The first entry with its key has this value. */
  ghost predicate FirstWithKey<A(!new)>(c: Casts<A>, elem: Ty, es: seq<Entry>, p: Pair<A>) {
    exists i :: 0 <= i < |es| && es[i].key == p.key && FromText(c, elem, c.yaml.emit(es[i].node)) == Some(p.value)
      && forall j :: 0 <= j < i ==> es[j].key != p.key
  }

  lemma FirstWithKeyNext<A(!new)>(c: Casts<A>, elem: Ty, es: seq<Entry>, e: Entry, p: Pair<A>)
    ensures FirstWithKey(c, elem, es + [e], p) <==>
      FirstWithKey(c, elem, es, p)
      || (e.key == p.key && FromText(c, elem, c.yaml.emit(e.node)) == Some(p.value)
          && forall j :: 0 <= j < |es| ==> es[j].key != p.key)
  {
    var all := es + [e];
    assert forall j :: 0 <= j < |es| ==> all[j] == es[j];
    if FirstWithKey(c, elem, all, p) {
      var i :| 0 <= i < |all| && all[i].key == p.key && FromText(c, elem, c.yaml.emit(all[i].node)) == Some(p.value)
        && forall j :: 0 <= j < i ==> all[j].key != p.key;
      if i < |es| { assert es[i].key == p.key; }
    }
    if FirstWithKey(c, elem, es, p) {
      var i :| 0 <= i < |es| && es[i].key == p.key && FromText(c, elem, c.yaml.emit(es[i].node)) == Some(p.value)
        && forall j :: 0 <= j < i ==> es[j].key != p.key;
      assert all[i].key == p.key;
    }
    if e.key == p.key && FromText(c, elem, c.yaml.emit(e.node)) == Some(p.value)
       && forall j :: 0 <= j < |es| ==> es[j].key != p.key {
      assert all[|es|].key == p.key;
    }
  }

  /** Of several entries with one key the first is kept, and the others must convert too. */
  lemma {:induction false} MapKeepsFirst<A(!new)>(c: Casts<A>, elem: Ty, es: seq<Entry>)
    ensures FromEntries(c, elem, es).Some? <==>
      forall i :: 0 <= i < |es| ==> FromText(c, elem, c.yaml.emit(es[i].node)).Some?
    ensures FromEntries(c, elem, es).Some? ==>
      && (forall p :: p in FromEntries(c, elem, es).value <==> FirstWithKey(c, elem, es, p))
      && (forall key :: HasKey(FromEntries(c, elem, es).value, key) <==> exists i :: 0 <= i < |es| && es[i].key == key)
  {
    if es != [] {
      var n := |es| - 1;
      var front := FromEntries(c, elem, es[..n]);
      MapKeepsFirst(c, elem, es[..n]);
      assert es == es[..n] + [es[n]];
      if FromEntries(c, elem, es).Some? {
        var v := FromText(c, elem, c.yaml.emit(es[n].node)).value;
        EmplacedKeys(front.value, Pair(es[n].key, v));
        forall p ensures p in FromEntries(c, elem, es).value <==> FirstWithKey(c, elem, es, p) {
          FirstWithKeyNext(c, elem, es[..n], es[n], p);
        }
      }
    }
  }

  lemma EmplacedKeys<A(!new)>(ps: seq<Pair<A>>, p: Pair<A>)
    ensures forall key :: HasKey(Emplace(ps, p), key) <==> HasKey(ps, key) || key == p.key
  {
    forall key ensures HasKey(Emplace(ps, p), key) <==> HasKey(ps, key) || key == p.key {
      var qs := ps + [p];
      assert qs[|ps|] == p && forall i :: 0 <= i < |ps| ==> qs[i] == ps[i];
    }
  }

  lemma {:induction false} FromEntriesLength<A(!new)>(c: Casts<A>, elem: Ty, es: seq<Entry>)
    ensures FromEntries(c, elem, es).Some? ==> |FromEntries(c, elem, es).value| <= |es|
  {
    if es != [] { FromEntriesLength(c, elem, es[..|es| - 1]); }
  }

  lemma {:induction false} EntriesNeedValues<A(!new)>(c: Casts<A>, elem: Ty, es: seq<Entry>, ps: seq<Pair<A>>)
    requires |es| == |ps| && FromEntries(c, elem, es) == Some(ps)
    ensures forall i :: 0 <= i < |ps| ==> FromText(c, elem, c.yaml.emit(es[i].node)) == Some(ps[i].value)
    decreases |ps|
  {
    if ps != [] {
      var n := |ps| - 1;
      var front, last := FromEntries(c, elem, es[..n]), FromText(c, elem, c.yaml.emit(es[n].node));
      FromEntriesLength(c, elem, es[..n]);
      SnocEqual(front.value, Pair(es[n].key, last.value), ps);
      EntriesNeedValues(c, elem, es[..n], ps[..n]);
    }
  }

  /** Stability of the scalars is also necessary, at every type without sets. */
  lemma {:induction false} RoundTripIff<A(!new)>(c: Casts<A>, ty: Ty, v: Value<A>, inner: bool)
    requires Lawful(c.yaml) && HasType(c, ty, v) && NoSets(ty)
    ensures FromText(c, ty, if inner then Inner(c, v) else ToText(c, v)) == Some(v) <==> Stable(c, ty, v, inner)
    decreases ty
  {
    if Stable(c, ty, v, inner) {
      RoundTrip(c, ty, v, inner);
    } else if FromText(c, ty, if inner then Inner(c, v) else ToText(c, v)) == Some(v) && !ty.Leaf? {
      InnerOfContainer(c, v);
      if ty.Vector? {
        LoadedItems(c, v);
        NodesNeedElements(c, ty.elem, Nodes(c, v, v.vs, |v.vs|), v.vs);
        forall i | 0 <= i < |v.vs| { RoundTripIff(c, ty.elem, v.vs[i], true); }
      } else {
        LoadedEntries(c, v);
        EntriesNeedValues(c, ty.elem, Entries(c, v, |v.ps|), v.ps);
        forall i | 0 <= i < |v.ps| { RoundTripIff(c, ty.elem, v.ps[i].value, true); }
      }
    }
  }
}
