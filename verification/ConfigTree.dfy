/** YAML trees, their dotted names, and the flattening of a tree into a list of named nodes. */
module ConfigTree {
  import opened Options
  import opened Sequences

  datatype Node =
    | Null
    | Scalar(text: string)
    | Sequence(items: seq<Node>)
    | Map(entries: seq<Entry>)

  datatype Entry = Entry(key: string, node: Node)

  /** A flattened node with its full name, as ParseAllNodes collects it. */
  datatype Named = Named(name: string, node: Node)

  /** What the code asks of yaml-cpp: reading and writing a tree, the nodes that `node[0]` to
      `node[node.size() - 1]` stand for, and the entries that iterating over a node as a map visits. An
      operation that throws gives None. */
  datatype Yaml = Yaml(
    load: string -> Node, emit: Node -> string,
    index: Node -> Option<seq<Node>>, pairs: Node -> Option<seq<Entry>>)

  /** What is assumed of it: loading inverts emitting, sequences are indexed and maps iterated as one expects. */
  ghost predicate Lawful(y: Yaml) {
    && (forall n :: y.load(y.emit(n)) == n)
    && (forall items :: y.index(Sequence(items)) == Some(items))
    && (forall es :: y.pairs(Map(es)) == Some(es))
  }

  function LowerChar(c: char): char {
    if 'A' <= c <= 'Z' then ((c as int) + 32) as char else c
  }

  function Lower(s: string): (r: string)
    ensures |r| == |s|
  {
    seq(|s|, i requires 0 <= i < |s| => LowerChar(s[i]))
  }

  function Joined(prefix: string, key: string): string {
    if prefix == "" then key else prefix + "." + key
  }

  /** ParseAllNodes as a list. */
  function Flatten(prefix: string, node: Node): seq<Named>
    decreases node, 1
  {
    [Named(prefix, node)] + (if node.Map? then FlattenEntries(prefix, node, |node.entries|) else [])
  }

  /** The part of the list that comes from the first n entries of a map. */
  function FlattenEntries(prefix: string, node: Node, n: nat): seq<Named>
    requires node.Map? && n <= |node.entries|
    decreases node, 0, n
  {
    if n == 0 then []
    else
      FlattenEntries(prefix, node, n - 1)
      + Flatten(Joined(prefix, node.entries[n - 1].key), node.entries[n - 1].node)
  }

  /** The vector that ParseAllNodes pushes into. */
  class Output {
    var items: seq<Named>
    constructor () ensures items == [] { items := []; }
  }

  method ParseAllNodes(prefix: string, node: Node, output: Output)
    modifies output
    ensures output.items == old(output.items) + Flatten(prefix, node)
    decreases node
  {
    output.items := output.items + [Named(prefix, node)];
    ghost var before := output.items;
    if node.Map? {
      var i := 0;
      while i < |node.entries|
        invariant 0 <= i <= |node.entries|
        invariant output.items == before + FlattenEntries(prefix, node, i)
      {
        var entry := node.entries[i];
        ParseAllNodes(if prefix == "" then entry.key else prefix + "." + entry.key, entry.node, output);
        Assoc(before, FlattenEntries(prefix, node, i), Flatten(Joined(prefix, entry.key), entry.node));
        i := i + 1;
      }
      Assoc(old(output.items), [Named(prefix, node)], FlattenEntries(prefix, node, i));
    }
  }

  // ----- names and paths

  /** The position of the first dot, or the length. */
  function Dot(s: string): (k: nat)
    ensures k <= |s| && '.' !in s[..k] && (k < |s| ==> s[k] == '.')
  {
    if s == "" || s[0] == '.' then 0 else
      var k := Dot(s[1..]);
      assert s[..k + 1] == [s[0]] + s[1..][..k];
      k + 1
  }

  function Split(s: string): (path: seq<string>)
    ensures path != []
    decreases |s|
  {
    var k := Dot(s);
    if k == |s| then [s] else [s[..k]] + Split(s[k + 1..])
  }

  /** The child whose key is `key` up to case. */
  function Child(entries: seq<Entry>, key: string): seq<Node> {
    if entries == [] then []
    else
      var last := entries[|entries| - 1];
      Child(entries[..|entries| - 1], key) + (if Lower(last.key) == key then [last.node] else [])
  }

  /** The node a path leads to, as a list of at most one element. */
  function Navigate(node: Node, path: seq<string>): seq<Node>
    decreases |path|
  {
    if path == [] then [node]
    else if !node.Map? then []
    else
      var child := Child(node.entries, path[0]);
      if child == [] then [] else Navigate(child[0], path[1..])
  }

  /** Keys are non-empty, without dots, and distinct among siblings up to case. */
  ghost predicate WellKeyed(node: Node)
    decreases node
  {
    node.Map? ==>
      && (forall e :: e in node.entries ==> e.key != "" && '.' !in e.key && WellKeyed(e.node))
      && (forall i, j :: 0 <= i < j < |node.entries| ==> Lower(node.entries[i].key) != Lower(node.entries[j].key))
  }

  /** The nodes of a flattened list that carry the given name up to case; the unnamed root carries none. */
  function Matches(list: seq<Named>, name: string): seq<Node> {
    if list == [] then []
    else
      var last := list[|list| - 1];
      Matches(list[..|list| - 1], name)
      + (if last.name != "" && Lower(last.name) == name then [last.node] else [])
  }

  lemma {:induction false} MatchesAppend(a: seq<Named>, b: seq<Named>, name: string)
    ensures Matches(a + b, name) == Matches(a, name) + Matches(b, name)
  {
    if b == [] {
      assert a + b == a;
    } else {
      MatchesAppend(a, b[..|b| - 1], name);
      assert (a + b)[..|a + b| - 1] == a + b[..|b| - 1];
    }
  }

  lemma DotUnique(k: string, rest: string)
    requires '.' !in k && (rest != "" ==> rest[0] == '.')
    ensures Dot(k + rest) == |k|
  {
    var s, d := k + rest, Dot(k + rest);
    assert forall i :: 0 <= i < |k| ==> s[i] == k[i];
    assert forall i :: 0 <= i < d ==> s[..d][i] == s[i];
    assert rest != "" ==> s[|k|] == rest[0];
  }

  // ----- a flattened tree names exactly what navigation reaches

  /** `name` is `prefix`, or lies below it; with an empty prefix everything lies below. */
  predicate Below(prefix: string, name: string) {
    prefix == "" || (|name| > |prefix| && name[..|prefix|] == prefix && name[|prefix|] == '.')
  }

  /** What remains of a name below a prefix. */
  function Remainder(prefix: string, name: string): string
    requires Below(prefix, name)
  {
    if prefix == "" then name else name[|prefix| + 1..]
  }

  /** The nodes that the subtree at `prefix` contributes to `name`, by navigation. */
  ghost function Expected(prefix: string, node: Node, name: string): seq<Node> {
    if prefix != "" && Lower(prefix) == name then [node]
    else if !Below(Lower(prefix), name) then []
    else Navigate(node, Split(Remainder(Lower(prefix), name)))
  }

  lemma LowerJoined(prefix: string, key: string)
    ensures Lower(Joined(prefix, key)) == Joined(Lower(prefix), Lower(key))
  {
  }

  lemma LowerKeepsDots(key: string)
    ensures '.' in Lower(key) <==> '.' in key
  {
    forall i | 0 <= i < |key| ensures Lower(key)[i] == '.' <==> key[i] == '.' { }
    if '.' in Lower(key) {
      var i :| 0 <= i < |key| && Lower(key)[i] == '.';
      assert key[i] == '.';
    }
    if '.' in key {
      var i :| 0 <= i < |key| && key[i] == '.';
      assert Lower(key)[i] == '.';
    }
  }

  lemma BelowParent(p: string, k: string, name: string)
    requires name == Joined(p, k) || Below(Joined(p, k), name)
    requires k != ""
    ensures Below(p, name)
  {
    if p != "" {
      var q := Joined(p, k);
      assert name[..|q|] == q;
      assert q[..|p|] == p && q[|p|] == '.';
      assert name[..|p|] == name[..|q|][..|p|] && name[|p|] == name[..|q|][|p|];
    }
  }

  /** A name that the subtree of a child key answers to starts, below the parent, with that key; a name that
      it does not answer to starts with another. */
  lemma ChildOwnsName(prefix: string, key: string, child: Node, name: string)
    requires key != "" && '.' !in key
    ensures var p, k := Lower(prefix), Lower(key);
      Expected(Joined(prefix, key), child, name) ==
      if Below(p, name) && Split(Remainder(p, name))[0] == k
      then Navigate(child, Split(Remainder(p, name))[1..])
      else []
  {
    var p, k := Lower(prefix), Lower(key);
    var q := Joined(p, k);
    LowerJoined(prefix, key);
    LowerKeepsDots(key);
    if Below(p, name) {
      var rest := Remainder(p, name);
      assert name == Joined(p, rest) by { if p != "" { assert name == name[..|p|] + [name[|p|]] + name[|p| + 1..]; } }
      JoinedBelow(p, k, rest);
    } else if name == q || Below(q, name) {
      BelowParent(p, k, name);
    }
  }

  /** A common parent can be left out. */
  lemma StripParent(p: string, k: string, rest: string)
    requires k != ""
    ensures Joined(p, rest) == Joined(p, k) <==> rest == k
    ensures Below(Joined(p, k), Joined(p, rest)) <==> Below(k, rest)
    ensures Below(k, rest) ==> Remainder(Joined(p, k), Joined(p, rest)) == Remainder(k, rest)
  {
    if p != "" {
      var name, q := Joined(p, rest), Joined(p, k);
      var n := |p| + 1;
      assert name[n..] == rest && q[n..] == k && name[..n] == q[..n];
      assert |rest| >= |k| ==> name[..|q|] == q[..n] + rest[..|k|];
      assert q == q[..n] + k;
      assert |rest| >= |k| ==> name[..|q|][n..] == rest[..|k|];
    }
  }

  /** The first segment of a name. */
  lemma FirstSegment(k: string, rest: string)
    requires k != "" && '.' !in k
    ensures rest == k ==> Split(rest) == [k]
    ensures Below(k, rest) ==> Split(rest) == [k] + Split(Remainder(k, rest))
    ensures rest != k && !Below(k, rest) ==> Split(rest)[0] != k
  {
    if rest == k {
      DotUnique(k, "");
      assert k + "" == k;
    } else if Below(k, rest) {
      assert rest == k + rest[|k|..];
      DotUnique(k, rest[|k|..]);
    }
  }

  /** Below a parent, a name is the child's or below it exactly if its first segment is the child's key. */
  lemma JoinedBelow(p: string, k: string, rest: string)
    requires k != "" && '.' !in k
    ensures Joined(p, rest) == Joined(p, k) ==> Split(rest) == [k]
    ensures Below(Joined(p, k), Joined(p, rest)) ==>
      Split(rest) == [k] + Split(Remainder(Joined(p, k), Joined(p, rest)))
    ensures Joined(p, rest) != Joined(p, k) && !Below(Joined(p, k), Joined(p, rest)) ==> Split(rest)[0] != k
  {
    StripParent(p, k, rest);
    FirstSegment(k, rest);
  }

  lemma {:induction false} NoChild(entries: seq<Entry>, key: string)
    requires forall e :: e in entries ==> Lower(e.key) != key
    ensures Child(entries, key) == []
  {
    if entries != [] { NoChild(entries[..|entries| - 1], key); }
  }

  lemma NextChild(entries: seq<Entry>, n: nat, key: string)
    requires 0 < n <= |entries| && key == Lower(entries[n - 1].key)
    requires forall i, j :: 0 <= i < j < |entries| ==> Lower(entries[i].key) != Lower(entries[j].key)
    ensures Child(entries[..n - 1], key) == []
    ensures forall k :: Child(entries[..n], k) == if k == key then [entries[n - 1].node] else Child(entries[..n - 1], k)
  {
    assert entries[..n][..n - 1] == entries[..n - 1];
    NoChild(entries[..n - 1], key);
  }

  /** The nodes that `entries`, placed below `p`, contribute to `name`: those of the one child that the first
      segment names. */
  ghost function ByChild(p: string, entries: seq<Entry>, name: string): seq<Node> {
    if !Below(p, name) then []
    else
      var path := Split(Remainder(p, name));
      var child := Child(entries, path[0]);
      if child == [] then [] else Navigate(child[0], path[1..])
  }

  lemma ByChildNext(prefix: string, entries: seq<Entry>, n: nat, name: string)
    requires 0 < n <= |entries| && entries[n - 1].key != "" && '.' !in entries[n - 1].key
    requires forall i, j :: 0 <= i < j < |entries| ==> Lower(entries[i].key) != Lower(entries[j].key)
    ensures ByChild(Lower(prefix), entries[..n], name) ==
      ByChild(Lower(prefix), entries[..n - 1], name)
      + Expected(Joined(prefix, entries[n - 1].key), entries[n - 1].node, name)
  {
    var e := entries[n - 1];
    ChildOwnsName(prefix, e.key, e.node, name);
    NextChild(entries, n, Lower(e.key));
  }

  /** What the first n entries contribute to a name is found by navigation. */
  lemma {:induction false} EntriesByNavigation(prefix: string, node: Node, n: nat, name: string)
    requires node.Map? && n <= |node.entries| && WellKeyed(node) && name != ""
    ensures Matches(FlattenEntries(prefix, node, n), name) == ByChild(Lower(prefix), node.entries[..n], name)
    decreases node, 0, n
  {
    if n > 0 {
      var e := node.entries[n - 1];
      assert e in node.entries;
      EntriesByNavigation(prefix, node, n - 1, name);
      FlattenIsNavigation(Joined(prefix, e.key), e.node, name);
      MatchesAppend(FlattenEntries(prefix, node, n - 1), Flatten(Joined(prefix, e.key), e.node), name);
      ByChildNext(prefix, node.entries, n, name);
    }
  }

  /** The names a subtree answers to: its own, and those its children answer to. */
  lemma ExpectedHere(prefix: string, node: Node, name: string)
    requires name != ""
    ensures Expected(prefix, node, name) ==
      Matches([Named(prefix, node)], name)
      + (if node.Map? then ByChild(Lower(prefix), node.entries, name) else [])
  {
    var own := [Named(prefix, node)];
    assert own[..0] == [];
    assert Matches(own, name) == if prefix != "" && Lower(prefix) == name then [node] else [];
  }

  /** The entries that a flattened subtree carries under a name are what navigating its segments reaches. */
  lemma {:induction false} FlattenIsNavigation(prefix: string, node: Node, name: string)
    requires WellKeyed(node) && name != ""
    ensures Matches(Flatten(prefix, node), name) == Expected(prefix, node, name)
    decreases node, 1
  {
    ExpectedHere(prefix, node, name);
    if node.Map? {
      EntriesByNavigation(prefix, node, |node.entries|, name);
      assert node.entries[..|node.entries|] == node.entries;
      MatchesAppend([Named(prefix, node)], FlattenEntries(prefix, node, |node.entries|), name);
    } else {
      assert [Named(prefix, node)] + [] == [Named(prefix, node)];
    }
  }
}
