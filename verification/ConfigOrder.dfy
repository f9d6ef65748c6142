/** The order in which a load looks at the nodes of a tree: a node before what lies below it, siblings in turn. */
module ConfigOrder {
  import opened ConfigTree
  import opened Options

  /** The node that the positions lead to, from map to map. */
  ghost function NodeAt(node: Node, path: seq<nat>): Option<Node>
    decreases |path|
  {
    if path == [] then Some(node)
    else if node.Map? && path[0] < |node.entries| then NodeAt(node.entries[path[0]].node, path[1..])
    else None
  }

  /** Its name: the keys on the way, with dots between them. */
  ghost function NameAt(prefix: string, node: Node, path: seq<nat>): string
    requires NodeAt(node, path).Some?
    decreases |path|
  {
    if path == [] then prefix
    else
      var e := node.entries[path[0]];
      NameAt(if prefix == "" then e.key else prefix + "." + e.key, e.node, path[1..])
  }

  /** The first path ends on the way of the second, or turns off at an earlier sibling. */
  predicate Earlier(p: seq<nat>, q: seq<nat>)
    decreases |q|
  {
    q != [] && (p == [] || p[0] < q[0] || (p[0] == q[0] && Earlier(p[1..], q[1..])))
  }

  ghost predicate InOrder(paths: seq<seq<nat>>) {
    forall i, j :: 0 <= i < j < |paths| ==> Earlier(paths[i], paths[j])
  }

  /** The list names, path by path, nodes of the tree. */
  ghost predicate Lists(prefix: string, node: Node, paths: seq<seq<nat>>, list: seq<Named>) {
    && |list| == |paths|
    && forall i :: 0 <= i < |paths| ==>
         NodeAt(node, paths[i]) == Some(list[i].node) && NameAt(prefix, node, paths[i]) == list[i].name
  }

  /** The paths that go through entry k. */
  ghost function Through(k: nat, paths: seq<seq<nat>>): seq<seq<nat>> {
    seq(|paths|, i requires 0 <= i < |paths| => [k] + paths[i])
  }

  lemma ThroughInOrder(k: nat, paths: seq<seq<nat>>)
    requires InOrder(paths)
    ensures InOrder(Through(k, paths))
  {
    forall i, j | 0 <= i < j < |paths| ensures Earlier([k] + paths[i], [k] + paths[j]) {
      assert ([k] + paths[i])[1..] == paths[i] && ([k] + paths[j])[1..] == paths[j];
    }
  }

  lemma ThroughLists(prefix: string, node: Node, k: nat, paths: seq<seq<nat>>, list: seq<Named>)
    requires node.Map? && k < |node.entries|
    requires var e := node.entries[k]; Lists(if prefix == "" then e.key else prefix + "." + e.key, e.node, paths, list)
    ensures Lists(prefix, node, Through(k, paths), list)
  {
    forall i | 0 <= i < |paths|
      ensures NodeAt(node, [k] + paths[i]) == Some(list[i].node)
      ensures NameAt(prefix, node, [k] + paths[i]) == list[i].name
    {
      assert ([k] + paths[i])[1..] == paths[i];
    }
  }

  /** Paths through the first entries, and then those through the next. */
  lemma JoinInOrder(a: seq<seq<nat>>, k: nat, b: seq<seq<nat>>)
    requires InOrder(a) && InOrder(b) && forall i :: 0 <= i < |a| ==> a[i] != [] && a[i][0] < k
    ensures InOrder(a + Through(k, b))
  {
    ThroughInOrder(k, b);
  }

  /** The flattened tree lists each node once, under its name, a node before what lies below it and siblings in
      turn. */
  lemma {:induction false} FlattenIsPreOrder(prefix: string, node: Node) returns (paths: seq<seq<nat>>)
    ensures Lists(prefix, node, paths, Flatten(prefix, node)) && InOrder(paths)
    ensures forall p :: p in paths <==> NodeAt(node, p).Some?
    decreases node, 1
  {
    paths := [[]];
    if node.Map? {
      var below := EntriesInOrder(prefix, node, |node.entries|);
      paths := [[]] + below;
      forall p | NodeAt(node, p).Some? ensures p in paths { assert paths[0] == []; }
    }
  }

  lemma {:induction false} EntriesInOrder(prefix: string, node: Node, n: nat) returns (paths: seq<seq<nat>>)
    requires node.Map? && n <= |node.entries|
    ensures Lists(prefix, node, paths, FlattenEntries(prefix, node, n)) && InOrder(paths)
    ensures Covers(node, paths, n)
    decreases node, 0, n
  {
    paths := [];
    if n > 0 {
      var e := node.entries[n - 1];
      var front := EntriesInOrder(prefix, node, n - 1);
      var below := FlattenIsPreOrder(Joined(prefix, e.key), e.node);
      ThroughLists(prefix, node, n - 1, below, Flatten(Joined(prefix, e.key), e.node));
      ThroughAll(node, n - 1, below);
      paths := front + Through(n - 1, below);
      NextEntry(node, n, front, below);
    }
  }

  /** These are the paths that go through the first n entries. */
  ghost predicate Covers(node: Node, paths: seq<seq<nat>>, n: nat) {
    forall p :: p in paths <==> p != [] && p[0] < n && NodeAt(node, p).Some?
  }

  lemma NextEntry(node: Node, n: nat, front: seq<seq<nat>>, below: seq<seq<nat>>)
    requires 0 < n && Covers(node, front, n - 1) && InOrder(front) && InOrder(below)
    requires forall p :: p in Through(n - 1, below) <==> p != [] && p[0] == n - 1 && NodeAt(node, p).Some?
    ensures Covers(node, front + Through(n - 1, below), n) && InOrder(front + Through(n - 1, below))
  {
    assert forall i :: 0 <= i < |front| ==> front[i] in front;
    JoinInOrder(front, n - 1, below);
  }

  lemma ThroughAll(node: Node, k: nat, paths: seq<seq<nat>>)
    requires node.Map? && k < |node.entries|
    requires forall p :: p in paths <==> NodeAt(node.entries[k].node, p).Some?
    ensures forall p :: p in Through(k, paths) <==> p != [] && p[0] == k && NodeAt(node, p).Some?
  {
    forall p ensures p in Through(k, paths) <==> p != [] && p[0] == k && NodeAt(node, p).Some? {
      if p in Through(k, paths) {
        var i :| 0 <= i < |paths| && p == [k] + paths[i];
        assert p[1..] == paths[i] && paths[i] in paths;
      }
      if p != [] && p[0] == k && NodeAt(node, p).Some? {
        assert p[1..] in paths;
        var i :| 0 <= i < |paths| && paths[i] == p[1..];
        assert Through(k, paths)[i] == p;
      }
    }
  }
}
