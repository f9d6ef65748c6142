/** `std::set<LoggerConfig>`: kept in the order of the names, which is all that the order looks at. */
module LoggerSets {
  import opened LoggerConfigs

  /** The order of strings. */
  predicate Less(a: string, b: string)
    decreases |a|
  {
    b != "" && (a == "" || a[0] < b[0] || (a[0] == b[0] && Less(a[1..], b[1..])))
  }

  /** The first difference decides, and a proper beginning comes first. */
  lemma {:induction false} LessAtDifference(a: string, b: string, k: nat)
    requires k <= |a| && k < |b| && a[..k] == b[..k] && (k < |a| ==> a[k] != b[k])
    ensures Less(a, b) <==> k == |a| || a[k] < b[k]
    decreases |a|
  {
    if k > 0 {
      assert a[0] == a[..k][0] == b[..k][0] == b[0];
      assert a[1..][..k - 1] == a[..k][1..] && b[1..][..k - 1] == b[..k][1..];
      LessAtDifference(a[1..], b[1..], k - 1);
    }
  }

  lemma {:induction false} LessOneWay(a: string, b: string)
    requires Less(a, b)
    ensures !Less(b, a) && a != b
    decreases |a|
  {
    if a != "" && a[0] == b[0] { LessOneWay(a[1..], b[1..]); }
  }

  lemma {:induction false} LessTransitive(a: string, b: string, c: string)
    requires Less(a, b) && Less(b, c)
    ensures Less(a, c)
    decreases |a|
  {
    if a != "" && a[0] == b[0] && b[0] == c[0] { LessTransitive(a[1..], b[1..], c[1..]); }
  }

  lemma {:induction false} LessTotal(a: string, b: string)
    requires !Less(a, b) && !Less(b, a)
    ensures a == b
    decreases |a|
  {
    if a != "" {
      LessTotal(a[1..], b[1..]);
      assert a == [a[0]] + a[1..] && b == [b[0]] + b[1..];
    }
  }

  ghost predicate Sorted(cs: seq<LoggerConfig>) {
    forall i, j :: 0 <= i < j < |cs| ==> Less(cs[i].name, cs[j].name)
  }

  lemma SortedNamesDiffer(cs: seq<LoggerConfig>)
    requires Sorted(cs)
    ensures DistinctNames(cs)
  {
    forall i, j | 0 <= i < j < |cs| ensures cs[i].name != cs[j].name { LessOneWay(cs[i].name, cs[j].name); }
  }

  function InsertConfig(cs: seq<LoggerConfig>, d: LoggerConfig): seq<LoggerConfig> {
    if cs == [] || Less(d.name, cs[0].name) then [d] + cs
    else if Less(cs[0].name, d.name) then [cs[0]] + InsertConfig(cs[1..], d)
    else cs
  }

  /** The set after inserting the configurations in turn. */
  function Collect(ds: seq<LoggerConfig>): seq<LoggerConfig> {
    if ds == [] then [] else InsertConfig(Collect(ds[..|ds| - 1]), ds[|ds| - 1])
  }

  lemma {:induction false} InsertKeepsElements(cs: seq<LoggerConfig>, d: LoggerConfig)
    ensures forall x :: x in InsertConfig(cs, d) ==> x == d || x in cs
    ensures forall x :: x in cs ==> x in InsertConfig(cs, d)
    ensures (forall x :: x in cs ==> x.name != d.name) ==> d in InsertConfig(cs, d)
  {
    if cs != [] {
      assert cs == [cs[0]] + cs[1..];
      if !Less(d.name, cs[0].name) {
        if Less(cs[0].name, d.name) { InsertKeepsElements(cs[1..], d); } else { LessTotal(cs[0].name, d.name); }
      }
    }
  }

  /** In front of a sorted rest. */
  lemma SortedCons(c: LoggerConfig, rest: seq<LoggerConfig>)
    requires Sorted(rest) && forall x :: x in rest ==> Less(c.name, x.name)
    ensures Sorted([c] + rest)
  {
  }

  lemma {:induction false} InsertKeepsSorted(cs: seq<LoggerConfig>, d: LoggerConfig)
    requires Sorted(cs)
    ensures Sorted(InsertConfig(cs, d))
  {
    if cs != [] {
      var rest := cs[1..];
      if Less(d.name, cs[0].name) {
        forall x | x in cs ensures Less(d.name, x.name) {
          if x != cs[0] { LessTransitive(d.name, cs[0].name, x.name); }
        }
        SortedCons(d, cs);
      } else if Less(cs[0].name, d.name) {
        InsertKeepsSorted(rest, d);
        InsertKeepsElements(rest, d);
        SortedCons(cs[0], InsertConfig(rest, d));
      }
    }
  }

  lemma {:induction false} CollectSorted(ds: seq<LoggerConfig>)
    ensures Sorted(Collect(ds))
  {
    if ds != [] {
      CollectSorted(ds[..|ds| - 1]);
      InsertKeepsSorted(Collect(ds[..|ds| - 1]), ds[|ds| - 1]);
    }
  }

  predicate HasName(cs: seq<LoggerConfig>, name: string) { exists x :: x in cs && x.name == name }

  lemma {:induction false} InsertIff(cs: seq<LoggerConfig>, d: LoggerConfig, x: LoggerConfig)
    requires Sorted(cs)
    ensures x in InsertConfig(cs, d) <==> x in cs || (x == d && !HasName(cs, d.name))
  {
    if cs != [] {
      var rest := cs[1..];
      assert cs == [cs[0]] + rest;
      if Less(d.name, cs[0].name) {
        forall y | y in cs ensures y.name != d.name {
          if y != cs[0] { LessTransitive(d.name, cs[0].name, y.name); }
          LessOneWay(d.name, y.name);
        }
      } else if Less(cs[0].name, d.name) {
        LessOneWay(cs[0].name, d.name);
        InsertIff(rest, d, x);
        assert HasName(cs, d.name) <==> HasName(rest, d.name);
      } else {
        LessTotal(cs[0].name, d.name);
        assert cs[0] in cs;
      }
    }
  }

  /** No earlier configuration has its name. */
  ghost predicate FirstOfName(ds: seq<LoggerConfig>, x: LoggerConfig) {
    exists i :: 0 <= i < |ds| && ds[i] == x && forall j :: 0 <= j < i ==> ds[j].name != x.name
  }

  lemma FirstNext(ds: seq<LoggerConfig>, d: LoggerConfig, x: LoggerConfig)
    ensures FirstOfName(ds + [d], x) <==> FirstOfName(ds, x) || (x == d && !HasName(ds, d.name))
  {
    var all := ds + [d];
    if FirstOfName(all, x) {
      var i :| 0 <= i < |all| && all[i] == x && forall j :: 0 <= j < i ==> all[j].name != x.name;
      assert forall j :: 0 <= j < |ds| ==> all[j] == ds[j];
      if i < |ds| { assert ds[i] == x; }
    }
    if FirstOfName(ds, x) {
      var i :| 0 <= i < |ds| && ds[i] == x && forall j :: 0 <= j < i ==> ds[j].name != x.name;
      assert all[i] == x;
    }
    if x == d && !HasName(ds, d.name) {
      assert all[|ds|] == x;
      assert forall j :: 0 <= j < |ds| ==> all[j] == ds[j] && ds[j] in ds;
    }
  }

  lemma {:induction false} FirstExists(ds: seq<LoggerConfig>, name: string) returns (x: LoggerConfig)
    requires HasName(ds, name)
    ensures FirstOfName(ds, x) && x.name == name
  {
    var n := |ds| - 1;
    assert ds == ds[..n] + [ds[n]];
    if HasName(ds[..n], name) { x := FirstExists(ds[..n], name); } else { x := ds[n]; }
    FirstNext(ds[..n], ds[n], x);
  }

  /** Of several configurations with one name the first is kept. */
  lemma {:induction false} CollectFirsts(ds: seq<LoggerConfig>)
    ensures forall x :: x in Collect(ds) <==> FirstOfName(ds, x)
  {
    if ds != [] {
      var n := |ds| - 1;
      CollectFirsts(ds[..n]);
      CollectSorted(ds[..n]);
      assert ds == ds[..n] + [ds[n]];
      SameNames(ds[..n], ds[n].name);
      forall x ensures x in Collect(ds) <==> FirstOfName(ds, x) {
        InsertIff(Collect(ds[..n]), ds[n], x);
        FirstNext(ds[..n], ds[n], x);
      }
    }
  }

  lemma SameNames(ds: seq<LoggerConfig>, name: string)
    requires forall x :: x in Collect(ds) <==> FirstOfName(ds, x)
    ensures HasName(Collect(ds), name) <==> HasName(ds, name)
  {
    if HasName(ds, name) { var x := FirstExists(ds, name); }
    if HasName(Collect(ds), name) {
      var x :| x in Collect(ds) && x.name == name;
      assert x in ds;
    }
  }

  /** With distinct names nothing is dropped. */
  lemma CollectElements(ds: seq<LoggerConfig>)
    requires DistinctNames(ds)
    ensures forall x :: x in Collect(ds) <==> x in ds
  {
    CollectFirsts(ds);
    forall x | x in ds ensures FirstOfName(ds, x) {
      var i :| 0 <= i < |ds| && ds[i] == x;
    }
  }

  lemma HeadIsLeast(cs: seq<LoggerConfig>, x: LoggerConfig)
    requires Sorted(cs) && x in cs && x != cs[0]
    ensures Less(cs[0].name, x.name)
  {
  }

  lemma RestElements(cs: seq<LoggerConfig>)
    requires cs != [] && Sorted(cs)
    ensures forall x :: x in cs[1..] <==> x in cs && x != cs[0]
  {
    SortedNamesDiffer(cs);
    assert cs == [cs[0]] + cs[1..];
  }

  /** A sorted list is determined by its elements. */
  lemma {:induction false} SortedUnique(a: seq<LoggerConfig>, b: seq<LoggerConfig>)
    requires Sorted(a) && Sorted(b) && forall x :: x in a <==> x in b
    ensures a == b
  {
    assert a == [] <==> b == [] by {
      if a != [] { assert a[0] in b; }
      if b != [] { assert b[0] in a; }
    }
    if a != [] {
      assert a[0] in b && b[0] in a;
      if a[0] != b[0] {
        HeadIsLeast(a, b[0]);
        HeadIsLeast(b, a[0]);
        LessOneWay(a[0].name, b[0].name);
      }
      RestElements(a);
      RestElements(b);
      SortedUnique(a[1..], b[1..]);
      assert a == [a[0]] + a[1..] && b == [b[0]] + b[1..];
    }
  }

  /** The order in which configurations with distinct names are inserted does not show. */
  lemma OrderDoesNotShow(a: seq<LoggerConfig>, b: seq<LoggerConfig>)
    requires DistinctNames(a) && DistinctNames(b) && multiset(a) == multiset(b)
    ensures Collect(a) == Collect(b)
  {
    CollectElements(a);
    CollectElements(b);
    CollectSorted(a);
    CollectSorted(b);
    forall x ensures x in Collect(a) <==> x in Collect(b) {
      assert x in a <==> x in multiset(a);
      assert x in b <==> x in multiset(b);
    }
    SortedUnique(Collect(a), Collect(b));
  }

  /** A sorted list is its own set. */
  lemma CollectOfSorted(cs: seq<LoggerConfig>)
    requires Sorted(cs)
    ensures Collect(cs) == cs
  {
    SortedNamesDiffer(cs);
    CollectElements(cs);
    CollectSorted(cs);
    SortedUnique(Collect(cs), cs);
  }
}
