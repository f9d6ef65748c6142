/** Facts about sequences that the solver needs to be told, and loops over them as functions. */
module Sequences {
  import opened Options

  lemma Assoc<T>(a: seq<T>, b: seq<T>, c: seq<T>)
    ensures a + (b + c) == a + b + c
  {
  }

  lemma SnocEqual<T>(a: seq<T>, x: T, b: seq<T>)
    requires |a| + 1 == |b|
    ensures a + [x] == b <==> a == b[..|a|] && x == b[|a|]
  {
    assert b == b[..|a|] + [b[|a|]];
    if a + [x] == b { assert (a + [x])[..|a|] == a; }
  }

  /** `f` applied to the elements in order. */
  function Fold<A, B>(f: (A, B) -> A, a: A, bs: seq<B>): A {
    if bs == [] then a else f(Fold(f, a, bs[..|bs| - 1]), bs[|bs| - 1])
  }

  lemma FoldSnoc<A, B>(f: (A, B) -> A, a: A, front: seq<B>, b: B)
    ensures Fold(f, a, front + [b]) == f(Fold(f, a, front), b)
  {
    assert (front + [b])[..|front|] == front;
  }

  lemma {:induction false} FoldCons<A, B>(f: (A, B) -> A, a: A, b: B, rest: seq<B>)
    ensures Fold(f, a, [b] + rest) == Fold(f, f(a, b), rest)
  {
    if rest == [] {
      assert [b] + rest == [] + [b];
      FoldSnoc(f, a, [], b);
    } else {
      var n := |rest| - 1;
      FoldCons(f, a, b, rest[..n]);
      assert [b] + rest == ([b] + rest[..n]) + [rest[n]] && rest == rest[..n] + [rest[n]];
      FoldSnoc(f, a, [b] + rest[..n], rest[n]);
      FoldSnoc(f, f(a, b), rest[..n], rest[n]);
    }
  }

  /** `f` of each element, or None if it fails on one. */
  function Each<A, B>(f: A -> Option<B>, xs: seq<A>): Option<seq<B>> {
    if xs == [] then Some([])
    else match (Each(f, xs[..|xs| - 1]), f(xs[|xs| - 1]))
      case (Some(ys), Some(y)) => Some(ys + [y])
      case _ => None
  }

  lemma EachSnoc<A, B>(f: A -> Option<B>, xs: seq<A>, x: A, ys: seq<B>, y: B)
    requires Each(f, xs).Some? ==> |Each(f, xs).value| == |ys|
    ensures Each(f, xs + [x]) == Some(ys + [y]) <==> Each(f, xs) == Some(ys) && f(x) == Some(y)
  {
    assert (xs + [x])[..|xs|] == xs;
    if Each(f, xs).Some? {
      SnocEqual(ys, y, ys + [y]);
      if f(x).Some? { SnocEqual(Each(f, xs).value, f(x).value, ys + [y]); }
    }
  }

  lemma {:induction false} EachLength<A, B>(f: A -> Option<B>, xs: seq<A>)
    ensures Each(f, xs).Some? ==> |Each(f, xs).value| == |xs|
  {
    if xs != [] { EachLength(f, xs[..|xs| - 1]); }
  }

  lemma {:induction false} EachIff<A, B>(f: A -> Option<B>, xs: seq<A>, ys: seq<B>)
    ensures Each(f, xs) == Some(ys) <==> |xs| == |ys| && forall i :: 0 <= i < |xs| ==> f(xs[i]) == Some(ys[i])
  {
    EachLength(f, xs);
    if |xs| == |ys| && xs != [] {
      var n := |xs| - 1;
      EachIff(f, xs[..n], ys[..n]);
      EachLength(f, xs[..n]);
      EachSnoc(f, xs[..n], xs[n], ys[..n], ys[n]);
      assert xs == xs[..n] + [xs[n]] && ys == ys[..n] + [ys[n]];
    }
  }

  lemma {:induction false} EachStops<A, B>(f: A -> Option<B>, xs: seq<A>, i: nat)
    requires i <= |xs| && Each(f, xs[..i]).None?
    ensures Each(f, xs).None?
    decreases |xs|
  {
    if i == |xs| {
      assert xs[..i] == xs;
    } else {
      assert xs[..|xs| - 1][..i] == xs[..i];
      EachStops(f, xs[..|xs| - 1], i);
    }
  }
}
