/** Capitals in the keys of a tree, and the order in which its nodes are looked at; names are compared letter by
    letter here, not through the function that lowers them. */
module ConfigCase {
  import opened ConfigLoad
  import opened ConfigTree
  import opened Letters
  import opened Options
  import CV = ConfigVars

  // ----- lowering

  /** Lowering turns the k-th capital into the k-th small letter and leaves every other character. */
  lemma LowersCapitals(c: char)
    ensures forall k :: 0 <= k < 26 && c == CAPITALS[k] ==> LowerChar(c) == SMALL[k]
    ensures c !in CAPITALS ==> LowerChar(c) == c
  {
    CapitalRange(c);
    forall k | 0 <= k < 26 && c == CAPITALS[k] ensures LowerChar(c) == SMALL[k] {
      CapitalsInOrder(k);
      SmallInOrder(k);
    }
  }

  lemma SameLower(c: char, d: char)
    ensures LowerChar(c) == LowerChar(d) <==> SameLetter(c, d)
  {
    LowersCapitals(c);
    LowersCapitals(d);
    Capital(c);
    Capital(d);
  }

  /** A capital has an index, at which the small letter stands that it is lowered to; no small letter is one. */
  lemma Capital(c: char)
    ensures c in CAPITALS ==> exists k :: 0 <= k < 26 && c == CAPITALS[k] && LowerChar(c) == SMALL[k]
    ensures forall k :: 0 <= k < 26 ==>
      SMALL[k] !in CAPITALS && (forall j :: 0 <= j < 26 && SMALL[j] == SMALL[k] ==> j == k)
  {
    LowersCapitals(c);
    forall k | 0 <= k < 26
      ensures SMALL[k] !in CAPITALS && (forall j :: 0 <= j < 26 && SMALL[j] == SMALL[k] ==> j == k)
    {
      SmallInOrder(k);
      CapitalRange(SMALL[k]);
      forall j | 0 <= j < 26 && SMALL[j] == SMALL[k] ensures j == k { SmallInOrder(j); }
    }
  }

  /** Two texts are lowered to the same exactly if they differ in capitals only. */
  lemma SameLowered(a: string, b: string)
    ensures Lower(a) == Lower(b) <==> SameUpToCase(a, b)
  {
    if |a| == |b| {
      forall i | 0 <= i < |a| ensures Lower(a)[i] == Lower(b)[i] <==> SameLetter(a[i], b[i]) {
        SameLower(a[i], b[i]);
      }
    }
  }

  predicate NoCapitals(s: string) { forall i :: 0 <= i < |s| ==> s[i] !in CAPITALS }

  lemma LowerStays(s: string)
    requires NoCapitals(s)
    ensures Lower(s) == s
  {
    forall i | 0 <= i < |s| ensures Lower(s)[i] == s[i] { LowersCapitals(s[i]); }
  }

  /** The letters a configuration name may have, written out. */
  lemma RegularLetters(c: char)
    ensures RegularChar(c) <==> c in SMALL || c in "0123456789._"
  {
    SmallRange(c);
    if '0' <= c <= '9' { assert "0123456789._"[c as int - '0' as int] == c; }
    if c == '.' { assert "0123456789._"[10] == c; }
    if c == '_' { assert "0123456789._"[11] == c; }
  }

  // ----- which node decides a variable

  /** Following the keys from the root leads to the target. */
  ghost predicate LeadsTo(node: Node, keys: seq<string>, target: Node)
    decreases |keys|
  {
    if keys == [] then node == target
    else node.Map? && exists e :: e in node.entries && e.key == keys[0] && LeadsTo(e.node, keys[1..], target)
  }

  /** The keys with dots between them. */
  function Dotted(keys: seq<string>): string
    requires keys != []
  {
    if |keys| == 1 then keys[0] else keys[0] + "." + Dotted(keys[1..])
  }

  /** The keys spell the name in some capitalisation, and lead to the target. */
  ghost predicate Spells(node: Node, keys: seq<string>, name: string, target: Node) {
    keys != [] && LeadsTo(node, keys, target) && SameUpToCase(Dotted(keys), name)
  }

  function AllLower(keys: seq<string>): seq<string> {
    seq(|keys|, i requires 0 <= i < |keys| => Lower(keys[i]))
  }

  predicate DotFree(keys: seq<string>) { forall i :: 0 <= i < |keys| ==> '.' !in keys[i] }

  lemma {:induction false} SplitDotted(keys: seq<string>)
    requires keys != [] && DotFree(keys)
    ensures Split(Dotted(keys)) == keys
    decreases |keys|
  {
    var s := Dotted(keys);
    if |keys| == 1 {
      DotUnique(s, "");
      assert s + "" == s;
    } else {
      var rest := Dotted(keys[1..]);
      assert s == keys[0] + (['.'] + rest);
      DotUnique(keys[0], ['.'] + rest);
      assert s[|keys[0]| + 1..] == rest;
      SplitDotted(keys[1..]);
    }
  }

  lemma {:induction false} DottedSplit(s: string)
    ensures Dotted(Split(s)) == s
    decreases |s|
  {
    var k := Dot(s);
    if k < |s| {
      var rest := Split(s[k + 1..]);
      DottedSplit(s[k + 1..]);
      AtDot(s, k);
      assert ([s[..k]] + rest)[1..] == rest;
    }
  }

  lemma AtDot(s: string, k: nat)
    requires k < |s| && s[k] == '.'
    ensures s[..k] + "." + s[k + 1..] == s
  {
  }

  lemma {:induction false} LowerDotted(keys: seq<string>)
    requires keys != []
    ensures Lower(Dotted(keys)) == Dotted(AllLower(keys))
    decreases |keys|
  {
    if |keys| > 1 {
      LowerDotted(keys[1..]);
      assert AllLower(keys)[1..] == AllLower(keys[1..]);
      LowerSeparated(keys[0], Dotted(keys[1..]));
    }
  }

  lemma LowerSeparated(a: string, b: string)
    ensures Lower(a + "." + b) == Lower(a) + "." + Lower(b)
  {
  }

  lemma LowerDotFree(keys: seq<string>)
    requires DotFree(keys)
    ensures DotFree(AllLower(keys))
  {
    forall i | 0 <= i < |keys| ensures '.' !in AllLower(keys)[i] { LowerKeepsDots(keys[i]); }
  }

  lemma {:induction false} OnlyChild(entries: seq<Entry>, e: Entry)
    requires e in entries
    requires forall i, j :: 0 <= i < j < |entries| ==> Lower(entries[i].key) != Lower(entries[j].key)
    ensures Child(entries, Lower(e.key)) == [e.node]
    decreases |entries|
  {
    var n := |entries|;
    var front, last := entries[..n - 1], entries[n - 1];
    assert entries == front + [last];
    if e == last {
      NextChild(entries, n, Lower(e.key));
      assert entries[..n] == entries;
    } else {
      OnlyChild(front, e);
    }
  }

  lemma {:induction false} ChildIsEntry(entries: seq<Entry>, key: string) returns (e: Entry)
    requires Child(entries, key) != []
    ensures e in entries && Lower(e.key) == key && e.node == Child(entries, key)[0]
  {
    var n := |entries| - 1;
    if Child(entries[..n], key) != [] { e := ChildIsEntry(entries[..n], key); } else { e := entries[n]; }
  }

  /** A path is what navigation by the lowered keys finds. */
  lemma {:induction false} PathNavigates(node: Node, keys: seq<string>, target: Node)
    requires WellKeyed(node) && LeadsTo(node, keys, target)
    ensures Navigate(node, AllLower(keys)) == [target] && DotFree(keys)
    decreases |keys|
  {
    if keys != [] {
      var e :| e in node.entries && e.key == keys[0] && LeadsTo(e.node, keys[1..], target);
      OnlyChild(node.entries, e);
      PathNavigates(e.node, keys[1..], target);
      assert AllLower(keys)[1..] == AllLower(keys[1..]);
      assert keys == [keys[0]] + keys[1..];
    }
  }

  /** And what navigation finds has a path. */
  lemma {:induction false} NavigationHasPath(node: Node, path: seq<string>) returns (keys: seq<string>)
    requires Navigate(node, path) != []
    ensures LeadsTo(node, keys, Navigate(node, path)[0]) && AllLower(keys) == path
    decreases |path|
  {
    keys := [];
    if path != [] {
      var e := ChildIsEntry(node.entries, path[0]);
      var rest := NavigationHasPath(e.node, path[1..]);
      keys := [e.key] + rest;
      assert keys[1..] == rest;
      assert AllLower(keys) == [path[0]] + path[1..];
    }
  }

  /** The keys that lead to a variable's node spell its name. */
  lemma SpellingIsNavigation(node: Node, keys: seq<string>, name: string, target: Node)
    requires WellKeyed(node) && NoCapitals(name) && Spells(node, keys, name, target)
    ensures Navigate(node, Split(name)) == [target]
  {
    PathNavigates(node, keys, target);
    LowerDotFree(keys);
    SplitDotted(AllLower(keys));
    LowerDotted(keys);
    SameLowered(Dotted(keys), name);
    LowerStays(name);
  }

  lemma NavigationIsSpelling(node: Node, name: string) returns (keys: seq<string>)
    requires NoCapitals(name) && Navigate(node, Split(name)) != []
    ensures Spells(node, keys, name, Navigate(node, Split(name))[0])
  {
    keys := NavigationHasPath(node, Split(name));
    LowerDotted(keys);
    DottedSplit(name);
    SameLowered(Dotted(keys), name);
    LowerStays(name);
  }

  /** The node gives a variable of type `ty` the value x: from its own text if it is a scalar, otherwise from the
      text that is emitted for it. */
  ghost predicate Gives<V(!new)>(c: Env<V>, ty: nat, node: Node, x: V) {
    match node
    case Scalar(text) => c.parse(ty, text) == Some(x)
    case _ => c.parse(ty, c.emit(node)) == Some(x)
  }

  /** After a load that succeeds, a variable has the value that the node gives whose keys spell its name, in
      whatever capitals; if there is no such node, it is as before. */
  lemma SpellingDecides<V(!new)>(c: Env<V>, r: Registry<V>, node: Node, name: string)
    requires r.ok && WellKeyed(node) && name in r.vars && NoCapitals(name) && Load(c, r, node).ok
    ensures var s := Load(c, r, node);
      && name in s.vars
      && (forall keys, target :: Spells(node, keys, name, target) ==>
            Gives(c, r.vars[name].ty, target, s.vars[name].v.val))
      && ((forall keys, target :: !Spells(node, keys, name, target)) ==> s.vars[name] == r.vars[name])
  {
    LoadIsNavigation(c, r, node, name);
    var s := Load(c, r, node);
    forall keys, target | Spells(node, keys, name, target)
      ensures Gives(c, r.vars[name].ty, target, s.vars[name].v.val)
    {
      SpellingIsNavigation(node, keys, name, target);
    }
    if Navigate(node, Split(name)) != [] { var keys := NavigationIsSpelling(node, name); }
  }

  // ----- two trees that differ in the capitals of their keys

  ghost predicate SameTree(a: Node, b: Node)
    decreases a
  {
    if a.Map? && b.Map? then
      |a.entries| == |b.entries|
      && forall i :: 0 <= i < |a.entries| ==>
           SameUpToCase(a.entries[i].key, b.entries[i].key) && SameTree(a.entries[i].node, b.entries[i].node)
    else a == b
  }

  ghost predicate SameNamed(xs: seq<Named>, ys: seq<Named>) {
    |xs| == |ys| && forall i :: 0 <= i < |xs| ==> SameUpToCase(xs[i].name, ys[i].name)
  }

  lemma SameJoined(p: string, q: string, a: string, b: string)
    requires SameUpToCase(p, q) && SameUpToCase(a, b)
    ensures SameUpToCase(Joined(p, a), Joined(q, b))
  {
  }

  lemma {:induction false} SameFlattened(p: string, q: string, a: Node, b: Node)
    requires SameTree(a, b) && SameUpToCase(p, q)
    ensures SameNamed(Flatten(p, a), Flatten(q, b))
    decreases a, 1
  {
    if a.Map? { SameFlattenedEntries(p, q, a, b, |a.entries|); }
  }

  lemma {:induction false} SameFlattenedEntries(p: string, q: string, a: Node, b: Node, n: nat)
    requires a.Map? && b.Map? && SameTree(a, b) && SameUpToCase(p, q) && n <= |a.entries|
    ensures SameNamed(FlattenEntries(p, a, n), FlattenEntries(q, b, n))
    decreases a, 0, n
  {
    if n > 0 {
      var e, f := a.entries[n - 1], b.entries[n - 1];
      SameFlattenedEntries(p, q, a, b, n - 1);
      SameJoined(p, q, e.key, f.key);
      SameFlattened(Joined(p, e.key), Joined(q, f.key), e.node, f.node);
    }
  }

  /** Wherever the name is that of a variable, the two nodes convert alike. */
  ghost predicate ConvertAlike<V(!new)>(c: Env<V>, r: Registry<V>, xs: seq<Named>, ys: seq<Named>) {
    forall i, name :: 0 <= i < |xs| && i < |ys| && name in r.vars && SameUpToCase(xs[i].name, name) ==>
      Converted(c, r.vars[name].ty, xs[i].node) == Converted(c, r.vars[name].ty, ys[i].node)
  }

  lemma SameOne<V(!new)>(c: Env<V>, r: Registry<V>, x: Named, y: Named)
    requires SameUpToCase(x.name, y.name)
    requires forall name :: name in r.vars && SameUpToCase(x.name, name) ==>
      Converted(c, r.vars[name].ty, x.node) == Converted(c, r.vars[name].ty, y.node)
    ensures LoadOne(c, r, x) == LoadOne(c, r, y)
  {
    SameLowered(x.name, y.name);
    var key := Lower(x.name);
    if Regular(key) {
      forall i | 0 <= i < |key| ensures key[i] !in CAPITALS { CapitalRange(key[i]); }
      LowerStays(key);
      SameLowered(x.name, key);
    }
  }

  lemma {:induction false} SameLoads<V(!new)>(c: Env<V>, r: Registry<V>, xs: seq<Named>, ys: seq<Named>)
    requires SameNamed(xs, ys) && ConvertAlike(c, r, xs, ys)
    ensures LoadAll(c, r, xs) == LoadAll(c, r, ys)
    decreases |xs|
  {
    if xs != [] {
      var n := |xs| - 1;
      SameLoads(c, r, xs[..n], ys[..n]);
      LoadKeepsShape(c, r, xs[..n]);
      SameOne(c, LoadAll(c, r, xs[..n]), xs[n], ys[n]);
    }
  }

  /** Capitals in keys do not matter, neither to the values nor to the listeners nor to the outcome, if the nodes
      of the variables themselves convert alike. */
  lemma CapitalsDoNotMatter<V(!new)>(c: Env<V>, r: Registry<V>, a: Node, b: Node)
    requires SameTree(a, b) && ConvertAlike(c, r, Flatten("", a), Flatten("", b))
    ensures Load(c, r, a) == Load(c, r, b)
  {
    SameFlattened("", "", a, b);
    SameLoads(c, r, Flatten("", a), Flatten("", b));
  }

  /** They can matter inside a node that is handed to a conversion as a whole: after loads that succeed, a
      variable has the same value exactly if its two nodes convert alike. */
  lemma CapitalsShowIff<V(!new)>(c: Env<V>, r: Registry<V>, a: Node, b: Node, name: string,
                           keys: seq<string>, x: Node, other: seq<string>, y: Node)
    requires r.ok && WellKeyed(a) && WellKeyed(b) && name in r.vars && NoCapitals(name)
    requires Load(c, r, a).ok && Load(c, r, b).ok
    requires Spells(a, keys, name, x) && Spells(b, other, name, y)
    ensures name in Load(c, r, a).vars && name in Load(c, r, b).vars
    ensures Load(c, r, a).vars[name].v.val == Load(c, r, b).vars[name].v.val <==>
      Converted(c, r.vars[name].ty, x) == Converted(c, r.vars[name].ty, y)
  {
    SpellingDecides(c, r, a, name);
    SpellingDecides(c, r, b, name);
  }

  /** A variable `m` whose node is a map with one key. */
  function OneKey(key: string): Node { Map([Entry(key, Scalar("1"))]) }

  function Around(key: string): Node { Map([Entry("m", OneKey(key))]) }

  lemma FlattenAround(key: string)
    requires key != ""
    ensures Flatten("", Around(key)) ==
      [Named("", Around(key)), Named("m", OneKey(key)), Named("m." + key, Scalar("1"))]
  {
    var inner, outer := OneKey(key), Around(key);
    assert "m" + "." + key == "m." + key;
    assert Joined("m", key) == "m." + key && Joined("", "m") == "m";
    assert FlattenEntries("m", inner, 1) == FlattenEntries("m", inner, 0) + Flatten("m." + key, Scalar("1"));
    assert Flatten("m", inner) == [Named("m", inner)] + FlattenEntries("m", inner, 1);
    assert FlattenEntries("", outer, 1) == FlattenEntries("", outer, 0) + Flatten("m", inner);
  }

  lemma LowerInside(key: string)
    requires Lower(key) == "k"
    ensures Lower("m") == "m" && Lower("m." + key) == "m.k"
  {
    var name := "m." + key;
    LowersCapitals('m');
    LowersCapitals('.');
    assert |key| == 1 && LowerChar(key[0]) == Lower(key)[0];
    assert name[0] == 'm' && name[1] == '.' && name[2] == key[0];
  }

  lemma LoadAround<V(!new)>(c: Env<V>, r: Registry<V>, key: string, x: V)
    requires r.ok && r.vars.Keys == {"m"} && r.vars["m"].v.cbs == [] && Lower(key) == "k"
    requires Converted(c, r.vars["m"].ty, OneKey(key)) == Some(x)
    ensures Load(c, r, Around(key)).ok && "m" in Load(c, r, Around(key)).vars
    ensures Load(c, r, Around(key)).vars["m"].v.val == x
  {
    FlattenAround(key);
    var list := Flatten("", Around(key));
    LoadNext(c, r, list, 0);
    LoadNext(c, r, list, 1);
    LoadNext(c, r, list, 2);
    assert list[..3] == list;
    LowerInside(key);
  }

  lemma AroundSame(key: string, other: string)
    requires SameUpToCase(key, other)
    ensures SameTree(Around(key), Around(other))
  {
    assert SameTree(OneKey(key), OneKey(other));
  }

  /** So the loads of two trees can differ by the capitals of one key: the key is part of what is converted. */
  lemma CapitalsCanShow<V(!new)>(c: Env<V>, r: Registry<V>, big: string, small: string, x: V, y: V)
    requires big == "K" && small == "k"
    requires r.ok && r.vars.Keys == {"m"} && r.vars["m"].v.cbs == [] && x != y
    requires Converted(c, r.vars["m"].ty, OneKey(big)) == Some(x)
    requires Converted(c, r.vars["m"].ty, OneKey(small)) == Some(y)
    ensures SameTree(Around(big), Around(small)) && Load(c, r, Around(big)) != Load(c, r, Around(small))
  {
    assert Lower(big) == "k" && Lower(small) == "k";
    SameLowered(big, small);
    AroundSame(big, small);
    LoadAround(c, r, big, x);
    LoadAround(c, r, small, y);
  }
}
