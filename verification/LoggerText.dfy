/** The text of a set of logger configurations: the conversion that the configuration variable "logs" uses. */
module LoggerTexts {
  import opened ConfigTree
  import opened LexicalCast
  import opened LoggerConfigs
  import opened LoggerSets
  import opened Options
  import opened Sequences

  /** The scalar conversions are those of one logger. */
  function LoggerCasts(y: Yaml): Casts<LoggerConfig> {
    Casts(y, (c: LoggerConfig) => y.emit(ToNode(c)), (text: string) => FromNode(y, y.load(text)),
          (a: Value<LoggerConfig>, b: Value<LoggerConfig>) => a.Atom? && b.Atom? && Less(a.a.name, b.a.name))
  }

  function Atoms(cs: seq<LoggerConfig>): seq<Value<LoggerConfig>> {
    seq(|cs|, i requires 0 <= i < |cs| => Atom(cs[i]))
  }

  function SetToText(y: Yaml, cs: seq<LoggerConfig>): string { ToText(LoggerCasts(y), Members(Atoms(cs))) }

  function SetFromText(y: Yaml, text: string): Option<Value<LoggerConfig>> {
    FromText(LoggerCasts(y), SetOf(Leaf), text)
  }

  predicate AllStableConfigs(cs: seq<LoggerConfig>) { forall i :: 0 <= i < |cs| ==> StableConfig(cs[i]) }

  // ----- reading

  /** One element of the sequence. */
  function ReadOne(y: Yaml): Node -> Option<LoggerConfig> { node => FromNode(y, y.load(y.emit(node))) }

  lemma {:induction false} InsertsConfig(y: Yaml, cs: seq<LoggerConfig>, d: LoggerConfig)
    ensures Insert(LoggerCasts(y), Atoms(cs), Atom(d)) == Atoms(InsertConfig(cs, d))
  {
    if cs == [] {
      assert Atoms([d] + cs) == [Atom(d)] + Atoms(cs);
    } else {
      assert Atoms(cs)[0] == Atom(cs[0]) && Atoms(cs)[1..] == Atoms(cs[1..]);
      if Less(d.name, cs[0].name) {
        assert Atoms([d] + cs) == [Atom(d)] + Atoms(cs);
      } else if Less(cs[0].name, d.name) {
        InsertsConfig(y, cs[1..], d);
        assert Atoms([cs[0]] + InsertConfig(cs[1..], d)) == [Atom(cs[0])] + Atoms(InsertConfig(cs[1..], d));
      }
    }
  }

  lemma ReadsOne(y: Yaml, node: Node)
    ensures FromText(LoggerCasts(y), Leaf, y.emit(node)) ==
      match ReadOne(y)(node) case Some(d) => Some(Atom(d)) case None => None
  {
  }

  /** Reading a sequence of nodes makes the set of what they convert to. */
  lemma {:induction false} ReadsSet(y: Yaml, nodes: seq<Node>)
    ensures FromNodes(LoggerCasts(y), Leaf, nodes, true) ==
      match Each(ReadOne(y), nodes) case Some(ds) => Some(Atoms(Collect(ds))) case None => None
  {
    if nodes == [] {
      assert Atoms([]) == [];
    } else {
      var n := |nodes| - 1;
      ReadsSet(y, nodes[..n]);
      ReadsOne(y, nodes[n]);
      var front, last := Each(ReadOne(y), nodes[..n]), ReadOne(y)(nodes[n]);
      if front.Some? && last.Some? {
        InsertsConfig(y, Collect(front.value), last.value);
        assert (front.value + [last.value])[..|front.value|] == front.value;
      }
    }
  }

  /** The set that a text stands for. */
  function ReadSet(y: Yaml, text: string): Option<seq<LoggerConfig>> {
    match y.index(y.load(text))
    case None => None
    case Some(nodes) => match Each(ReadOne(y), nodes) case Some(ds) => Some(Collect(ds)) case None => None
  }

  lemma ReadSetIsFromText(y: Yaml, text: string)
    ensures SetFromText(y, text) == match ReadSet(y, text) case Some(cs) => Some(Members(Atoms(cs))) case None => None
  {
    var nodes := y.index(y.load(text));
    if nodes.Some? { ReadsSet(y, nodes.value); }
  }

  /** Whatever is read is in the order of the names, which are therefore distinct. */
  lemma ReadSetsHaveDistinctNames(y: Yaml, text: string)
    ensures ReadSet(y, text).Some? ==> Sorted(ReadSet(y, text).value) && DistinctNames(ReadSet(y, text).value)
  {
    var nodes := y.index(y.load(text));
    if nodes.Some? && Each(ReadOne(y), nodes.value).Some? {
      CollectSorted(Each(ReadOne(y), nodes.value).value);
      SortedNamesDiffer(ReadSet(y, text).value);
    }
  }

  /** Two texts that list the same configurations in different orders stand for the same set. */
  lemma ReorderedTextIsSameSet(y: Yaml, text: string, other: string, a: seq<LoggerConfig>, b: seq<LoggerConfig>)
    requires var nodes, others := y.index(y.load(text)), y.index(y.load(other));
      && nodes.Some? && Each(ReadOne(y), nodes.value) == Some(a)
      && others.Some? && Each(ReadOne(y), others.value) == Some(b)
    requires DistinctNames(a) && DistinctNames(b) && multiset(a) == multiset(b)
    ensures ReadSet(y, text) == ReadSet(y, other)
  {
    OrderDoesNotShow(a, b);
  }

  function AsConfig(y: Yaml): Node -> Option<LoggerConfig> { node => FromNode(y, node) }

  /** A text that was emitted from a sequence of nodes. */
  lemma ReadEmitted(y: Yaml, items: seq<Node>)
    requires Lawful(y)
    ensures ReadSet(y, y.emit(Sequence(items))) ==
      match Each(AsConfig(y), items) case Some(ds) => Some(Collect(ds)) case None => None
  {
    SameEach(ReadOne(y), AsConfig(y), items);
  }

  lemma {:induction false} SameEach<A, B>(f: A -> Option<B>, g: A -> Option<B>, xs: seq<A>)
    requires forall i :: 0 <= i < |xs| ==> f(xs[i]) == g(xs[i])
    ensures Each(f, xs) == Each(g, xs)
  {
    if xs != [] { SameEach(f, g, xs[..|xs| - 1]); }
  }

  // ----- there and back

  lemma SetText(y: Yaml, cs: seq<LoggerConfig>) returns (nodes: seq<Node>)
    requires Lawful(y)
    ensures y.index(y.load(SetToText(y, cs))) == Some(nodes) && |nodes| == |cs|
    ensures forall i :: 0 <= i < |cs| ==> y.emit(nodes[i]) == Inner(LoggerCasts(y), Atom(cs[i]))
  {
    var v := Members(Atoms(cs));
    LoadedItems(LoggerCasts(y), v);
    nodes := Nodes(LoggerCasts(y), v, v.vs, |v.vs|);
  }

  /** What one configuration becomes inside the set's text and back: it keeps its name, and is the configuration
      itself exactly if that is stable. */
  lemma CameBackIff(y: Yaml, c: LoggerConfig, node: Node)
    requires Lawful(y) && y.emit(node) == Inner(LoggerCasts(y), Atom(c))
    ensures var d := ReadOne(y)(node); (d.Some? ==> d.value.name == c.name) && (d == Some(c) <==> StableConfig(c))
  {
    ConfigFields(c);
    ConfigRoundTrip(y, c);
  }

  /** A list whose names are sorted reads as itself. */
  lemma NamesSorted(ds: seq<LoggerConfig>, cs: seq<LoggerConfig>)
    requires Sorted(cs) && |ds| == |cs| && forall i :: 0 <= i < |cs| ==> ds[i].name == cs[i].name
    ensures Collect(ds) == ds
  {
    CollectOfSorted(ds);
  }

  /** A set of logger configurations comes back from its own text exactly if each of them is stable. */
  lemma LoggerSetRoundTrip(y: Yaml, cs: seq<LoggerConfig>)
    requires Lawful(y) && Sorted(cs)
    ensures ReadSet(y, SetToText(y, cs)) == Some(cs) <==> AllStableConfigs(cs)
  {
    var nodes := SetText(y, cs);
    forall i | 0 <= i < |cs|
      ensures var d := ReadOne(y)(nodes[i]); (d.Some? ==> d.value.name == cs[i].name) && (d == Some(cs[i]) <==> StableConfig(cs[i]))
    {
      CameBackIff(y, cs[i], nodes[i]);
    }
    BackIff(y, cs, nodes);
  }

  lemma BackIff(y: Yaml, cs: seq<LoggerConfig>, nodes: seq<Node>)
    requires Sorted(cs) && |nodes| == |cs|
    requires forall i :: 0 <= i < |cs| ==>
      (ReadOne(y)(nodes[i]).Some? ==> ReadOne(y)(nodes[i]).value.name == cs[i].name)
      && (ReadOne(y)(nodes[i]) == Some(cs[i]) <==> StableConfig(cs[i]))
    ensures var back := Each(ReadOne(y), nodes);
      (back.Some? && Collect(back.value) == cs) <==> AllStableConfigs(cs)
  {
    EachIff(ReadOne(y), nodes, cs);
    CollectOfSorted(cs);
    var back := Each(ReadOne(y), nodes);
    if back.Some? {
      EachIff(ReadOne(y), nodes, back.value);
      NamesSorted(back.value, cs);
    }
  }
}
