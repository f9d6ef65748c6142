/** The buffer form of rendering: every item grows the string by hand, at most once, and copies to `pos`. */
module BufferRendering {
  import Chain
  import opened PatternGrammar
  import opened Formatter
  import opened Rendering
  import opened Sequences

  /** A string with a write position, or the outcome of a copy past the end of the string. */
  datatype Buf = Buf(str: string, pos: nat) | Overrun

  /** The items that append their text to the string before they look at its size. */
  predicate Appends(item: Item) { item.Literal? || item.FileName? }

  /** `std::string::resize`. */
  function Resized(str: string, size: nat): (r: string)
    ensures |r| == size
  {
    if size <= |str| then str[..size] else str + seq(size - |str|, _ => '\0')
  }

  function Grown(str: string, needed: nat): string {
    if needed > |str| then Resized(str, 2 * |str|) else str
  }

  /** `memcpy` of `cur` to position `pos`. */
  function Copied(str: string, pos: nat, cur: string): Buf {
    if pos + |cur| > |str| then Overrun
    else Buf(str[..pos] + cur + str[pos + |cur|..], pos + |cur|)
  }

  function Put(b: Buf, item: Item, e: Event): Buf {
    if b.Overrun? then Overrun
    else
      var cur := Field(item, e);
      var str := if Appends(item) then b.str + cur else b.str;
      Copied(Grown(str, |cur| + b.pos), b.pos, cur)
  }

  function PutIn(e: Event): (Buf, Item) -> Buf { (b, item) => Put(b, item, e) }

  function PutAll(b: Buf, items: seq<Item>, e: Event): Buf { Fold(PutIn(e), b, items) }

  /** What the stream form writes for a list of items. */
  function RenderItems(items: seq<Item>, e: Event): string {
    Chain.Spell(items, FieldIn(e), "")
  }

  function FieldIn(e: Event): Item -> string { item => Field(item, e) }

  // ----- the two Format methods

  /** `Format(event, ofs)`. */
  method FormatStream(f: LogFormatter, e: Event) returns (out: string)
    ensures out == RenderItems(f.m_items, e)
  {
    out := "";
    for k := 0 to |f.m_items|
      invariant out == RenderItems(f.m_items[..k], e)
    {
      assert f.m_items[..k + 1] == f.m_items[..k] + [f.m_items[k]];
      Chain.SpellSnoc(f.m_items[..k], f.m_items[k], FieldIn(e));
      out := out + Field(f.m_items[k], e);
    }
    assert f.m_items[..|f.m_items|] == f.m_items;
  }

  /** The caller's string and position, which `Format(event, str, pos)` changes in place. */
  class LineBuffer {
    var str: string
    var pos: nat

    constructor (str0: string, pos0: nat)
      ensures str == str0 && pos == pos0
    {
      str, pos := str0, pos0;
    }

    /** One item; `ok` is false when the copy would leave the string. */
    method FormatItem(item: Item, e: Event) returns (ok: bool)
      modifies this
      ensures ok <==> Put(Buf(old(str), old(pos)), item, e).Buf?
      ensures ok ==> Buf(str, pos) == Put(Buf(old(str), old(pos)), item, e)
    {
      var cur := Field(item, e);
      if Appends(item) {
        str := str + cur;
      }
      if |cur| + pos > |str| {
        str := Resized(str, 2 * |str|);
      }
      ok := pos + |cur| <= |str|;
      if ok {
        str := str[..pos] + cur + str[pos + |cur|..];
        pos := pos + |cur|;
      }
    }

    method Format(f: LogFormatter, e: Event) returns (ok: bool)
      modifies this
      ensures ok <==> PutAll(Buf(old(str), old(pos)), f.m_items, e).Buf?
      ensures ok ==> Buf(str, pos) == PutAll(Buf(old(str), old(pos)), f.m_items, e)
      ensures f.m_items == old(f.m_items)
    {
      ok := true;
      ghost var b := Buf(str, pos);
      for k := 0 to |f.m_items|
        invariant f.m_items == old(f.m_items)
        invariant ok <==> PutAll(b, f.m_items[..k], e).Buf?
        invariant ok ==> Buf(str, pos) == PutAll(b, f.m_items[..k], e)
      {
        assert f.m_items[..k + 1][..k] == f.m_items[..k];
        if ok {
          ok := FormatItem(f.m_items[k], e);
        }
      }
      assert f.m_items[..|f.m_items|] == f.m_items;
    }
  }

  // ----- one item

  /** Exactly when one copy stays in range, and how large the string is then: a literal and a file name are
      always in range and lengthen the string by their own text; every other item is in range exactly if it
      reaches no further than twice the string, which it doubles if it reaches past its end. */
  lemma PutInRange(str: string, pos: nat, item: Item, e: Event)
    requires pos <= |str|
    ensures var b, n := Put(Buf(str, pos), item, e), |Field(item, e)|;
      && (b.Buf? <==> item.Literal? || item.FileName? || pos + n <= 2 * |str|)
      && (b.Buf? ==>
            && b.pos == pos + n <= |b.str|
            && |b.str| == if item.Literal? || item.FileName? then |str| + n
                          else if pos + n > |str| then 2 * |str| else |str|)
  {
  }

  /** Each character afterwards: the text stands at the position, the rest is what it was; what the string has
      gained is the end of the appended text, or null characters. */
  lemma PutCharacters(str: string, pos: nat, item: Item, e: Event, k: nat)
    requires pos <= |str| && Put(Buf(str, pos), item, e).Buf? && k < |Put(Buf(str, pos), item, e).str|
    ensures var text := Field(item, e);
      Put(Buf(str, pos), item, e).str[k] ==
      if pos <= k < pos + |text| then text[k - pos]
      else if k < |str| then str[k]
      else if (item.Literal? || item.FileName?) && k - |str| < |text| then text[k - |str|] else '\0'
  {
  }

  /** What one item in range does: the text goes to `pos`, nothing below it changes, and the string stays
      within its old size plus twice the distance moved, or within twice the new position. */
  lemma PutWrites(str: string, pos: nat, item: Item, e: Event)
    requires pos <= |str| && Put(Buf(str, pos), item, e).Buf?
    ensures var b := Put(Buf(str, pos), item, e);
      var cur := Field(item, e);
      && b.pos == pos + |cur| <= |b.str| && |str| <= |b.str|
      && b.str[..b.pos] == str[..pos] + cur
      && (|b.str| <= |str| + |cur| || |b.str| <= 2 * b.pos)
  {
    var cur := Field(item, e);
    var s1 := if Appends(item) then str + cur else str;
    var s2 := Grown(s1, |cur| + pos);
    assert s2[..pos] == str[..pos];
    assert Put(Buf(str, pos), item, e).str[..pos + |cur|] == s2[..pos] + cur;
  }

  // ----- all items

  /** From the string `str` and the position `pos` on, exactly `text` has been written, in range, and the
      string has grown by no more than twice the position. */
  ghost predicate Wrote(b: Buf, str: string, pos: nat, text: string)
    requires pos <= |str|
  {
    && b.Buf?
    && b.pos == pos + |text| <= |b.str|
    && b.str[..b.pos] == str[..pos] + text
    && |str| <= |b.str| <= |str| + 2 * b.pos
  }

  lemma WroteMore(b: Buf, str: string, pos: nat, text: string, item: Item, e: Event)
    requires pos <= |str| && Wrote(b, str, pos, text) && Put(b, item, e).Buf?
    ensures Wrote(Put(b, item, e), str, pos, text + Field(item, e))
  {
    PutWrites(b.str, b.pos, item, e);
    Assoc(str[..pos], text, Field(item, e));
  }

  lemma LastItem(b: Buf, front: seq<Item>, item: Item, e: Event)
    ensures PutAll(b, front + [item], e) == Put(PutAll(b, front, e), item, e)
    ensures RenderItems(front + [item], e) == RenderItems(front, e) + Field(item, e)
  {
    FoldSnoc(PutIn(e), b, front, item);
    Chain.SpellSnoc(front, item, FieldIn(e));
  }

  lemma WroteNext(str: string, pos: nat, front: seq<Item>, item: Item, e: Event)
    requires pos <= |str| && Wrote(PutAll(Buf(str, pos), front, e), str, pos, RenderItems(front, e))
    requires PutAll(Buf(str, pos), front + [item], e).Buf?
    ensures Wrote(PutAll(Buf(str, pos), front + [item], e), str, pos, RenderItems(front + [item], e))
  {
    LastItem(Buf(str, pos), front, item, e);
    WroteMore(PutAll(Buf(str, pos), front, e), str, pos, RenderItems(front, e), item, e);
  }

  lemma WroteNothing(str: string, pos: nat, e: Event)
    requires pos <= |str|
    ensures Wrote(PutAll(Buf(str, pos), [], e), str, pos, RenderItems([], e))
  {
    assert str[..pos] + "" == str[..pos];
  }

  lemma FrontInRange(b: Buf, front: seq<Item>, item: Item, e: Event)
    requires PutAll(b, front + [item], e).Buf?
    ensures PutAll(b, front, e).Buf?
  {
    LastItem(b, front, item, e);
  }

  /** The buffer form refines the stream form: whenever no copy leaves the string, what was below the old
      position stays, and what lies between the old position and the new one is the stream's output. The string
      never grows beyond its first size plus twice the new position. */
  lemma {:induction false} BufferRefinesStream(str: string, pos: nat, items: seq<Item>, e: Event)
    requires pos <= |str| && PutAll(Buf(str, pos), items, e).Buf?
    ensures Wrote(PutAll(Buf(str, pos), items, e), str, pos, RenderItems(items, e))
  {
    if items == [] {
      WroteNothing(str, pos, e);
    } else {
      var n := |items| - 1;
      assert items == items[..n] + [items[n]];
      FrontInRange(Buf(str, pos), items[..n], items[n], e);
      BufferRefinesStream(str, pos, items[..n], e);
      WroteNext(str, pos, items[..n], items[n], e);
    }
  }

  // ----- when no copy leaves the string

  /** Whether a string of the given size has room for the items, reckoned from the lengths of their fields. */
  predicate HasRoom(items: seq<Item>, e: Event, size: nat, pos: nat) {
    items == [] ||
    var n := |Field(items[0], e)|;
    if items[0].Literal? || items[0].FileName? then HasRoom(items[1..], e, size + n, pos + n)
    else pos + n <= 2 * size && HasRoom(items[1..], e, if pos + n > size then 2 * size else size, pos + n)
  }

  lemma {:induction false} OverrunStays(items: seq<Item>, e: Event)
    ensures PutAll(Overrun, items, e) == Overrun
  {
    if items != [] { OverrunStays(items[..|items| - 1], e); }
  }

  /** Room for one item and the rest: the item's copy stays in range, and the rest has room after it. */
  lemma RoomForFirst(str: string, pos: nat, item: Item, rest: seq<Item>, e: Event)
    requires pos <= |str|
    ensures var b := Put(Buf(str, pos), item, e);
      HasRoom([item] + rest, e, |str|, pos) <==> b.Buf? && b.pos <= |b.str| && HasRoom(rest, e, |b.str|, b.pos)
  {
    assert ([item] + rest)[1..] == rest;
    PutInRange(str, pos, item, e);
  }

  lemma NextHasRoom(b: Buf, item: Item, rest: seq<Item>, e: Event)
    requires b.Buf? && b.pos <= |b.str|
    requires var b1 := Put(b, item, e);
      if b1.Buf? && b1.pos <= |b1.str| then PutAll(b1, rest, e).Buf? <==> HasRoom(rest, e, |b1.str|, b1.pos)
      else PutAll(b1, rest, e).Overrun?
    ensures PutAll(b, [item] + rest, e).Buf? <==> HasRoom([item] + rest, e, |b.str|, b.pos)
  {
    FoldCons(PutIn(e), b, item, rest);
    RoomForFirst(b.str, b.pos, item, rest, e);
  }

  /** No copy of the whole call leaves the string exactly if there is room, which can be reckoned beforehand. */
  lemma {:induction false} InRangeIffRoom(b: Buf, items: seq<Item>, e: Event)
    requires b.Buf? && b.pos <= |b.str|
    ensures PutAll(b, items, e).Buf? <==> HasRoom(items, e, |b.str|, b.pos)
    decreases |items|
  {
    if items != [] {
      var item, rest := items[0], items[1..];
      assert items == [item] + rest;
      var b1 := Put(b, item, e);
      if b1.Buf? {
        PutInRange(b.str, b.pos, item, e);
        InRangeIffRoom(b1, rest, e);
      } else {
        OverrunStays(rest, e);
      }
      NextHasRoom(b, item, rest, e);
    }
  }

  /** Every field but literals and file names is no longer than the string the caller starts with. */
  ghost predicate FieldsFit(items: seq<Item>, e: Event, size: nat) {
    forall k :: 0 <= k < |items| && !items[k].Literal? && !items[k].FileName? ==> |Field(items[k], e)| <= size
  }

  /** In particular there is room if no such field is longer than the string at the start. */
  lemma {:induction false} FittingFieldsHaveRoom(items: seq<Item>, e: Event, start: nat, size: nat, pos: nat)
    requires FieldsFit(items, e, start) && start <= size && pos <= size
    ensures HasRoom(items, e, size, pos)
    decreases |items|
  {
    if items != [] {
      var n, rest := |Field(items[0], e)|, items[1..];
      assert FieldsFit(rest, e, start) by { assert forall k :: 0 <= k < |rest| ==> rest[k] == items[k + 1]; }
      if items[0].Literal? || items[0].FileName? {
        FittingFieldsHaveRoom(rest, e, start, size + n, pos + n);
      } else {
        FittingFieldsHaveRoom(rest, e, start, if pos + n > size then 2 * size else size, pos + n);
      }
    }
  }

  /** An empty string cannot be grown by doubling: any first field that is neither literal nor file name overruns
      it. */
  lemma EmptyBufferOverruns(item: Item, e: Event)
    requires !item.Literal? && !item.FileName? && Field(item, e) != ""
    ensures Put(Buf("", 0), item, e).Overrun?
  {
    PutInRange("", 0, item, e);
  }

  // ----- both forms against the meaning of the pattern

  lemma {:induction false} ItemsRenderTokens(ts: seq<Token>, e: Event)
    ensures RenderItems(ItemsOf(ts), e) == RenderTokens(ts, e)
  {
    if ts != [] {
      ItemsRenderTokens(ts[1..], e);
      assert ItemsOf(ts)[1..] == ItemsOf(ts[1..]) && ItemsOf(ts)[0] == ItemOf(ts[0]);
    }
  }

  /** A formatter built from a pattern writes the pattern's rendering in both forms, in the buffer form exactly
      if there is room. */
  lemma BothFormsRender(pattern: string, str: string, pos: nat, e: Event)
    requires pos <= |str|
    ensures RenderItems(NewItems(pattern), e) == Render(pattern, e)
    ensures var b := PutAll(Buf(str, pos), NewItems(pattern), e);
      if HasRoom(NewItems(pattern), e, |str|, pos) then Wrote(b, str, pos, Render(pattern, e)) else b.Overrun?
  {
    ItemsRenderTokens(Parse(pattern).tokens, e);
    InRangeIffRoom(Buf(str, pos), NewItems(pattern), e);
    if HasRoom(NewItems(pattern), e, |str|, pos) { BufferRefinesStream(str, pos, NewItems(pattern), e); }
  }
}
