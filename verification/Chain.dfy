/** Sequences of pieces of text in which each piece is constrained by the text that follows it. */
module Chain {
  import opened Sequences

  /** The text of the pieces in front of the text `after`. */
  function Spell<B>(bs: seq<B>, text: B -> string, after: string): string {
    if bs == [] then after else text(bs[0]) + Spell(bs[1..], text, after)
  }

  lemma {:induction false} SpellBefore<B>(bs: seq<B>, text: B -> string, after: string)
    ensures Spell(bs, text, after) == Spell(bs, text, "") + after
  {
    if bs == [] {
      assert "" + after == after;
    } else {
      SpellBefore(bs[1..], text, after);
      Assoc(text(bs[0]), Spell(bs[1..], text, ""), after);
    }
  }

  lemma SpellSnoc<B>(bs: seq<B>, b: B, text: B -> string)
    ensures Spell(bs + [b], text, "") == Spell(bs, text, "") + text(b)
  {
    SpellAppend(bs, [b], text, "");
    assert Spell([b], text, "") == text(b) + "" == text(b);
    SpellBefore(bs, text, text(b));
  }

  ghost predicate Allowed<B>(bs: seq<B>, text: B -> string, fits: (B, string) -> bool, after: string) {
    bs == [] || (fits(bs[0], Spell(bs[1..], text, after)) && Allowed(bs[1..], text, fits, after))
  }

  lemma {:induction false} SpellAppend<B>(a: seq<B>, b: seq<B>, text: B -> string, after: string)
    ensures Spell(a + b, text, after) == Spell(a, text, Spell(b, text, after))
  {
    if a == [] {
      assert a + b == b;
    } else {
      SpellAppend(a[1..], b, text, after);
      assert (a + b)[1..] == a[1..] + b;
    }
  }

  lemma {:induction false} AllowedAppend<B>(a: seq<B>, b: seq<B>, text: B -> string, fits: (B, string) -> bool, after: string)
    ensures Allowed(a + b, text, fits, after) <==>
      Allowed(a, text, fits, Spell(b, text, after)) && Allowed(b, text, fits, after)
  {
    if a == [] {
      assert a + b == b;
    } else {
      AllowedAppend(a[1..], b, text, fits, after);
      SpellAppend(a[1..], b, text, after);
      assert (a + b)[1..] == a[1..] + b;
    }
  }
}
