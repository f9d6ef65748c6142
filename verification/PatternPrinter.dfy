/** Which token lists a pattern can produce, and a printer that is the inverse of Parse on them. */
module PatternPrinter {
  import Chain
  import opened PatternGrammar
  import opened Sequences

  /** Percent signs stand only at the end of a literal: after one, the scan expects another or a directive. */
  predicate TrailingPercent(s: string) {
    forall i :: 0 <= i < |s| - 1 && s[i] == '%' ==> s[i + 1] == '%'
  }

  predicate PrintableToken(t: Token) {
    match t
    case Lit(text) => text != "" && TrailingPercent(text)
    case Dir(name, param) => name != "" && IsName(name) && '}' !in param
  }

  predicate Printable(ts: seq<Token>) { forall i :: 0 <= i < |ts| ==> PrintableToken(ts[i]) }

  function Chars(s: string): seq<Block> { if s == "" then [] else [Char(s[0])] + Chars(s[1..]) }

  /** What keeps a literal apart from the token after it: nothing before a directive, an empty directive
      before another literal, a lone percent sign after a final literal that ends in one. */
  function Separator(text: string, rest: seq<Token>): seq<Block>
    requires text != ""
  {
    if rest == [] then (if text[|text| - 1] == '%' then [Bare("")] else [])
    else if rest[0].Dir? then []
    else [Braced("", "")]
  }

  /** Whether the token after a directive cannot be taken for a part of it. */
  predicate Stops(rest: seq<Token>) {
    rest == [] || rest[0].Dir? || (rest[0].text != "" && !NameChar(rest[0].text[0]) && rest[0].text[0] != '{')
  }

  function TokenBlocks(t: Token, rest: seq<Token>): seq<Block>
    requires PrintableToken(t)
  {
    match t
    case Lit(text) => Chars(text) + Separator(text, rest)
    case Dir(name, param) => [if param == "" && Stops(rest) then Bare(name) else Braced(name, param)]
  }

  function Blocks(ts: seq<Token>): seq<Block>
    requires Printable(ts)
  {
    if ts == [] then [] else TokenBlocks(ts[0], ts[1..]) + Blocks(ts[1..])
  }

  function Print(ts: seq<Token>): string
    requires Printable(ts)
  {
    Spell(Blocks(ts), "")
  }

  // ----- joining block lists

  lemma SpellAppend(a: seq<Block>, b: seq<Block>, after: string)
    ensures Spell(a + b, after) == Spell(a, Spell(b, after))
  {
    Chain.SpellAppend(a, b, Text, after);
  }

  lemma GrammarAppend(a: seq<Block>, b: seq<Block>, after: string)
    ensures Grammar(a + b, after) <==> Grammar(a, Spell(b, after)) && Grammar(b, after)
  {
    Chain.AllowedAppend(a, b, Text, Fits, after);
  }

  lemma {:induction false} CharsGrammar(s: string, after: string)
    requires TrailingPercent(s)
    requires s != "" && s[|s| - 1] == '%' ==> after != "" && after[0] == '%'
    ensures Grammar(Chars(s), after) && Spell(Chars(s), after) == s + after
  {
    if s != "" {
      var rest := s[1..];
      assert forall i :: 0 <= i < |rest| ==> rest[i] == s[i + 1];
      CharsGrammar(rest, after);
      GrammarCons(Char(s[0]), Chars(rest), after);
      assert s + after == [s[0]] + (rest + after);
    } else {
      assert s + after == after;
    }
  }

  lemma {:induction false} AssembleChars(s: string, bs: seq<Block>, pending: string)
    ensures Assemble(Chars(s) + bs, pending) == Assemble(bs, pending + s)
  {
    if s == "" {
      assert Chars(s) + bs == bs && pending + s == pending;
    } else {
      var rest := Chars(s[1..]) + bs;
      assert Chars(s) + bs == [Char(s[0])] + rest;
      assert ([Char(s[0])] + rest)[1..] == rest;
      AssembleChars(s[1..], bs, pending + [s[0]]);
      assert pending + [s[0]] + s[1..] == pending + s;
    }
  }

  // ----- print, then parse

  lemma OneBlock(b: Block, after: string)
    ensures Grammar([b], after) <==> Fits(b, after)
    ensures Spell([b], after) == Text(b) + after
  {
    GrammarCons(b, [], after);
    assert [b] + [] == [b];
  }

  /** How the text of a printed list begins. */
  lemma PrintHead(ts: seq<Token>)
    requires Printable(ts)
    ensures ts == [] ==> Print(ts) == ""
    ensures ts != [] ==> Print(ts) != "" && Print(ts)[0] == if ts[0].Dir? then '%' else ts[0].text[0]
  {
    if ts != [] {
      var bs := TokenBlocks(ts[0], ts[1..]);
      SpellAppend(bs, Blocks(ts[1..]), "");
      if ts[0].Lit? { assert bs[0] == Char(ts[0].text[0]); }
    }
  }

  lemma LiteralPrints(text: string, rest: seq<Token>)
    requires PrintableToken(Lit(text)) && Printable(rest)
    ensures Grammar(TokenBlocks(Lit(text), rest), Print(rest))
    ensures Assemble(TokenBlocks(Lit(text), rest) + Blocks(rest), "") == [Lit(text)] + Assemble(Blocks(rest), "")
  {
    var sep, tail := Separator(text, rest), Blocks(rest);
    SeparatorFits(text, rest);
    CharsGrammar(text, Spell(sep, Print(rest)));
    GrammarAppend(Chars(text), sep, Print(rest));
    assert Chars(text) + sep + tail == Chars(text) + (sep + tail);
    AssembleChars(text, sep + tail, "");
    assert "" + text == text;
    SeparatorFlushes(text, rest);
  }

  lemma SeparatorFits(text: string, rest: seq<Token>)
    requires text != "" && Printable(rest)
    ensures Grammar(Separator(text, rest), Print(rest))
    ensures text[|text| - 1] == '%' ==>
      Spell(Separator(text, rest), Print(rest)) != "" && Spell(Separator(text, rest), Print(rest))[0] == '%'
  {
    PrintHead(rest);
    var sep := Separator(text, rest);
    if sep != [] { OneBlock(sep[0], Print(rest)); }
  }

  /** A literal ends as soon as a directive is read. */
  lemma FlushedByDirective(b: Block, tail: seq<Block>, text: string)
    requires (b.Bare? || b.Braced?) && text != ""
    ensures Assemble([b] + tail, text) == [Lit(text)] + Assemble([b] + tail, "")
    ensures b.name == "" ==> Assemble([b] + tail, "") == Assemble(tail, "")
  {
    assert ([b] + tail)[1..] == tail;
    var named := Named(b.name, if b.Bare? then "" else b.param);
    Assoc([Lit(text)], named, Assemble(tail, ""));
    assert Flush("") + named == named && [] + Assemble(tail, "") == Assemble(tail, "");
  }

  /** The pending literal comes out as soon as the separator or the next directive is read. */
  lemma SeparatorFlushes(text: string, rest: seq<Token>)
    requires text != "" && Printable(rest)
    ensures Assemble(Separator(text, rest) + Blocks(rest), text) == [Lit(text)] + Assemble(Blocks(rest), "")
  {
    var sep, tail := Separator(text, rest), Blocks(rest);
    if sep != [] {
      assert sep == [sep[0]];
      FlushedByDirective(sep[0], tail, text);
    } else if rest != [] {
      var b := TokenBlocks(rest[0], rest[1..])[0];
      assert sep + tail == tail && tail == [b] + Blocks(rest[1..]);
      FlushedByDirective(b, Blocks(rest[1..]), text);
    } else {
      assert sep + tail == [];
    }
  }

  lemma DirectivePrints(name: string, param: string, rest: seq<Token>)
    requires PrintableToken(Dir(name, param)) && Printable(rest)
    ensures Grammar(TokenBlocks(Dir(name, param), rest), Print(rest))
    ensures Assemble(TokenBlocks(Dir(name, param), rest) + Blocks(rest), "") ==
      [Dir(name, param)] + Assemble(Blocks(rest), "")
  {
    PrintHead(rest);
    var b, tail := TokenBlocks(Dir(name, param), rest)[0], Blocks(rest);
    OneBlock(b, Print(rest));
    assert ([b] + tail)[1..] == tail;
    assert Flush("") + Named(name, param) == [Dir(name, param)];
  }

  lemma {:induction false} BlocksSpellTokens(ts: seq<Token>)
    requires Printable(ts)
    ensures Grammar(Blocks(ts), "") && Assemble(Blocks(ts), "") == ts && NoneUnclosed(Blocks(ts))
  {
    if ts != [] {
      var rest := ts[1..];
      BlocksSpellTokens(rest);
      match ts[0] {
        case Lit(text) => LiteralPrints(text, rest);
        case Dir(name, param) => DirectivePrints(name, param, rest);
      }
      GrammarAppend(TokenBlocks(ts[0], rest), Blocks(rest), "");
      assert ts == [ts[0]] + rest;
      TokenBlocksClosed(ts[0], rest);
    }
  }

  lemma {:induction false} CharsClosed(s: string)
    ensures forall i :: 0 <= i < |Chars(s)| ==> Chars(s)[i].Char?
  {
    if s != "" { CharsClosed(s[1..]); }
  }

  lemma TokenBlocksClosed(t: Token, rest: seq<Token>)
    requires PrintableToken(t)
    ensures NoneUnclosed(TokenBlocks(t, rest))
  {
    if t.Lit? { CharsClosed(t.text); }
  }

  /** Printing and parsing gives the tokens back, without error. */
  lemma PrintParse(ts: seq<Token>)
    requires Printable(ts)
    ensures Parse(Print(ts)) == Parsed(ts, false)
  {
    BlocksSpellTokens(ts);
    GrammarIsUnambiguous(Blocks(ts));
    ErrorIffUnclosed(Print(ts));
  }

  // ----- parse, then print

  /** A pending literal that may still grow: each percent sign is followed by one, the last by `after`. */
  ghost predicate Growing(pending: string, after: string) {
    TrailingPercent(pending)
    && (pending != "" && pending[|pending| - 1] == '%' ==> after != "" && after[0] == '%')
  }

  lemma GrowingChar(pending: string, c: char, after: string)
    requires Growing(pending, [c] + after) && (c == '%' ==> after != "" && after[0] == '%')
    ensures Growing(pending + [c], after)
  {
  }

  lemma {:induction false} AssemblePrintable(bs: seq<Block>, pending: string)
    requires Grammar(bs, "") && NoneUnclosed(bs) && Growing(pending, Spell(bs, ""))
    ensures Printable(Assemble(bs, pending))
  {
    if bs != [] {
      var b, rest := bs[0], bs[1..];
      assert bs == [b] + rest;
      GrammarCons(b, rest, "");
      assert NoneUnclosed(rest);
      assert Printable(Flush(pending));
      if b.Char? {
        GrowingChar(pending, b.c, Spell(rest, ""));
        AssemblePrintable(rest, pending + [b.c]);
      } else {
        AssemblePrintable(rest, "");
        assert Printable(Named(b.name, if b.Bare? then "" else b.param));
      }
    }
  }

  /** The token lists that some pattern yields without error are exactly the printable ones. */
  lemma ImageOfParse(ts: seq<Token>)
    ensures Printable(ts) <==> exists s :: Parse(s) == Parsed(ts, false)
  {
    if Printable(ts) {
      PrintParse(ts);
    }
    forall s | Parse(s) == Parsed(ts, false) ensures Printable(ts) {
      LexObeysGrammar(s);
      ErrorIffUnclosed(s);
      AssemblePrintable(Lex(s), "");
    }
  }

  /** A pattern without error and its canonical form read the same. */
  lemma CanonicalPattern(s: string)
    requires !Parse(s).error
    ensures Printable(Parse(s).tokens) && Parse(Print(Parse(s).tokens)) == Parse(s)
  {
    ImageOfParse(Parse(s).tokens);
    PrintParse(Parse(s).tokens);
  }
}
