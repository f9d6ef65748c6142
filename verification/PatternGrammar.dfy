/** The pattern language of LogFormatter: what a pattern is made of, independent of how it is scanned. */
module PatternGrammar {
  import Chain
  import opened Letters
  import opened Sequences

  /** One piece of a pattern: a literal character, a directive without and with a parameter, and a directive
      whose brace is never closed. */
  datatype Block =
    | Char(c: char)
    | Bare(name: string)
    | Braced(name: string, param: string)
    | Unclosed(name: string, param: string)

  /** What Parse collects: literal text (type 0) or a directive with its parameter (type 1). */
  datatype Token = Lit(text: string) | Dir(name: string, param: string)

  datatype Parsed = Parsed(tokens: seq<Token>, error: bool)

  const PATTERN_ERROR := "<<pattern_error>>"

  predicate IsAlpha(c: char) { 'a' <= c <= 'z' || 'A' <= c <= 'Z' }

  /** The characters the scan takes into a directive's name: a closing brace outside a parameter is one. */
  predicate NameChar(c: char) { IsAlpha(c) || c == '}' }

  /** The characters of a name, written out. */
  lemma NameCharacters(c: char)
    ensures NameChar(c) <==> c in CAPITALS || c in SMALL || c == '}'
  {
    CapitalRange(c);
    SmallRange(c);
  }

  predicate IsName(s: string) { forall i :: 0 <= i < |s| ==> NameChar(s[i]) }

  function Text(b: Block): (t: string)
    ensures t != ""
  {
    match b
    case Char(c) => [c]
    case Bare(n) => ['%'] + n
    case Braced(n, p) => ['%'] + n + ['{'] + p + ['}']
    case Unclosed(n, p) => ['%'] + n + ['{'] + p
  }

  /** The text of a block list in front of the text `after`. */
  function Spell(bs: seq<Block>, after: string): string {
    Chain.Spell(bs, Text, after)
  }

  // ----- the grammar

  /** Whether block `b` may stand before the text `after`. */
  ghost predicate Fits(b: Block, after: string) {
    match b
    case Char(c) => c == '%' ==> after != "" && after[0] == '%'
    case Bare(n) =>
      IsName(n)
      && (after != "" ==> !NameChar(after[0]) && after[0] != '{' && (n == "" ==> after[0] != '%'))
    case Braced(n, p) => IsName(n) && '}' !in p
    case Unclosed(n, p) => IsName(n) && '}' !in p && after == ""
  }

  ghost predicate Grammar(bs: seq<Block>, after: string) {
    Chain.Allowed(bs, Text, Fits, after)
  }

  lemma GrammarCons(b: Block, bs: seq<Block>, after: string)
    ensures Spell([b] + bs, after) == Text(b) + Spell(bs, after)
    ensures Grammar([b] + bs, after) <==> Fits(b, Spell(bs, after)) && Grammar(bs, after)
  {
    assert ([b] + bs)[1..] == bs;
  }

  // ----- the reading of a pattern

  function NameLength(s: string): (k: nat)
    ensures k <= |s| && IsName(s[..k]) && (k < |s| ==> !NameChar(s[k]))
  {
    if s == "" || !NameChar(s[0]) then 0 else
      var k := NameLength(s[1..]);
      assert s[..k + 1] == [s[0]] + s[1..][..k];
      k + 1
  }

  /** The position of the first closing brace, or the length. */
  function CloseAt(s: string): (k: nat)
    ensures k <= |s| && '}' !in s[..k] && (k < |s| ==> s[k] == '}')
  {
    if s == "" || s[0] == '}' then 0 else
      var k := CloseAt(s[1..]);
      assert s[..k + 1] == [s[0]] + s[1..][..k];
      k + 1
  }

  /** A directive's name has been read; `rest` is what follows it. */
  function AfterName(name: string, rest: string): Block {
    if rest == "" || rest[0] != '{' then Bare(name)
    else
      var e := CloseAt(rest[1..]);
      if 1 + e == |rest| then Unclosed(name, rest[1..]) else Braced(name, rest[1..][..e])
  }

  /** The directive that starts at the head of `s` (a `%` not followed by another). */
  function Directive(s: string): (b: Block)
    requires s != "" && s[0] == '%'
    ensures !b.Char? && |Text(b)| <= |s|
  {
    var k := NameLength(s[1..]);
    AfterName(s[1..][..k], s[1..][k..])
  }

  predicate LiteralHead(s: string)
    requires s != ""
  {
    s[0] != '%' || (|s| > 1 && s[1] == '%')
  }

  function Lex(s: string): seq<Block>
    decreases |s|
  {
    if s == "" then []
    else
      var b := if LiteralHead(s) then Char(s[0]) else Directive(s);
      [b] + Lex(s[|Text(b)|..])
  }

  // ----- the reading is the grammar's only one

  lemma BareFits(name: string, rest: string)
    requires IsName(name) && (rest != "" ==> !NameChar(rest[0]) && rest[0] != '{')
    requires name == "" && rest != "" ==> rest[0] != '%'
    ensures ['%'] + name + rest == Text(Bare(name)) + rest && Fits(Bare(name), rest)
  {
  }

  lemma BracedFits(name: string, param: string, after: string)
    requires IsName(name) && '}' !in param
    ensures ['%'] + name + (['{'] + (param + (['}'] + after))) == Text(Braced(name, param)) + after
    ensures Fits(Braced(name, param), after)
  {
    Assoc(['%'] + name, ['{'], param + (['}'] + after));
    Assoc(['%'] + name + ['{'], param, ['}'] + after);
    Assoc(['%'] + name + ['{'] + param, ['}'], after);
  }

  lemma UnclosedFits(name: string, param: string)
    requires IsName(name) && '}' !in param
    ensures ['%'] + name + (['{'] + param) == Text(Unclosed(name, param)) + "" && Fits(Unclosed(name, param), "")
  {
  }

  /** With `rest` starting with a brace: what stays unread after the parameter, if it is closed. */
  lemma BraceFits(name: string, rest: string) returns (after: string)
    requires IsName(name) && rest != "" && rest[0] == '{'
    ensures var b := AfterName(name, rest);
      !b.Char? && !b.Bare? && ['%'] + name + rest == Text(b) + after && Fits(b, after)
  {
    var tail := rest[1..];
    var e := CloseAt(tail);
    assert rest == ['{'] + tail;
    if e == |tail| {
      assert tail[..e] == tail;
      after := "";
      UnclosedFits(name, tail);
    } else {
      after := tail[e + 1..];
      assert tail == tail[..e] + (['}'] + after);
      BracedFits(name, tail[..e], after);
    }
  }

  lemma SplitAt(s: string, a: string, b: string)
    requires s == a + b
    ensures |a| <= |s| && s[|a|..] == b
  {
  }

  lemma AfterNameFits(name: string, rest: string)
    requires IsName(name) && (rest != "" ==> !NameChar(rest[0]))
    requires name == "" && rest != "" ==> rest[0] != '%'
    ensures var b := AfterName(name, rest);
      var text := ['%'] + name + rest;
      !b.Char? && |Text(b)| <= |text| && text == Text(b) + text[|Text(b)|..] && Fits(b, text[|Text(b)|..])
  {
    var b, text := AfterName(name, rest), ['%'] + name + rest;
    var after;
    if b.Bare? {
      after := rest;
      BareFits(name, rest);
    } else {
      after := BraceFits(name, rest);
    }
    SplitAt(text, Text(b), after);
  }

  lemma DirectiveFits(s: string)
    requires s != "" && s[0] == '%' && !LiteralHead(s)
    ensures var b := Directive(s); s == Text(b) + s[|Text(b)|..] && Fits(b, s[|Text(b)|..])
  {
    var k := NameLength(s[1..]);
    var name, rest := s[1..][..k], s[1..][k..];
    assert s == ['%'] + name + rest;
    AfterNameFits(name, rest);
  }

  /** The blocks of a pattern are non-empty, spell it out without gap, and obey the grammar. */
  lemma {:induction false} LexObeysGrammar(s: string)
    ensures Spell(Lex(s), "") == s && Grammar(Lex(s), "")
    decreases |s|
  {
    if s != "" {
      var b := if LiteralHead(s) then Char(s[0]) else Directive(s);
      var rest := s[|Text(b)|..];
      if !LiteralHead(s) { DirectiveFits(s); }
      assert s == Text(b) + rest;
      LexObeysGrammar(rest);
      assert Lex(s) == [b] + Lex(rest) && Lex(s)[1..] == Lex(rest);
    }
  }

  lemma NameLengthUnique(n: string, rest: string)
    requires IsName(n) && (rest != "" ==> !NameChar(rest[0]))
    ensures NameLength(n + rest) == |n|
  {
    var s, k := n + rest, NameLength(n + rest);
    assert forall i :: 0 <= i < |n| ==> s[i] == n[i];
    assert forall i :: 0 <= i < k ==> s[..k][i] == s[i];
    assert rest != "" ==> s[|n|] == rest[0];
  }

  lemma CloseAtUnique(p: string, rest: string)
    requires '}' !in p && (rest != "" ==> rest[0] == '}')
    ensures CloseAt(p + rest) == |p|
  {
    var s, k := p + rest, CloseAt(p + rest);
    assert forall i :: 0 <= i < |p| ==> s[i] == p[i];
    assert forall i :: 0 <= i < k ==> s[..k][i] == s[i];
    assert rest != "" ==> s[|p|] == rest[0];
  }

  lemma NameUnique(n: string, rest: string)
    requires IsName(n) && (rest != "" ==> !NameChar(rest[0]))
    ensures Directive(['%'] + n + rest) == AfterName(n, rest)
  {
    var s := ['%'] + n + rest;
    assert s[1..] == n + rest;
    NameLengthUnique(n, rest);
    assert s[1..][..|n|] == n && s[1..][|n|..] == rest;
  }

  /** An opening brace; `tail` is empty or starts with the closing one. */
  lemma BraceUnique(n: string, p: string, tail: string)
    requires '}' !in p && (tail != "" ==> tail[0] == '}')
    ensures AfterName(n, ['{'] + p + tail) == if tail == "" then Unclosed(n, p) else Braced(n, p)
  {
    var rest := ['{'] + p + tail;
    assert rest[1..] == p + tail;
    CloseAtUnique(p, tail);
    assert rest[1..][..|p|] == p;
  }

  lemma BracedUnique(n: string, p: string, tail: string)
    requires IsName(n) && '}' !in p && (tail != "" ==> tail[0] == '}')
    ensures Directive(['%'] + n + ['{'] + p + tail) == if tail == "" then Unclosed(n, p) else Braced(n, p)
  {
    var rest := ['{'] + p + tail;
    assert ['%'] + n + ['{'] + p + tail == ['%'] + n + rest;
    NameUnique(n, rest);
    BraceUnique(n, p, tail);
  }

  lemma DirectiveUnique(b: Block, after: string)
    requires !b.Char? && Fits(b, after)
    ensures Directive(Text(b) + after) == b
  {
    match b
    case Bare(n) => NameUnique(n, after);
    case Braced(n, p) =>
      assert Text(b) + after == ['%'] + n + ['{'] + p + (['}'] + after);
      BracedUnique(n, p, ['}'] + after);
    case Unclosed(n, p) =>
      assert Text(b) + after == ['%'] + n + ['{'] + p + "";
      BracedUnique(n, p, "");
  }

  lemma DirectiveHead(b: Block, after: string)
    requires !b.Char? && Fits(b, after)
    ensures !LiteralHead(Text(b) + after)
  {
    var s := Text(b) + after;
    assert |s| > 1 ==> s[1] == if b.name != "" then b.name[0] else if b.Bare? then after[0] else '{';
  }

  /** A block that may stand in front of a text is what is read there first. */
  lemma LexBlock(b: Block, after: string)
    requires Fits(b, after)
    ensures Lex(Text(b) + after) == [b] + Lex(after)
  {
    SplitAt(Text(b) + after, Text(b), after);
    if b.Char? {
      assert Text(b) + after == [b.c] + after;
    } else {
      DirectiveUnique(b, after);
      DirectiveHead(b, after);
    }
  }

  lemma LexCons(b: Block, bs: seq<Block>)
    requires Fits(b, Spell(bs, "")) && Lex(Spell(bs, "")) == bs
    ensures Lex(Spell([b] + bs, "")) == [b] + bs
  {
    GrammarCons(b, bs, "");
    LexBlock(b, Spell(bs, ""));
  }

  /** Any block list that obeys the grammar is what its own text reads as. */
  lemma {:induction false} GrammarIsUnambiguous(bs: seq<Block>)
    requires Grammar(bs, "")
    ensures Lex(Spell(bs, "")) == bs
  {
    if bs != [] {
      GrammarIsUnambiguous(bs[1..]);
      LexCons(bs[0], bs[1..]);
      assert bs == [bs[0]] + bs[1..];
    }
  }

  /** Both directions at once. */
  lemma LexIffGrammar(s: string, bs: seq<Block>)
    ensures bs == Lex(s) <==> Spell(bs, "") == s && Grammar(bs, "")
  {
    LexObeysGrammar(s);
    if Grammar(bs, "") { GrammarIsUnambiguous(bs); }
  }

  lemma SpellNonempty(bs: seq<Block>)
    ensures bs != [] ==> Spell(bs, "") != ""
  {
  }

  /** An unclosed directive can only be the last block. */
  lemma {:induction false} UnclosedIsLast(bs: seq<Block>, i: nat)
    requires Grammar(bs, "") && i < |bs| && bs[i].Unclosed?
    ensures i == |bs| - 1
  {
    if i == 0 {
      SpellNonempty(bs[1..]);
    } else {
      UnclosedIsLast(bs[1..], i - 1);
    }
  }

  // ----- from blocks to tokens

  function Flush(pending: string): seq<Token> { if pending == "" then [] else [Lit(pending)] }

  function Named(name: string, param: string): seq<Token> { if name == "" then [] else [Dir(name, param)] }

  /** Literal characters gather until a directive ends; an unclosed directive leaves them pending. */
  function Assemble(bs: seq<Block>, pending: string): seq<Token> {
    if bs == [] then Flush(pending)
    else match bs[0]
      case Char(c) => Assemble(bs[1..], pending + [c])
      case Bare(n) => Flush(pending) + Named(n, "") + Assemble(bs[1..], "")
      case Braced(n, p) => Flush(pending) + Named(n, p) + Assemble(bs[1..], "")
      case Unclosed(_, _) => [Lit(PATTERN_ERROR)] + Assemble(bs[1..], pending)
  }

  predicate HasError(bs: seq<Block>) { bs != [] && bs[|bs| - 1].Unclosed? }

  function Parse(s: string): Parsed { Parsed(Assemble(Lex(s), ""), HasError(Lex(s))) }

  predicate NoneUnclosed(bs: seq<Block>) { forall i :: 0 <= i < |bs| ==> !bs[i].Unclosed? }

  lemma LastUnclosed(bs: seq<Block>)
    requires Grammar(bs, "")
    ensures HasError(bs) <==> !NoneUnclosed(bs)
  {
    forall i | 0 <= i < |bs| && bs[i].Unclosed? ensures i == |bs| - 1 { UnclosedIsLast(bs, i); }
  }

  /** The error flag is up exactly if some block, and then the last one, is never closed. */
  lemma ErrorIffUnclosed(s: string)
    ensures HasError(Lex(s)) <==> !NoneUnclosed(Lex(s))
  {
    LexObeysGrammar(s);
    LastUnclosed(Lex(s));
  }
}
