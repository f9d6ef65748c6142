/** The stream form of rendering, and how it behaves when patterns are joined. */
module Rendering {
  import Chain
  import opened PatternGrammar
  import opened PatternPrinter
  import opened Formatter
  import opened Letters
  import opened Sequences

  /** The texts of an event's fields; the date depends on the item's format. */
  datatype Event = Event(
    content: string, level: string, elapse: string, logger: string, thread: string, fiber: string,
    threadName: string, file: string, line: string, date: string -> string)

  function Field(item: Item, e: Event): string {
    match item
    case Literal(text) => text
    case Message => e.content
    case Level => e.level
    case Elapse => e.elapse
    case LoggerName => e.logger
    case ThreadId => e.thread
    case NewLine => "\n"
    case DateTime(format) => e.date(format)
    case FileName => e.file
    case Line => e.line
    case Tab => "\t"
    case FiberId => e.fiber
    case ThreadName => e.threadName
  }

  function TextIn(e: Event): Token -> string { t => Field(ItemOf(t), e) }

  /** The text of the tokens of a pattern, one after the other. */
  function RenderTokens(ts: seq<Token>, e: Event): string { Chain.Spell(ts, TextIn(e), "") }

  function Render(pattern: string, e: Event): string { RenderTokens(Parse(pattern).tokens, e) }

  // ----- rendering block by block

  /** What one block of a pattern means. */
  function Meaning(b: Block, e: Event): string {
    match b
    case Char(c) => [c]
    case Bare(n) => if n == "" then "" else Field(ItemOf(Dir(n, "")), e)
    case Braced(n, p) => if n == "" then "" else Field(ItemOf(Dir(n, p)), e)
    case Unclosed(_, _) => PATTERN_ERROR
  }

  function MeaningIn(e: Event): Block -> string { b => Meaning(b, e) }

  lemma RenderTokensAppend(a: seq<Token>, b: seq<Token>, e: Event)
    ensures RenderTokens(a + b, e) == RenderTokens(a, e) + RenderTokens(b, e)
  {
    Chain.SpellAppend(a, b, TextIn(e), "");
    Chain.SpellBefore(a, TextIn(e), RenderTokens(b, e));
  }

  lemma RenderOne(t: Token, e: Event)
    ensures RenderTokens([t], e) == Field(ItemOf(t), e)
  {
    Chain.SpellSnoc([], t, TextIn(e));
    assert [] + [t] == [t];
    assert "" + Field(ItemOf(t), e) == Field(ItemOf(t), e);
  }

  lemma RenderFlush(pending: string, e: Event)
    ensures RenderTokens(Flush(pending), e) == pending
  {
    if pending != "" { RenderOne(Lit(pending), e); }
  }

  lemma RenderNamed(name: string, param: string, e: Event)
    ensures RenderTokens(Named(name, param), e) == if name == "" then "" else Field(ItemOf(Dir(name, param)), e)
  {
    if name != "" { RenderOne(Dir(name, param), e); }
  }

  lemma RenderDirective(b: Block, pending: string, rest: seq<Token>, e: Event)
    requires b.Bare? || b.Braced?
    ensures var param := if b.Bare? then "" else b.param;
      RenderTokens(Flush(pending) + Named(b.name, param) + rest, e) ==
      pending + (Meaning(b, e) + RenderTokens(rest, e))
  {
    var param := if b.Bare? then "" else b.param;
    RenderTokensAppend(Flush(pending) + Named(b.name, param), rest, e);
    RenderTokensAppend(Flush(pending), Named(b.name, param), e);
    RenderFlush(pending, e);
    RenderNamed(b.name, param, e);
    Assoc(pending, Meaning(b, e), RenderTokens(rest, e));
  }

  /** Although literals merge and are flushed late, a pattern without error renders block by block. */
  lemma {:induction false} RenderByBlocks(bs: seq<Block>, pending: string, e: Event)
    requires NoneUnclosed(bs)
    ensures RenderTokens(Assemble(bs, pending), e) == pending + Chain.Spell(bs, MeaningIn(e), "")
  {
    if bs == [] {
      RenderFlush(pending, e);
    } else {
      var b, rest := bs[0], bs[1..];
      assert NoneUnclosed(rest);
      if b.Char? {
        RenderByBlocks(rest, pending + [b.c], e);
        Assoc(pending, [b.c], Chain.Spell(rest, MeaningIn(e), ""));
      } else {
        RenderByBlocks(rest, "", e);
        RenderDirective(b, pending, Assemble(rest, ""), e);
        assert "" + Chain.Spell(rest, MeaningIn(e), "") == Chain.Spell(rest, MeaningIn(e), "");
      }
    }
  }

  lemma RenderIsMeaning(pattern: string, e: Event)
    requires !Parse(pattern).error
    ensures Render(pattern, e) == Chain.Spell(Lex(pattern), MeaningIn(e), "")
  {
    ErrorIffUnclosed(pattern);
    RenderByBlocks(Lex(pattern), "", e);
    assert "" + Chain.Spell(Lex(pattern), MeaningIn(e), "") == Chain.Spell(Lex(pattern), MeaningIn(e), "");
  }

  // ----- joining patterns

  /** Whether the last block of `p` is not affected by `q` coming after it: a literal character or a closed
      parameter never is, a directive without parameter if `q` cannot be read as part of it. */
  ghost predicate Separable(p: string, q: string) {
    Lex(p) == [] || Fits(Lex(p)[|Lex(p)| - 1], q)
  }

  lemma {:induction false} LastFits(bs: seq<Block>, q: string)
    requires Grammar(bs, "") && bs != []
    ensures Grammar(bs, q) <==> Fits(bs[|bs| - 1], q)
    ensures |bs| > 1 ==> Spell(bs, "") != "" && Spell(bs, q) != "" && Spell(bs, q)[0] == Spell(bs, "")[0]
  {
    var b, rest := bs[0], bs[1..];
    assert bs == [b] + rest;
    GrammarCons(b, rest, "");
    GrammarCons(b, rest, q);
    if rest != [] {
      LastFits(rest, q);
      HeadOfSpell(rest, q);
    } else {
      assert Spell(rest, q) == q;
    }
  }

  lemma HeadOfSpell(bs: seq<Block>, q: string)
    requires bs != []
    ensures Spell(bs, q) != "" && Spell(bs, q)[0] == Text(bs[0])[0]
    ensures Spell(bs, "") != "" && Spell(bs, "")[0] == Text(bs[0])[0]
  {
    assert bs == [bs[0]] + bs[1..];
    GrammarCons(bs[0], bs[1..], q);
    GrammarCons(bs[0], bs[1..], "");
  }

  /** The joined pattern reads as the two readings one after the other exactly when they are separable. */
  lemma LexAppend(p: string, q: string)
    ensures Lex(p + q) == Lex(p) + Lex(q) <==> Separable(p, q)
  {
    LexObeysGrammar(p);
    LexObeysGrammar(q);
    var bs := Lex(p) + Lex(q);
    SpellAppend(Lex(p), Lex(q), "");
    GrammarAppend(Lex(p), Lex(q), "");
    Chain.SpellBefore(Lex(p), Text, q);
    assert Spell(bs, "") == p + q;
    LexIffGrammar(p + q, bs);
    if Lex(p) != [] { LastFits(Lex(p), q); }
  }

  /** The literal that is pending once the blocks have been read. */
  function Pending(bs: seq<Block>, pending: string): string {
    if bs == [] then pending
    else match bs[0]
      case Char(c) => Pending(bs[1..], pending + [c])
      case Bare(_) => Pending(bs[1..], "")
      case Braced(_, _) => Pending(bs[1..], "")
      case Unclosed(_, _) => Pending(bs[1..], pending)
  }

  /** Nothing but literal characters stands in front of an unclosed directive. */
  predicate ErrorFirst(bs: seq<Block>) {
    HasError(bs) && forall i :: 0 <= i < |bs| - 1 ==> bs[i].Char?
  }

  predicate ClosedBeforeLast(bs: seq<Block>) { forall i :: 0 <= i < |bs| - 1 ==> !bs[i].Unclosed? }

  function RenderFrom(bs: seq<Block>, pending: string, e: Event): string { RenderTokens(Assemble(bs, pending), e) }

  lemma RenderFromDirective(b: Block, rest: seq<Block>, pending: string, e: Event)
    requires b.Bare? || b.Braced?
    ensures RenderFrom([b] + rest, pending, e) == pending + (Meaning(b, e) + RenderFrom(rest, "", e))
  {
    assert ([b] + rest)[1..] == rest;
    RenderDirective(b, pending, Assemble(rest, ""), e);
  }

  /** A literal in front of blocks is rendered in front of them, unless an error comes before any directive. */
  lemma {:induction false} LiteralInFront(bs: seq<Block>, text: string, pending: string, e: Event)
    requires ClosedBeforeLast(bs) && !ErrorFirst(bs)
    ensures RenderFrom(bs, text + pending, e) == text + RenderFrom(bs, pending, e)
  {
    if bs == [] {
      RenderFlush(text + pending, e);
      RenderFlush(pending, e);
    } else {
      var b, rest := bs[0], bs[1..];
      assert bs == [b] + rest;
      if b.Char? {
        assert forall i :: 0 <= i < |rest| ==> rest[i] == bs[i + 1];
        LiteralInFront(rest, text, pending + [b.c], e);
        Assoc(text, pending, [b.c]);
      } else if !b.Unclosed? {
        RenderFromDirective(b, rest, text + pending, e);
        RenderFromDirective(b, rest, pending, e);
        Assoc(text, pending, Meaning(b, e) + RenderFrom(rest, "", e));
      } else {
        assert false;
      }
    }
  }

  /** Otherwise the error mark comes first, then the pending literal. */
  lemma {:induction false} ErrorInFront(bs: seq<Block>, pending: string, e: Event)
    requires ErrorFirst(bs)
    ensures RenderFrom(bs, pending, e) == PATTERN_ERROR + Pending(bs, pending)
  {
    var b, rest := bs[0], bs[1..];
    if b.Char? {
      assert forall i :: 0 <= i < |rest| ==> rest[i] == bs[i + 1];
      ErrorInFront(rest, pending + [b.c], e);
    } else {
      assert rest == [] && bs == [b];
      assert Assemble(bs, pending) == [Lit(PATTERN_ERROR)] + Assemble(rest, pending);
      assert Pending(bs, pending) == Pending(rest, pending) == pending;
      RenderTokensAppend([Lit(PATTERN_ERROR)], Flush(pending), e);
      RenderOne(Lit(PATTERN_ERROR), e);
      RenderFlush(pending, e);
    }
  }

  lemma {:induction false} PendingInFront(bs: seq<Block>, text: string, pending: string)
    requires ErrorFirst(bs)
    ensures Pending(bs, text + pending) == text + Pending(bs, pending)
  {
    var b, rest := bs[0], bs[1..];
    if b.Char? {
      assert forall i :: 0 <= i < |rest| ==> rest[i] == bs[i + 1];
      PendingInFront(rest, text, pending + [b.c]);
      Assoc(text, pending, [b.c]);
    } else {
      assert rest == [];
    }
  }

  /** Blocks without error render to some text and the literal that is pending after them. */
  lemma {:induction false} SplitPending(bs: seq<Block>, more: seq<Block>, pending: string, e: Event) returns (text: string)
    requires NoneUnclosed(bs)
    ensures RenderFrom(bs + more, pending, e) == text + RenderFrom(more, Pending(bs, pending), e)
    ensures RenderFrom(bs, pending, e) == text + Pending(bs, pending)
  {
    if bs == [] {
      text := "";
      assert bs + more == more && "" + pending == pending;
      assert "" + RenderFrom(more, pending, e) == RenderFrom(more, pending, e);
      RenderFlush(pending, e);
    } else {
      var b, rest := bs[0], bs[1..];
      assert bs == [b] + rest && bs + more == [b] + (rest + more) && NoneUnclosed(rest);
      if b.Char? {
        assert ([b] + (rest + more))[1..] == rest + more;
        text := SplitPending(rest, more, pending + [b.c], e);
      } else {
        var tail := SplitPending(rest, more, "", e);
        RenderFromDirective(b, rest, pending, e);
        RenderFromDirective(b, rest + more, pending, e);
        var front := pending + Meaning(b, e);
        text := front + tail;
        RegroupText(pending, Meaning(b, e), tail, RenderFrom(more, Pending(rest, ""), e));
        RegroupText(pending, Meaning(b, e), tail, Pending(rest, ""));
      }
    }
  }

  lemma RegroupText(a: string, b: string, c: string, d: string)
    ensures a + (b + (c + d)) == a + b + c + d
  {
    Assoc(b, c, d);
    Assoc(a, b + c, d);
    Assoc(a, b, c);
  }

  /** The text is the error mark, any number of times. */
  predicate OnlyMarks(text: string)
    decreases |text|
  {
    text == "" || (PATTERN_ERROR <= text && OnlyMarks(text[|PATTERN_ERROR|..]))
  }

  lemma ShortDoNotCommute(text: string)
    requires 0 < |text| < |PATTERN_ERROR|
    ensures text + PATTERN_ERROR != PATTERN_ERROR + text
  {
    var n := |text|;
    assert (text + PATTERN_ERROR)[n] == '<' && (text + PATTERN_ERROR)[n + 1] == '<';
    assert n > 1 ==> (PATTERN_ERROR + text)[n] == PATTERN_ERROR[n] != '<';
    assert n == 1 ==> (PATTERN_ERROR + text)[2] == PATTERN_ERROR[2] == 'p';
  }

  lemma {:induction false} OnlyMarksCommute(text: string)
    ensures text + PATTERN_ERROR == PATTERN_ERROR + text <==> OnlyMarks(text)
    decreases |text|
  {
    var m := |PATTERN_ERROR|;
    if text == "" {
    } else if |text| < m {
      ShortDoNotCommute(text);
    } else {
      var rest := text[m..];
      OnlyMarksCommute(rest);
      assert (text + PATTERN_ERROR)[..m] == text[..m] && (PATTERN_ERROR + text)[..m] == PATTERN_ERROR;
      assert (text + PATTERN_ERROR)[m..] == rest + PATTERN_ERROR && (PATTERN_ERROR + text)[m..] == text;
      if text[..m] == PATTERN_ERROR {
        assert text == PATTERN_ERROR + rest;
      }
    }
  }

  lemma CancelTail(a: string, b: string, c: string)
    requires |a| == |b|
    ensures a + c == b + c <==> a == b
  {
    assert (a + c)[..|a|] == a && (b + c)[..|b|] == b;
  }

  lemma CancelHead(a: string, b: string, c: string)
    ensures a + b == a + c <==> b == c
  {
    assert (a + b)[|a|..] == b && (a + c)[|a|..] == c;
  }

  /** A pending literal in front of blocks that begin with an error. */
  lemma ErrorCommutesIff(bs: seq<Block>, pending: string, e: Event)
    requires ErrorFirst(bs)
    ensures RenderFrom(bs, pending, e) == pending + RenderFrom(bs, "", e) <==> OnlyMarks(pending)
  {
    var tail := Pending(bs, "");
    assert pending + "" == pending;
    PendingInFront(bs, pending, "");
    ErrorInFront(bs, pending, e);
    ErrorInFront(bs, "", e);
    Assoc(PATTERN_ERROR, pending, tail);
    Assoc(pending, PATTERN_ERROR, tail);
    CancelTail(PATTERN_ERROR + pending, pending + PATTERN_ERROR, tail);
    OnlyMarksCommute(pending);
  }

  lemma JoinBlocksIff(bs: seq<Block>, more: seq<Block>, e: Event)
    requires NoneUnclosed(bs) && ClosedBeforeLast(more)
    ensures RenderFrom(bs + more, "", e) == RenderFrom(bs, "", e) + RenderFrom(more, "", e) <==>
      !ErrorFirst(more) || OnlyMarks(Pending(bs, ""))
  {
    var text := SplitPending(bs, more, "", e);
    var pending := Pending(bs, "");
    Assoc(text, pending, RenderFrom(more, "", e));
    CancelHead(text, RenderFrom(more, pending, e), pending + RenderFrom(more, "", e));
    if ErrorFirst(more) {
      ErrorCommutesIff(more, pending, e);
    } else {
      assert pending + "" == pending;
      LiteralInFront(more, pending, "", e);
    }
  }

  lemma LexClosedBeforeLast(p: string)
    ensures ClosedBeforeLast(Lex(p))
  {
    LexObeysGrammar(p);
    forall i | 0 <= i < |Lex(p)| - 1 ensures !Lex(p)[i].Unclosed? {
      if Lex(p)[i].Unclosed? { UnclosedIsLast(Lex(p), i); }
    }
  }

  /** Rendering a joined pattern is rendering its parts in turn if and only if the second part has no error, or
      one after a directive, or the literal at the end of the first part is nothing but error marks. */
  lemma RenderAppendIff(p: string, q: string, e: Event)
    requires Separable(p, q)
    ensures Render(p + q, e) == Render(p, e) + Render(q, e) <==>
      !ErrorFirst(Lex(q)) || OnlyMarks(Pending(Lex(p), ""))
  {
    LexAppend(p, q);
    ErrorIffUnclosed(p);
    if Parse(p).error {
      assert q == "" && p + q == p;
      assert Render(p, e) + "" == Render(p, e);
    } else {
      LexClosedBeforeLast(q);
      JoinBlocksIff(Lex(p), Lex(q), e);
    }
  }

  lemma ErrorAppend(p: string, q: string)
    requires Separable(p, q)
    ensures Parse(p + q).error <==> Parse(p).error || Parse(q).error
  {
    LexAppend(p, q);
    var bs, more := Lex(p), Lex(q);
    if more == [] { assert bs + more == bs; } else { assert (bs + more)[|bs + more| - 1] == more[|more| - 1]; }
  }

  /** In particular if the second part is without error or has a directive before it. */
  lemma RenderAppend(p: string, q: string, e: Event)
    requires Separable(p, q) && !ErrorFirst(Lex(q))
    ensures Render(p + q, e) == Render(p, e) + Render(q, e)
    ensures Parse(p + q).error <==> Parse(p).error || Parse(q).error
  {
    RenderAppendIff(p, q, e);
    ErrorAppend(p, q);
  }

  /** Or when the first pattern ends in a literal character or in a closed parameter. */
  lemma RenderAppendAfterLiteralOrParameter(p: string, q: string, e: Event)
    requires !Parse(q).error && p != ""
    requires Lex(p)[|Lex(p)| - 1].Char? || Lex(p)[|Lex(p)| - 1].Braced?
    ensures Render(p + q, e) == Render(p, e) + Render(q, e)
  {
    LexObeysGrammar(p);
    LastFits(Lex(p), "");
    RenderAppend(p, q, e);
  }

  // ----- where it fails

  lemma OnlyChars(text: string)
    requires '%' !in text
    ensures Grammar(Chars(text), "") && Spell(Chars(text), "") == text && Lex(text) == Chars(text)
  {
    CharsGrammar(text, "");
    assert text + "" == text;
    GrammarIsUnambiguous(Chars(text));
  }

  /** An unclosed directive is reported before the literal that is pending in front of it. */
  lemma ErrorBeforeLiteral(text: string, name: string, param: string)
    requires '%' !in text && IsName(name) && '}' !in param
    ensures Parse(text + Text(Unclosed(name, param))) == Parsed([Lit(PATTERN_ERROR)] + Flush(text), true)
  {
    var b := Unclosed(name, param);
    var bs := Chars(text) + [b];
    OneBlock(b, "");
    assert Text(b) + "" == Text(b);
    CharsGrammar(text, Text(b));
    GrammarAppend(Chars(text), [b], "");
    SpellAppend(Chars(text), [b], "");
    GrammarIsUnambiguous(bs);
    AssembleChars(text, [b], "");
    assert "" + text == text;
    assert bs[|bs| - 1] == b;
  }

  lemma {:induction false} PendingChars(text: string, pending: string)
    ensures Pending(Chars(text), pending) == pending + text
  {
    if text == "" {
      assert pending + text == pending;
    } else {
      var rest := Chars(text[1..]);
      assert ([Char(text[0])] + rest)[1..] == rest;
      PendingChars(text[1..], pending + [text[0]]);
      assert pending + [text[0]] + text[1..] == pending + text;
    }
  }

  /** So a literal in front of an unclosed directive joins with it only if it consists of error marks. */
  lemma ErrorBreaksJoining(text: string, name: string, param: string, e: Event)
    requires '%' !in text && IsName(name) && '}' !in param
    ensures var q := Text(Unclosed(name, param));
      Separable(text, q) && (Render(text + q, e) == Render(text, e) + Render(q, e) <==> OnlyMarks(text))
  {
    var b := Unclosed(name, param);
    var q := Text(b);
    OnlyChars(text);
    PendingChars(text, "");
    assert "" + text == text;
    OneBlock(b, "");
    assert q + "" == q;
    GrammarIsUnambiguous([b]);
    if text != "" { LastChar(text); }
    RenderAppendIff(text, q, e);
  }

  lemma {:induction false} LastChar(text: string)
    requires text != ""
    ensures Chars(text) != [] && Chars(text)[|Chars(text)| - 1] == Char(text[|text| - 1])
  {
    if |text| > 1 { LastChar(text[1..]); }
  }

  // ----- the documented directives

  /** A block that fits in front of a pattern without error renders in front of it. */
  lemma RenderBlock(b: Block, q: string, e: Event)
    requires !b.Unclosed? && Fits(b, q) && !Parse(q).error
    ensures !Parse(Text(b) + q).error && Render(Text(b) + q, e) == Meaning(b, e) + Render(q, e)
  {
    LexBlock(b, q);
    ErrorIffUnclosed(q);
    ErrorIffUnclosed(Text(b) + q);
    assert forall i :: 0 < i < |[b] + Lex(q)| ==> ([b] + Lex(q))[i] == Lex(q)[i - 1];
    RenderIsMeaning(q, e);
    RenderIsMeaning(Text(b) + q, e);
    assert ([b] + Lex(q))[1..] == Lex(q);
  }

  lemma RenderLetter(name: string, e: Event)
    requires name != "" && IsName(name)
    ensures !Parse(['%'] + name).error && Render(['%'] + name, e) == Field(ItemOf(Dir(name, "")), e)
  {
    RenderBlock(Bare(name), "", e);
    assert Text(Bare(name)) + "" == ['%'] + name;
    assert Field(ItemOf(Dir(name, "")), e) + "" == Field(ItemOf(Dir(name, "")), e);
  }

  /** The table of directives, letter by letter; a date without a format uses the default one. */
  function Documented(c: char, e: Event): string {
    match c
    case 'm' => e.content
    case 'p' => e.level
    case 'r' => e.elapse
    case 'c' => e.logger
    case 't' => e.thread
    case 'n' => "\n"
    case 'd' => e.date("%Y-%m-%d %H:%M:%S")
    case 'f' => e.file
    case 'l' => e.line
    case 'T' => "\t"
    case 'F' => e.fiber
    case 'N' => e.threadName
    case _ => "<<error_format %" + [c] + ">>"
  }

  /** A directive without and with a parameter, for any name of name characters. */
  lemma RenderDirectiveAlone(name: string, param: string, e: Event)
    requires name != "" && IsName(name) && '}' !in param
    ensures var bare, braced := ['%'] + name, ['%'] + name + ['{'] + param + ['}'];
      && !Parse(bare).error && Render(bare, e) == Field(ItemOf(Dir(name, "")), e)
      && !Parse(braced).error && Render(braced, e) == Field(ItemOf(Dir(name, param)), e)
  {
    RenderLetter(name, e);
    RenderBlock(Braced(name, param), "", e);
    assert Text(Braced(name, param)) + "" == Text(Braced(name, param));
    assert Field(ItemOf(Dir(name, param)), e) + "" == Field(ItemOf(Dir(name, param)), e);
  }

  lemma ItemDocumented(c: char, param: string, e: Event)
    ensures Field(ItemOf(Dir([c], param)), e) == if c == 'd' && param != "" then e.date(param) else Documented(c, e)
  {
  }

  /** A pattern of one directive renders as the table says, and a parameter matters to a date only, whose format
      it is unless it is empty. */
  lemma DirectiveTable(c: char, param: string, e: Event)
    requires (c in CAPITALS || c in SMALL) && '}' !in param
    ensures var bare, braced := ['%', c], ['%', c, '{'] + param + ['}'];
      && !Parse(bare).error && Render(bare, e) == Documented(c, e)
      && !Parse(braced).error
      && Render(braced, e) == if c == 'd' && param != "" then e.date(param) else Documented(c, e)
  {
    NameCharacters(c);
    RenderDirectiveAlone([c], param, e);
    assert ['%'] + [c] == ['%', c];
    assert ['%'] + [c] + ['{'] == ['%', c, '{'];
    ItemDocumented(c, param, e);
    ItemDocumented(c, "", e);
  }

  /** Any other name is printed as an error text, with or without a parameter, and is not an error of the
      pattern; without a name nothing is printed. */
  lemma UnknownDirective(name: string, param: string, e: Event)
    requires IsName(name) && '}' !in param
    requires name !in {"m", "p", "r", "c", "t", "n", "d", "f", "l", "T", "F", "N"}
    ensures var bare, braced := ['%'] + name, ['%'] + name + ['{'] + param + ['}'];
      && !Parse(bare).error && !Parse(braced).error
      && Render(bare, e) == Render(braced, e) == if name == "" then "" else "<<error_format %" + name + ">>"
  {
    if name != "" {
      RenderDirectiveAlone(name, param, e);
    } else {
      RenderBlock(Bare(""), "", e);
      RenderBlock(Braced("", param), "", e);
      assert Text(Bare("")) + "" == ['%'] + name;
      assert Text(Braced("", param)) + "" == ['%'] + name + ['{'] + param + ['}'];
    }
  }

  /** A parameter that is never closed: the error text comes first, then the literal in front of the directive,
      and nothing else. */
  lemma UnclosedPrints(text: string, name: string, param: string, e: Event)
    requires '%' !in text && IsName(name) && '}' !in param
    ensures var pattern := text + (['%'] + name + ['{'] + param);
      Parse(pattern).error && Render(pattern, e) == "<<pattern_error>>" + text
  {
    var b := Unclosed(name, param);
    ErrorBeforeLiteral(text, name, param);
    RenderTokensAppend([Lit(PATTERN_ERROR)], Flush(text), e);
    RenderOne(Lit(PATTERN_ERROR), e);
    RenderFlush(text, e);
  }

  /** A pattern without percent signs prints itself. */
  lemma LiteralPrints(text: string, e: Event)
    requires '%' !in text
    ensures !Parse(text).error && Render(text, e) == text
  {
    OnlyChars(text);
    AssembleChars(text, [], "");
    assert Chars(text) + [] == Chars(text) && "" + text == text;
    if text != "" { LastChar(text); }
    RenderFlush(text, e);
  }

  function Percents(k: nat): string { seq(k, _ => '%') }

  /** A run of percent signs at the end of a pattern stands for one fewer; a lone one vanishes. */
  lemma PercentRun(k: nat)
    ensures Parse(Percents(k + 1)) == Parsed(Flush(Percents(k)), false)
  {
    var run := Percents(k);
    if k == 0 {
      LexBlock(Bare(""), "");
      assert Text(Bare("")) + "" == Percents(1);
      ErrorIffUnclosed(Percents(1));
    } else {
      var ts := [Lit(run)];
      assert ts[1..] == [];
      PrintParse(ts);
      assert Blocks(ts) == Chars(run) + [Bare("")];
      OneBlock(Bare(""), "");
      CharsGrammar(run, "%");
      SpellAppend(Chars(run), [Bare("")], "");
      assert Text(Bare("")) + "" == "%";
      assert run + "%" == Percents(k + 1);
    }
  }
}
