/** What a logger without a pattern of its own prints. */
module DefaultLine {
  import Chain
  import opened LogRegistry
  import opened PatternGrammar
  import opened Rendering

  /** The parts of a line, one after the other. */
  function Row(parts: seq<string>): string { if parts == [] then "" else parts[0] + Row(parts[1..]) }

  /** Blocks that cannot run into each other, whatever their order. */
  predicate Simple(b: Block) {
    match b
    case Char(c) => c != '%' && c != '{' && !NameChar(c)
    case Bare(n) => |n| == 1 && IsAlpha(n[0])
    case Braced(n, p) => |n| == 1 && IsAlpha(n[0]) && '}' !in p
    case Unclosed(_, _) => false
  }

  /** The blocks spell the pattern and mean the parts. */
  ghost predicate Prints(bs: seq<Block>, q: string, parts: seq<string>, e: Event) {
    && (forall i :: 0 <= i < |bs| ==> Simple(bs[i]))
    && Spell(bs, "") == q && Chain.Spell(bs, MeaningIn(e), "") == Row(parts)
  }

  lemma {:induction false} SimpleGrammar(bs: seq<Block>)
    requires forall i :: 0 <= i < |bs| ==> Simple(bs[i])
    ensures Grammar(bs, "")
    ensures bs != [] ==> Spell(bs, "") != "" && Spell(bs, "")[0] != '{' && !NameChar(Spell(bs, "")[0])
  {
    if bs != [] {
      SimpleGrammar(bs[1..]);
      assert bs == [bs[0]] + bs[1..];
      GrammarCons(bs[0], bs[1..], "");
    }
  }

  lemma PrintsMeans(bs: seq<Block>, q: string, parts: seq<string>, e: Event)
    requires Prints(bs, q, parts, e)
    ensures !Parse(q).error && Render(q, e) == Row(parts)
  {
    SimpleGrammar(bs);
    GrammarIsUnambiguous(bs);
    ErrorIffUnclosed(q);
    RenderIsMeaning(q, e);
  }

  lemma InFront(b: Block, bs: seq<Block>, q: string, parts: seq<string>, e: Event)
    requires Simple(b) && Prints(bs, q, parts, e)
    ensures Prints([b] + bs, Text(b) + q, [Meaning(b, e)] + parts, e)
  {
    GrammarCons(b, bs, "");
    assert ([b] + bs)[1..] == bs && ([Meaning(b, e)] + parts)[1..] == parts;
  }

  /** A directive of one letter at position k. */
  /** A directive of one letter at position k. */
  /** A directive of one letter at position k. */
  /** A directive of one letter at position k. */
  /** A directive of one letter at position k. */
  /** A directive of one letter at position k. */
  lemma Letter(p: string, k: nat, bs: seq<Block>, parts: seq<string>, e: Event)
    returns (cs: seq<Block>, more: seq<string>)
    requires k + 2 <= |p| && p[k] == '%' && IsAlpha(p[k + 1]) && Prints(bs, p[k + 2..], parts, e)
    ensures more == [Documented(p[k + 1], e)] + parts && Prints(cs, p[k..], more, e)
  {
    var b := Bare([p[k + 1]]);
    cs, more := [b] + bs, [Documented(p[k + 1], e)] + parts;
    InFront(b, bs, p[k + 2..], parts, e);
    ItemDocumented(p[k + 1], "", e);
    assert Text(b) + p[k + 2..] == p[k..];
  }

  /** A date with a format between braces at position k; the closing brace is just before n. */
  lemma Date(p: string, k: nat, n: nat, bs: seq<Block>, parts: seq<string>, e: Event)
    returns (cs: seq<Block>, more: seq<string>)
    requires k + 4 < n <= |p| && p[k] == '%' && p[k + 1] == 'd' && p[k + 2] == '{' && p[n - 1] == '}'
    requires '}' !in p[k + 3..n - 1] && Prints(bs, p[n..], parts, e)
    ensures more == [e.date(p[k + 3..n - 1])] + parts && Prints(cs, p[k..], more, e)
  {
    var b := Braced(['d'], p[k + 3..n - 1]);
    cs, more := [b] + bs, [e.date(b.param)] + parts;
    InFront(b, bs, p[n..], parts, e);
    ItemDocumented('d', b.param, e);
    assert Text(b) + p[n..] == p[k..];
  }

  lemma Literally(p: string, k: nat, bs: seq<Block>, parts: seq<string>, e: Event)
    returns (cs: seq<Block>, more: seq<string>)
    requires k < |p| && Simple(Char(p[k])) && Prints(bs, p[k + 1..], parts, e)
    ensures more == [[p[k]]] + parts && Prints(cs, p[k..], more, e)
  {
    cs, more := [Char(p[k])] + bs, [[p[k]]] + parts;
    InFront(Char(p[k]), bs, p[k + 1..], parts, e);
    assert [p[k]] + p[k + 1..] == p[k..];
  }

  lemma Message(p: string, bs: seq<Block>, parts: seq<string>, e: Event)
    returns (cs: seq<Block>, more: seq<string>)
    requires |p| == 58 && Prints(bs, p[58..], parts, e)
    requires p[52] == '%' && p[53] == 'T' && p[54] == '%' && p[55] == 'm' && p[56] == '%' && p[57] == 'n'
    ensures Prints(cs, p[52..], more, e) && more == ["\t", e.content, "\n"] + parts
  {
    cs, more := Letter(p, 56, bs, parts, e);
    cs, more := Letter(p, 54, cs, more, e);
    cs, more := Letter(p, 52, cs, more, e);
  }

  lemma LineNumber(p: string, bs: seq<Block>, parts: seq<string>, e: Event)
    returns (cs: seq<Block>, more: seq<string>)
    requires |p| == 58 && Prints(bs, p[52..], parts, e)
    requires p[47] == '%' && p[48] == 'f' && p[49] == ':' && p[50] == '%' && p[51] == 'l'
    ensures Prints(cs, p[47..], more, e) && more == [e.file, ":", e.line] + parts
  {
    cs, more := Letter(p, 50, bs, parts, e);
    cs, more := Literally(p, 49, cs, more, e);
    cs, more := Letter(p, 47, cs, more, e);
  }

  lemma FileName(p: string, bs: seq<Block>, parts: seq<string>, e: Event)
    returns (cs: seq<Block>, more: seq<string>)
    requires |p| == 58 && Prints(bs, p[47..], parts, e)
    requires p[44] == ']' && p[45] == '%' && p[46] == 'T'
    ensures Prints(cs, p[44..], more, e) && more == ["]", "\t"] + parts
  {
    cs, more := Letter(p, 45, bs, parts, e);
    cs, more := Literally(p, 44, cs, more, e);
  }

  lemma LoggerName(p: string, bs: seq<Block>, parts: seq<string>, e: Event)
    returns (cs: seq<Block>, more: seq<string>)
    requires |p| == 58 && Prints(bs, p[44..], parts, e)
    requires p[39] == '%' && p[40] == 'T' && p[41] == '[' && p[42] == '%' && p[43] == 'c'
    ensures Prints(cs, p[39..], more, e) && more == ["\t", "[", e.logger] + parts
  {
    cs, more := Letter(p, 42, bs, parts, e);
    cs, more := Literally(p, 41, cs, more, e);
    cs, more := Letter(p, 39, cs, more, e);
  }

  lemma LevelEnd(p: string, bs: seq<Block>, parts: seq<string>, e: Event)
    returns (cs: seq<Block>, more: seq<string>)
    requires |p| == 58 && Prints(bs, p[39..], parts, e)
    requires p[36] == '%' && p[37] == 'p' && p[38] == ']'
    ensures Prints(cs, p[36..], more, e) && more == [e.level, "]"] + parts
  {
    cs, more := Literally(p, 38, bs, parts, e);
    cs, more := Letter(p, 36, cs, more, e);
  }

  lemma Level(p: string, bs: seq<Block>, parts: seq<string>, e: Event)
    returns (cs: seq<Block>, more: seq<string>)
    requires |p| == 58 && Prints(bs, p[36..], parts, e)
    requires p[33] == '%' && p[34] == 'T' && p[35] == '['
    ensures Prints(cs, p[33..], more, e) && more == ["\t", "["] + parts
  {
    cs, more := Literally(p, 35, bs, parts, e);
    cs, more := Letter(p, 33, cs, more, e);
  }

  lemma FiberId(p: string, bs: seq<Block>, parts: seq<string>, e: Event)
    returns (cs: seq<Block>, more: seq<string>)
    requires |p| == 58 && Prints(bs, p[33..], parts, e)
    requires p[29] == '%' && p[30] == 'T' && p[31] == '%' && p[32] == 'F'
    ensures Prints(cs, p[29..], more, e) && more == ["\t", e.fiber] + parts
  {
    cs, more := Letter(p, 31, bs, parts, e);
    cs, more := Letter(p, 29, cs, more, e);
  }

  lemma ThreadName(p: string, bs: seq<Block>, parts: seq<string>, e: Event)
    returns (cs: seq<Block>, more: seq<string>)
    requires |p| == 58 && Prints(bs, p[29..], parts, e)
    requires p[25] == '%' && p[26] == 'T' && p[27] == '%' && p[28] == 'N'
    ensures Prints(cs, p[25..], more, e) && more == ["\t", e.threadName] + parts
  {
    cs, more := Letter(p, 27, bs, parts, e);
    cs, more := Letter(p, 25, cs, more, e);
  }

  lemma ThreadId(p: string, bs: seq<Block>, parts: seq<string>, e: Event)
    returns (cs: seq<Block>, more: seq<string>)
    requires |p| == 58 && Prints(bs, p[25..], parts, e)
    requires p[21] == '%' && p[22] == 'T' && p[23] == '%' && p[24] == 't'
    ensures Prints(cs, p[21..], more, e) && more == ["\t", e.thread] + parts
  {
    cs, more := Letter(p, 23, bs, parts, e);
    cs, more := Letter(p, 21, cs, more, e);
  }

  /** The characters of the default pattern. */
  ghost predicate IsDefault(p: string) {
    && |p| == 58 && p[0] == '%' && p[1] == 'd' && p[2] == '{' && p[3..20] == "%Y-%m-%d %H:%M:%S" && p[20] == '}'
    && p[21] == '%' && p[22] == 'T' && p[23] == '%' && p[24] == 't'
    && p[25] == '%' && p[26] == 'T' && p[27] == '%' && p[28] == 'N'
    && p[29] == '%' && p[30] == 'T' && p[31] == '%' && p[32] == 'F'
    && p[33] == '%' && p[34] == 'T' && p[35] == '['
    && p[36] == '%' && p[37] == 'p' && p[38] == ']'
    && p[39] == '%' && p[40] == 'T' && p[41] == '[' && p[42] == '%' && p[43] == 'c'
    && p[44] == ']' && p[45] == '%' && p[46] == 'T'
    && p[47] == '%' && p[48] == 'f' && p[49] == ':' && p[50] == '%' && p[51] == 'l'
    && p[52] == '%' && p[53] == 'T' && p[54] == '%' && p[55] == 'm' && p[56] == '%' && p[57] == 'n'
  }

  lemma Characters(p: string)
    requires p == DEFAULT_PATTERN
    ensures IsDefault(p)
  {
  }

  lemma Pieces(e: Event, date: string)
    ensures [date] +
      (["\t", e.thread] + (["\t", e.threadName] + (["\t", e.fiber] + (["\t", "["] + ([e.level, "]"] +
        (["\t", "[", e.logger] + (["]", "\t"] + ([e.file, ":", e.line] + (["\t", e.content, "\n"] +
        []))))))))) == [
      date, "\t", e.thread, "\t", e.threadName, "\t", e.fiber, "\t", "[", e.level,
      "]", "\t", "[", e.logger, "]", "\t", e.file, ":", e.line, "\t", e.content, "\n"]
  {
  }

  lemma AfterDate(p: string, e: Event) returns (bs: seq<Block>, parts: seq<string>)
    requires IsDefault(p)
    ensures Prints(bs, p[21..], parts, e)
    ensures parts == ["\t", e.thread] + (["\t", e.threadName] + (["\t", e.fiber] + (["\t", "["] + ([e.level, "]"] +
        (["\t", "[", e.logger] + (["]", "\t"] + ([e.file, ":", e.line] + (["\t", e.content, "\n"] +
        []))))))))
  {
    bs, parts := [], [];
    assert p[58..] == "";
    bs, parts := Message(p, bs, parts, e);
    bs, parts := LineNumber(p, bs, parts, e);
    bs, parts := FileName(p, bs, parts, e);
    bs, parts := LoggerName(p, bs, parts, e);
    bs, parts := LevelEnd(p, bs, parts, e);
    bs, parts := Level(p, bs, parts, e);
    bs, parts := FiberId(p, bs, parts, e);
    bs, parts := ThreadName(p, bs, parts, e);
    bs, parts := ThreadId(p, bs, parts, e);
  }

  lemma FieldByField(p: string, e: Event) returns (parts: seq<string>)
    requires IsDefault(p)
    ensures !Parse(p).error && Render(p, e) == Row(parts)
    ensures parts == [e.date("%Y-%m-%d %H:%M:%S")] +
      (["\t", e.thread] + (["\t", e.threadName] + (["\t", e.fiber] + (["\t", "["] + ([e.level, "]"] +
        (["\t", "[", e.logger] + (["]", "\t"] + ([e.file, ":", e.line] + (["\t", e.content, "\n"] +
        [])))))))))
  {
    var bs;
    bs, parts := AfterDate(p, e);
    var format := "%Y-%m-%d %H:%M:%S";
    NoBrace(format);
    parts := DateFirst(p, 21, format, bs, parts, e);
  }

  lemma NoBrace(format: string)
    requires format == "%Y-%m-%d %H:%M:%S"
    ensures '}' !in format && |format| == 17
  {
  }

  lemma DateFirst(p: string, n: nat, format: string, bs: seq<Block>, parts: seq<string>, e: Event)
    returns (more: seq<string>)
    requires 4 < n <= |p| && p[0] == '%' && p[1] == 'd' && p[2] == '{' && p[n - 1] == '}'
    requires p[3..n - 1] == format && '}' !in format && Prints(bs, p[n..], parts, e)
    ensures more == [e.date(format)] + parts && !Parse(p).error && Render(p, e) == Row(more)
  {
    var cs;
    cs, more := Date(p, 0, n, bs, parts, e);
    assert p[0..] == p;
    PrintsMeans(cs, p, more, e);
  }

  lemma DefaultClosed(p: string)
    requires p == DEFAULT_PATTERN
    ensures !Parse(p).error
  {
    var e := Event("", "", "", "", "", "", "", "", "", (format: string) => format);
    DefaultLine(p, e);
  }

  /** The default pattern, field by field. */
  lemma DefaultLine(p: string, e: Event)
    requires p == DEFAULT_PATTERN
    ensures !Parse(p).error
    ensures Render(p, e) == Row([
      e.date("%Y-%m-%d %H:%M:%S"), "\t", e.thread, "\t", e.threadName, "\t", e.fiber, "\t", "[", e.level,
      "]", "\t", "[", e.logger, "]", "\t", e.file, ":", e.line, "\t", e.content, "\n"])
  {
    Characters(p);
    var parts := FieldByField(p, e);
    Pieces(e, e.date("%Y-%m-%d %H:%M:%S"));
  }
}
