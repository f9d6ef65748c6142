/** `LogFormatter::Parse` as it is written: two nested loops over indices that are moved back and forth. */
module Formatter {
  import Chain
  import opened PatternGrammar
  import opened Sequences

  /** What a format item prints; `Literal` stands for StringFormatItem. */
  datatype Item =
    | Literal(text: string)
    | Message | Level | Elapse | LoggerName | ThreadId | NewLine
    | DateTime(format: string)
    | FileName | Line | Tab | FiberId | ThreadName

  const DEFAULT_DATE := "%Y-%m-%d %H:%M:%S"

  /** The table of directives. */
  function ItemOf(t: Token): Item {
    match t
    case Lit(text) => Literal(text)
    case Dir(name, param) =>
      if name == "m" then Message
      else if name == "p" then Level
      else if name == "r" then Elapse
      else if name == "c" then LoggerName
      else if name == "t" then ThreadId
      else if name == "n" then NewLine
      else if name == "d" then DateTime(if param == "" then DEFAULT_DATE else param)
      else if name == "f" then FileName
      else if name == "l" then Line
      else if name == "T" then Tab
      else if name == "F" then FiberId
      else if name == "N" then ThreadName
      else Literal("<<error_format %" + name + ">>")
  }

  function ItemsOf(ts: seq<Token>): seq<Item> {
    seq(|ts|, k requires 0 <= k < |ts| => ItemOf(ts[k]))
  }

  function NewItems(pattern: string): seq<Item> { ItemsOf(Parse(pattern).tokens) }

  // ----- the scan's indices, against the grammar

  /** What is left of `p` from index `i`, which the scan may leave one past the end. */
  ghost function From(p: string, i: nat): string { if i <= |p| then p[i..] else "" }

  /** The block that has been read: it starts at `start`, and the scan goes on at `next`. */
  ghost predicate HasRead(p: string, start: nat, next: nat, b: Block) {
    start < |p| && p[start..] == Text(b) + From(p, next) && Fits(b, From(p, next))
  }

  /** The characters after the `%` at `start`, up to `n`, belong to a name. */
  ghost predicate InName(p: string, start: nat, n: nat) {
    start < n <= |p| && p[start] == '%' && forall k :: start < k < n ==> NameChar(p[k])
  }

  /** A name ends with a brace just before `begin`, and the parameter is not closed before `n`. */
  ghost predicate InParam(p: string, start: nat, begin: nat, n: nat) {
    && start + 1 < begin <= n <= |p| && InName(p, start, begin - 1) && p[begin - 1] == '{'
    && forall k :: begin <= k < n ==> p[k] != '}'
  }

  /** How the inner loop ends. `n` is its index, `begin` the start of the parameter if one was opened, and
      `next` where the outer loop goes on. */
  ghost predicate Ended(p: string, start: nat, n: nat, begin: nat, braced: bool, next: nat,
                        status: int, format_str: string, param_str: string)
  {
    && (status == 0 && !braced ==>
          && InName(p, start, n) && format_str == p[start + 1..n] && param_str == ""
          && (n < |p| ==> !NameChar(p[n]) && p[n] != '{') && next == (if n < |p| || n == start + 1 then n else n + 1))
    && (status == 0 && braced ==>
          && InParam(p, start, begin, n) && format_str == p[start + 1..begin - 1] && param_str == p[begin..n]
          && n < |p| && p[n] == '}' && next == n + 1)
    && (status == 1 ==> InParam(p, start, begin, n) && n == |p| && next == n + 1)
    && (status == 0 || status == 1)
  }

  lemma ReadBare(p: string, start: nat, n: nat)
    requires InName(p, start, n)
    requires n < |p| ==> !NameChar(p[n]) && p[n] != '{' && (n == start + 1 ==> p[n] != '%')
    ensures HasRead(p, start, n, Bare(p[start + 1..n]))
    ensures n == |p| ==> HasRead(p, start, n + 1, Bare(p[start + 1..]))
  {
    assert p[start..] == ['%'] + p[start + 1..n] + p[n..];
  }

  lemma ReadBraced(p: string, start: nat, begin: nat, n: nat)
    requires InParam(p, start, begin, n) && (n < |p| ==> p[n] == '}')
    ensures n < |p| ==> HasRead(p, start, n + 1, Braced(p[start + 1..begin - 1], p[begin..n]))
    ensures n == |p| ==> HasRead(p, start, n + 1, Unclosed(p[start + 1..begin - 1], p[begin..n]))
  {
    var name, param := p[start + 1..begin - 1], p[begin..n];
    assert p[start..] == ['%'] + name + ['{'] + param + p[n..];
    assert IsName(name) && '}' !in param;
    if n < |p| {
      assert p[n..] == ['}'] + p[n + 1..];
      assert p[start..] == Text(Braced(name, param)) + p[n + 1..];
    } else {
      assert p[start..] == Text(Unclosed(name, param)) + "";
    }
  }

  lemma EndedHasRead(p: string, start: nat, n: nat, begin: nat, braced: bool, next: nat,
                     status: int, format_str: string, param_str: string) returns (b: Block)
    requires Ended(p, start, n, begin, braced, next, status, format_str, param_str)
    requires start < |p| && p[start] == '%' && !(start + 1 < |p| && p[start + 1] == '%')
    ensures HasRead(p, start, next, b) && !b.Char?
    ensures status == 0 ==> b == if braced then Braced(format_str, param_str) else Bare(format_str)
    ensures status == 0 && !braced ==> param_str == ""
    ensures status == 1 ==> b.Unclosed? && next == |p| + 1
  {
    if status == 0 && !braced {
      ReadBare(p, start, n);
      b := Bare(format_str);
    } else {
      ReadBraced(p, start, begin, n);
      b := if status == 0 then Braced(format_str, param_str) else Unclosed(p[start + 1..begin - 1], p[begin..n]);
    }
  }

  // ----- the blocks read so far, and the tokens made of them

  /** The blocks `bs` are what `p` holds before index `i`. */
  ghost predicate Read(p: string, i: nat, bs: seq<Block>) {
    Spell(bs, From(p, i)) == p && Grammar(bs, From(p, i))
  }

  lemma ReadNext(p: string, i: nat, next: nat, bs: seq<Block>, b: Block)
    requires Read(p, i, bs) && HasRead(p, i, next, b)
    ensures Read(p, next, bs + [b])
  {
    var after := From(p, next);
    Chain.SpellAppend(bs, [b], Text, after);
    Chain.AllowedAppend(bs, [b], Text, Fits, after);
    GrammarCons(b, [], after);
    assert [b] + [] == [b];
  }

  lemma ReadChar(p: string, i: nat)
    requires i < |p| && (p[i] != '%' || (i + 1 < |p| && p[i + 1] == '%'))
    ensures HasRead(p, i, i + 1, Char(p[i]))
  {
    assert p[i..] == [p[i]] + p[i + 1..];
  }

  /** What reading block `b` adds to the tokens and to the pending literal. */
  ghost predicate Takes(b: Block, items: seq<Token>, pending: string, items': seq<Token>, pending': string) {
    match b
    case Char(c) => items' == items && pending' == pending + [c]
    case Bare(n) => items' == items + Flush(pending) + PatternGrammar.Named(n, "") && pending' == ""
    case Braced(n, q) => items' == items + Flush(pending) + PatternGrammar.Named(n, q) && pending' == ""
    case Unclosed(_, _) => items' == items + [Lit(PATTERN_ERROR)] && pending' == pending
  }

  /** Whatever follows the blocks, their tokens are `items` and the literal `pending`. */
  ghost predicate Collected(bs: seq<Block>, items: seq<Token>, pending: string) {
    forall rest :: Assemble(bs + rest, "") == items + Assemble(rest, pending)
  }

  lemma CollectedNone()
    ensures Collected([], [], "")
  {
    forall rest: seq<Block> ensures Assemble([] + rest, "") == [] + Assemble(rest, "") {
      assert [] + rest == rest;
    }
  }

  lemma AssembleOne(b: Block, rest: seq<Block>, items: seq<Token>, pending: string, items': seq<Token>, pending': string)
    requires Takes(b, items, pending, items', pending')
    ensures items + Assemble([b] + rest, pending) == items' + Assemble(rest, pending')
  {
    assert ([b] + rest)[1..] == rest;
    if b.Bare? || b.Braced? {
      var param := if b.Bare? then "" else b.param;
      Assoc(items, Flush(pending) + PatternGrammar.Named(b.name, param), Assemble(rest, ""));
      Assoc(items, Flush(pending), PatternGrammar.Named(b.name, param));
    }
  }

  lemma CollectedNext(bs: seq<Block>, b: Block, items: seq<Token>, pending: string,
                      items': seq<Token>, pending': string)
    requires Collected(bs, items, pending) && Takes(b, items, pending, items', pending')
    ensures Collected(bs + [b], items', pending')
  {
    forall rest ensures Assemble(bs + [b] + rest, "") == items' + Assemble(rest, pending') {
      assert bs + [b] + rest == bs + ([b] + rest);
      AssembleOne(b, rest, items, pending, items', pending');
    }
  }

  /** The scan stands at index `i`, having read the blocks `bs`. */
  ghost predicate Scanned(p: string, i: nat, bs: seq<Block>, items: seq<Token>, pending: string, error: bool) {
    Read(p, i, bs) && Collected(bs, items, pending) && error == !NoneUnclosed(bs)
  }

  lemma ScannedNone(p: string)
    ensures Scanned(p, 0, [], [], "", false)
  {
    CollectedNone();
  }

  lemma ScannedNext(p: string, i: nat, next: nat, bs: seq<Block>, b: Block, items: seq<Token>, pending: string,
                    error: bool, items': seq<Token>, pending': string)
    requires Scanned(p, i, bs, items, pending, error) && HasRead(p, i, next, b)
    requires Takes(b, items, pending, items', pending')
    ensures Scanned(p, next, bs + [b], items', pending', error || b.Unclosed?)
  {
    ReadNext(p, i, next, bs, b);
    CollectedNext(bs, b, items, pending, items', pending');
    assert (bs + [b])[|bs|] == b;
    assert forall k :: 0 <= k < |bs| ==> (bs + [b])[k] == bs[k];
  }

  /** At the end the scan has the reading of the whole pattern. */
  lemma ScannedAll(p: string, i: nat, bs: seq<Block>, items: seq<Token>, pending: string, error: bool)
    requires Scanned(p, i, bs, items, pending, error) && i >= |p|
    ensures Parse(p) == Parsed(items + Flush(pending), error)
  {
    assert From(p, i) == "";
    LexIffGrammar(p, bs);
    ErrorIffUnclosed(p);
    var none: seq<Block> := [];
    assert bs + none == bs && Assemble(bs + none, "") == items + Assemble(none, pending);
  }

  class LogFormatter {
    var m_pattern: string
    var m_items: seq<Item>
    var m_error: bool

    constructor (pattern: string)
      ensures m_pattern == pattern
      ensures m_items == NewItems(pattern) && m_error == PatternGrammar.Parse(pattern).error
    {
      m_pattern, m_items, m_error := pattern, [], false;
      new;
      Parse();
    }

    method Parse()
      modifies this`m_items, this`m_error
      ensures m_items == old(m_items) + NewItems(m_pattern)
      ensures m_error == (old(m_error) || PatternGrammar.Parse(m_pattern).error)
    {
      var items, failed := Scan(m_pattern);
      m_error := m_error || failed;
      AppendItems(items);
    }

    /** The outer loop: the tokens of the pattern `p`, and whether the error flag was raised. */
    static method Scan(p: string) returns (items: seq<Token>, error: bool)
      ensures PatternGrammar.Parse(p) == Parsed(items, error)
    {
      items, error := [], false;
      var nstr: string := "";
      var size := |p|;
      var i := 0;
      ghost var bs: seq<Block> := [];
      ScannedNone(p);
      while i < size
        invariant 0 <= i
        invariant Scanned(p, i, bs, items, nstr, error)
        decreases size - i
      {
        if p[i] != '%' || (i + 1 < size && p[i + 1] == '%') {
          ReadChar(p, i);
          ScannedNext(p, i, i + 1, bs, Char(p[i]), items, nstr, error, items, nstr + [p[i]]);
          bs := bs + [Char(p[i])];
          nstr := nstr + [p[i]];
          i := i + 1;
          continue;
        }
        ghost var start, items0, nstr0, error0 := i, items, nstr, error;
        ghost var b;
        i, items, nstr, error, b := TakeDirective(p, i, items, nstr, error);
        ScannedNext(p, start, i + 1, bs, b, items0, nstr0, error0, items, nstr);
        bs := bs + [b];
        i := i + 1;
      }
      ScannedAll(p, i, bs, items, nstr, error);
      if nstr != "" {
        items := items + [Lit(nstr)];
      } else {
        assert items + [] == items;
      }
    }

    /** The rest of the outer loop's body, once a `%` starts a directive at `start`. */
    static method TakeDirective(p: string, start: nat, items0: seq<Token>, nstr0: string, error0: bool)
      returns (i: nat, items: seq<Token>, nstr: string, error: bool, ghost b: Block)
      requires start < |p| && p[start] == '%' && !(start + 1 < |p| && p[start + 1] == '%')
      ensures start <= i <= |p| && HasRead(p, start, i + 1, b) && !b.Char?
      ensures Takes(b, items0, nstr0, items, nstr) && error == (error0 || b.Unclosed?)
    {
      items, nstr, error := items0, nstr0, error0;
      var status, format_str, param_str;
      i, status, format_str, param_str, b := ScanDirective(p, start);
      if status == 0 {
        if nstr != "" {
          items := items + [Lit(nstr)];
          nstr := "";
        }
        assert items == items0 + Flush(nstr0);
        if format_str != "" {
          items := items + [Dir(format_str, param_str)];
        }
        assert items == items0 + Flush(nstr0) + PatternGrammar.Named(format_str, param_str);
      } else {
        error := true;
        var reported := p[i..];
        items := items + [Lit(PATTERN_ERROR)];
      }
    }

    /** The inner loop, for the directive that starts at `start`: where the outer loop's index is left (the
        outer loop still adds one), and whether the parameter was left open. */
    static method ScanDirective(p: string, start: nat)
      returns (i: nat, status: int, format_str: string, param_str: string, ghost b: Block)
      requires start < |p| && p[start] == '%' && !(start + 1 < |p| && p[start + 1] == '%')
      ensures start <= i <= |p| && (status == 0 || status == 1)
      ensures HasRead(p, start, i + 1, b) && !b.Char?
      ensures status == 0 ==> b == Braced(format_str, param_str) || (b == Bare(format_str) && param_str == "")
      ensures status == 1 ==> b.Unclosed? && i == |p|
    {
      ghost var n, begin, braced;
      i, status, format_str, param_str, n, begin, braced := ScanDirectiveLoop(p, start);
      b := EndedHasRead(p, start, n, begin, braced, i + 1, status, format_str, param_str);
    }

    static method ScanDirectiveLoop(p: string, start: nat)
      returns (i: nat, status: int, format_str: string, param_str: string,
               ghost index: nat, ghost begin: nat, ghost braced: bool)
      requires start < |p| && p[start] == '%'
      ensures start <= i <= |p|
      ensures Ended(p, start, index, begin, braced, i + 1, status, format_str, param_str)
    {
      var size := |p|;
      i, status, format_str, param_str := start, 0, "", "";
      var n := i + 1;
      var param_str_begin := 0;
      braced := false;
      while n < size
        invariant start < n <= size
        invariant i == if n == size && start + 1 < size then size else start
        invariant status == 0 || status == 1
        invariant param_str == "" && !braced
        invariant status == 0 ==> InName(p, start, n) && format_str == if n < size then "" else p[start + 1..n]
        invariant status == 1 ==> InParam(p, start, param_str_begin, n)
        invariant status == 1 && n < size ==> format_str == p[start + 1..param_str_begin - 1]
        decreases size - n
      {
        if status == 0 && !IsAlpha(p[n]) && p[n] != '{' && p[n] != '}' {
          format_str := format_str + p[i + 1..n];
          i := n - 1;
          break;
        }
        if status == 0 {
          if p[n] == '{' {
            format_str := format_str + p[i + 1..n];
            status := 1;
            param_str_begin := n + 1;
          }
        } else if status == 1 {
          if p[n] == '}' {
            param_str := param_str + p[param_str_begin..n];
            status := 0;
            i := n;
            braced := true;
            break;
          }
        }
        n := n + 1;
        if n == size {
          if format_str == "" {
            format_str := format_str + p[i + 1..];
          }
          i := n;
        }
      }
      index, begin := n, param_str_begin;
    }

    method AppendItems(items: seq<Token>)
      modifies this`m_items
      ensures m_items == old(m_items) + ItemsOf(items)
    {
      for k := 0 to |items|
        invariant m_items == old(m_items) + ItemsOf(items[..k])
      {
        m_items := m_items + [ItemOf(items[k])];
      }
      assert items[..|items|] == items;
    }
  }
}
