/** Which formatters loggers take and which changes throw, in terms of the grammar of patterns and of the fields of
    the configuration alone. */
module UsableFormatters {
  import opened LoggerConfigs
  import opened LogRegistry
  import opened PatternGrammar

  /** A pattern is refused exactly if some parameter in it is never closed. */
  lemma RefusedIffUnclosed(pattern: string)
    ensures IsError(pattern) <==> !NoneUnclosed(Lex(pattern))
  {
    ErrorIffUnclosed(pattern);
  }

  /** A logger takes a formatter exactly if every parameter in the pattern is closed. */
  lemma TakesClosedPatterns(l: Logger, pattern: string)
    ensures SetLoggerFormatter(l, pattern).pattern == if NoneUnclosed(Lex(pattern)) then pattern else l.pattern
    ensures !NoneUnclosed(Lex(pattern)) ==> SetLoggerFormatter(l, pattern) == l
  {
    RefusedIffUnclosed(pattern);
  }

  /** An appender that the listener accepts for a logger of the given name: the root's type 0 in any case; else a
      known type, a file name for type 1, and no pattern with an open parameter. */
  predicate Acceptable(name: string, a: AppenderConfig) {
    || (name == "root" && a.ty == 0)
    || ((a.ty == 0 || (a.ty == 1 && a.file != "")) && NoneUnclosed(Lex(a.formatter)))
  }

  lemma AcceptableIff(name: string, a: AppenderConfig)
    ensures GoodAppender(name, a) <==> Acceptable(name, a)
  {
    RefusedIffUnclosed(a.formatter);
  }

  /** A change throws exactly if some entry that is not word for word in the old set has an appender that is not
      acceptable. */
  lemma ChangeThrowsIff(old_val: ConfigSet, new_val: ConfigSet)
    requires DistinctNames(old_val)
    ensures !NoneFails(old_val, new_val) <==>
      exists entry, a :: entry in new_val && entry !in old_val && a in entry.appenders && !Acceptable(entry.name, a)
  {
    forall entry { UnchangedIff(old_val, entry); }
    forall entry, a | entry in new_val && entry !in old_val && a in entry.appenders && !Acceptable(entry.name, a)
      ensures !NoneFails(old_val, new_val)
    {
      var i :| 0 <= i < |new_val| && new_val[i] == entry;
      AcceptableIff(entry.name, a);
      assert EntryFails(old_val, new_val[i]);
    }
    if !NoneFails(old_val, new_val) {
      var i :| 0 <= i < |new_val| && EntryFails(old_val, new_val[i]);
      var k :| 0 <= k < |new_val[i].appenders| && !GoodAppender(new_val[i].name, new_val[i].appenders[k]);
      AcceptableIff(new_val[i].name, new_val[i].appenders[k]);
      assert new_val[i] in new_val && new_val[i].appenders[k] in new_val[i].appenders;
    }
  }

  lemma UnchangedIff(old_val: ConfigSet, entry: LoggerConfig)
    requires DistinctNames(old_val)
    ensures Unchanged(old_val, entry) <==> entry in old_val
  {
    if entry in old_val {
      var i :| 0 <= i < |old_val| && old_val[i] == entry;
      var k := Find(old_val, entry.name);
      assert k == i;
    }
  }

  // ----- patterns that are refused, as texts

  /** From position k on the text is a directive whose parameter is never closed: a percent sign, letters up to an
      opening brace at m, and no closing brace anywhere. */
  ghost predicate OpenFrom(s: string, k: nat, m: nat) {
    && k < m < |s| && s[k] == '%' && s[m] == '{'
    && (forall i :: k < i < m ==> 'A' <= s[i] <= 'Z' || 'a' <= s[i] <= 'z')
    && (forall i :: k < i < |s| ==> s[i] != '}')
  }

  lemma OpenHere(s: string, m: nat)
    requires OpenFrom(s, 0, m)
    ensures !LiteralHead(s) && Directive(s).Unclosed?
  {
    var name, param := s[1..m], s[m + 1..];
    assert s == ['%'] + name + ['{'] + param + "";
    BracedUnique(name, param, "");
  }

  lemma BlockLetters(b: Block, after: string)
    requires Fits(b, after)
    ensures b.Bare? ==> forall k :: 0 < k < |Text(b)| ==> Text(b)[k] != '%'
    ensures b.Braced? ==> |Text(b)| > 2 && Text(b)[|Text(b)| - 1] == '}'
  {
    if b.Bare? {
      forall k | 0 < k < |Text(b)| ensures Text(b)[k] != '%' { assert Text(b)[k] == b.name[k - 1]; }
    }
  }

  /** A block that reaches over such a place is itself never closed. */
  lemma OpenInside(s: string, k: nat, m: nat, b: Block)
    requires OpenFrom(s, k, m) && k < |Text(b)| <= |s| && s == Text(b) + s[|Text(b)|..] && Fits(b, s[|Text(b)|..])
    requires k > 0
    ensures b.Unclosed?
  {
    BlockLetters(b, s[|Text(b)|..]);
    assert Text(b)[k] == '%' && s[|Text(b)| - 1] == Text(b)[|Text(b)| - 1];
  }

  lemma OpenLater(s: string, k: nat, m: nat, n: nat)
    requires OpenFrom(s, k, m) && n <= k
    ensures OpenFrom(s[n..], k - n, m - n)
  {
  }

  /** How reading begins. */
  lemma FirstBlock(s: string) returns (b: Block, rest: string)
    requires s != ""
    ensures |Text(b)| <= |s| && s == Text(b) + rest && rest == s[|Text(b)|..] && Fits(b, rest)
    ensures b == (if LiteralHead(s) then Char(s[0]) else Directive(s)) && Lex(s) == [b] + Lex(rest)
  {
    b := if LiteralHead(s) then Char(s[0]) else Directive(s);
    rest := s[|Text(b)|..];
    if !LiteralHead(s) { DirectiveFits(s); }
  }

  lemma UnclosedLater(b: Block, bs: seq<Block>)
    requires b.Unclosed? || !NoneUnclosed(bs)
    ensures !NoneUnclosed([b] + bs)
  {
    if b.Unclosed? {
      assert ([b] + bs)[0].Unclosed?;
    } else {
      var i :| 0 <= i < |bs| && bs[i].Unclosed?;
      assert ([b] + bs)[i + 1].Unclosed?;
    }
  }

  lemma OpenFirst(s: string, k: nat, m: nat)
    requires OpenFrom(s, k, m) && k < |Text(Lex(s)[0])|
    ensures !NoneUnclosed(Lex(s))
  {
    var b, rest := FirstBlock(s);
    if k == 0 { OpenHere(s, m); } else { OpenInside(s, k, m, b); }
    UnclosedLater(b, Lex(rest));
  }

  /** A text with such a place has an open parameter, whatever stands before it. */
  lemma {:induction false} OpenIsUnclosed(s: string, k: nat, m: nat)
    requires OpenFrom(s, k, m)
    ensures !NoneUnclosed(Lex(s))
    decreases |s|
  {
    var n := |Text(Lex(s)[0])|;
    if k < n {
      OpenFirst(s, k, m);
    } else {
      OpenLater(s, k, m, n);
      OpenIsUnclosed(s[n..], k - n, m - n);
      LaterUnclosed(s, n);
    }
  }

  lemma LaterUnclosed(s: string, n: nat)
    requires s != "" && n == |Text(Lex(s)[0])| <= |s| && !NoneUnclosed(Lex(s[n..]))
    ensures !NoneUnclosed(Lex(s))
  {
    var b, rest := FirstBlock(s);
    UnclosedLater(b, Lex(rest));
  }

  /** So an appender with such a formatter makes the change throw, unless it is skipped. */
  lemma OpenFormatterThrows(old_val: ConfigSet, new_val: ConfigSet, entry: LoggerConfig, a: AppenderConfig,
                            k: nat, m: nat)
    requires DistinctNames(old_val) && entry in new_val && entry !in old_val && a in entry.appenders
    requires !(entry.name == "root" && a.ty == 0) && OpenFrom(a.formatter, k, m)
    ensures !NoneFails(old_val, new_val)
  {
    OpenIsUnclosed(a.formatter, k, m);
    ChangeThrowsIff(old_val, new_val);
  }
}
