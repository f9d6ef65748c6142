/** The letters of the C locale, written out. */
module Letters {

  const CAPITALS := "ABCDEFGHIJKLMNOPQRSTUVWXYZ"
  const SMALL := "abcdefghijklmnopqrstuvwxyz"

  lemma CapitalsInOrder(k: nat)
    requires k < 26
    ensures |CAPITALS| == 26 && CAPITALS[k] as int == 'A' as int + k
  {
  }

  lemma SmallInOrder(k: nat)
    requires k < 26
    ensures |SMALL| == 26 && SMALL[k] as int == 'a' as int + k
  {
  }

  lemma CapitalRange(c: char)
    ensures c in CAPITALS <==> 'A' <= c <= 'Z'
  {
    if 'A' <= c <= 'Z' { CapitalsInOrder(c as int - 'A' as int); }
    if c in CAPITALS {
      var k :| 0 <= k < 26 && CAPITALS[k] == c;
      CapitalsInOrder(k);
    }
  }

  lemma SmallRange(c: char)
    ensures c in SMALL <==> 'a' <= c <= 'z'
  {
    if 'a' <= c <= 'z' { SmallInOrder(c as int - 'a' as int); }
    if c in SMALL {
      var k :| 0 <= k < 26 && SMALL[k] == c;
      SmallInOrder(k);
    }
  }

  /** The same character, or the capital and the small form of one letter. */
  ghost predicate SameLetter(c: char, d: char) {
    c == d
    || exists k :: 0 <= k < 26 && ((c == CAPITALS[k] && d == SMALL[k]) || (c == SMALL[k] && d == CAPITALS[k]))
  }

  /** The same text but for capitals. */
  ghost predicate SameUpToCase(a: string, b: string) {
    |a| == |b| && forall i :: 0 <= i < |a| ==> SameLetter(a[i], b[i])
  }
}
