/**
  Python 2 byte-string comparison `a < b`, which `Transcription.__lt__`
  applies to the rendered forms: the first differing character decides,
  and a proper prefix comes first.  Dafny's own `<` on sequences means
  "proper prefix", so the order is defined here.
 */
module StrOrder {
  predicate Less(a: string, b: string)
    decreases |a|
  {
    if a == [] then b != []
    else if b == [] then false
    else a[0] < b[0] || (a[0] == b[0] && Less(a[1..], b[1..]))
  }

  /** `a <= b` in the same order. */
  predicate LessEq(a: string, b: string)
  {
    a == b || Less(a, b)
  }

  /** The textbook description of the order, independent of the recursion. */
  predicate LexLess(a: string, b: string)
  {
    || (|a| < |b| && a == b[..|a|])
    || exists k :: 0 <= k < |a| && k < |b| && a[..k] == b[..k] && a[k] < b[k]
  }

  lemma {:induction false} LessIffLexLess(a: string, b: string)
    ensures Less(a, b) <==> LexLess(a, b)
    decreases |a|
  {
    if a != [] && b != [] {
      LessIffLexLess(a[1..], b[1..]);
      if a[0] < b[0] || (a[0] == b[0] && LexLess(a[1..], b[1..])) {
        LexLessFromHead(a, b);
      }
      if LexLess(a, b) {
        LexLessToHead(a, b);
      }
    } else {
      assert a[..0] == b[..0];
    }
  }

  /** A smaller first character, or an equal one followed by smaller tails, makes the string smaller. */
  lemma LexLessFromHead(a: string, b: string)
    requires a != [] && b != []
    requires a[0] < b[0] || (a[0] == b[0] && LexLess(a[1..], b[1..]))
    ensures LexLess(a, b)
  {
    if a[0] < b[0] {
      assert a[..0] == b[..0];
    } else if |a[1..]| < |b[1..]| && a[1..] == b[1..][..|a[1..]|] {
      assert a == [a[0]] + a[1..] && b[..|a|] == [b[0]] + b[1..][..|a[1..]|];
    } else {
      var k :| 0 <= k < |a[1..]| && k < |b[1..]| && a[1..][..k] == b[1..][..k] && a[1..][k] < b[1..][k];
      assert a[..k + 1] == [a[0]] + a[1..][..k] && b[..k + 1] == [b[0]] + b[1..][..k];
      assert a[k + 1] < b[k + 1];
    }
  }

  /** A smaller string has a smaller first character, or an equal one followed by smaller tails. */
  lemma LexLessToHead(a: string, b: string)
    requires a != [] && b != [] && LexLess(a, b)
    ensures a[0] < b[0] || (a[0] == b[0] && LexLess(a[1..], b[1..]))
  {
    if |a| < |b| && a == b[..|a|] {
      assert a[0] == b[..|a|][0];
      assert a[1..] == b[1..][..|a[1..]|];
    } else {
      var k :| 0 <= k < |a| && k < |b| && a[..k] == b[..k] && a[k] < b[k];
      if k > 0 {
        assert a[0] == a[..k][0] && b[0] == b[..k][0];
        assert a[1..][..k - 1] == a[..k][1..] && b[1..][..k - 1] == b[..k][1..];
        assert a[1..][k - 1] < b[1..][k - 1];
      }
    }
  }

  lemma {:induction false} LessIrreflexive(a: string)
    ensures !Less(a, a)
    decreases |a|
  {
    if a != [] {
      LessIrreflexive(a[1..]);
    }
  }

  lemma {:induction false} LessAsymmetric(a: string, b: string)
    requires Less(a, b)
    ensures !Less(b, a)
    decreases |a|
  {
    if a != [] && b != [] && a[0] == b[0] {
      LessAsymmetric(a[1..], b[1..]);
    }
  }

  lemma {:induction false} LessTransitive(a: string, b: string, c: string)
    requires Less(a, b) && Less(b, c)
    ensures Less(a, c)
    decreases |a|
  {
    if a != [] && a[0] == b[0] && b[0] == c[0] {
      LessTransitive(a[1..], b[1..], c[1..]);
    }
  }

  lemma {:induction false} LessTotal(a: string, b: string)
    ensures a == b || Less(a, b) || Less(b, a)
    decreases |a|
  {
    if a != [] && b != [] && a[0] == b[0] {
      LessTotal(a[1..], b[1..]);
      if a[1..] == b[1..] {
        assert a == [a[0]] + a[1..] && b == [b[0]] + b[1..];
      }
    }
  }

  /** Two strings each at most the other are equal. */
  lemma LessEqAntisymmetric(a: string, b: string)
    requires LessEq(a, b) && LessEq(b, a)
    ensures a == b
  {
    if Less(a, b) {
      LessAsymmetric(a, b);
    }
  }

  lemma LessEqTransitive(a: string, b: string, c: string)
    requires LessEq(a, b) && LessEq(b, c)
    ensures LessEq(a, c)
  {
    if Less(a, b) && Less(b, c) {
      LessTransitive(a, b, c);
    }
  }

  /** Not less means at least. */
  lemma NotLessIsLessEq(a: string, b: string)
    requires !Less(a, b)
    ensures LessEq(b, a)
  {
    LessTotal(a, b);
  }
}
