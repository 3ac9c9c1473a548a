/**
 * Go strings as the byte sequences they are, and Go's `<` on strings.
 *
 * A byte is written as a `char` below 256, so that string literals of the
 * source ("__name__", "value", "ns") can be written as they are.
 */
module GoStrings {
  type Byte = c: char | c as int < 256

  type Bytes = seq<Byte>

  predicate IsAscii(s: Bytes) {
    forall k :: 0 <= k < |s| ==> s[k] as int < 0x80
  }

  /**
   * Go's `a < b` on strings: lexicographic order, byte by byte. No string is
   * less than itself, and a proper prefix is less than the longer string.
   */
  predicate Less(a: Bytes, b: Bytes)
    ensures Less(a, b) ==> a != b
    ensures |a| < |b| && a == b[..|a|] ==> Less(a, b)
  {
    if |a| == 0 then |b| > 0
    else if |b| == 0 then false
    else if a[0] != b[0] then a[0] < b[0]
    else Less(a[1..], b[1..])
  }

  lemma {:induction false} LessIrreflexive(a: Bytes)
    ensures !Less(a, a)
  {
    if |a| > 0 {
      LessIrreflexive(a[1..]);
    }
  }

  lemma {:induction false} LessTransitive(a: Bytes, b: Bytes, c: Bytes)
    requires Less(a, b) && Less(b, c)
    ensures Less(a, c)
  {
    if |a| > 0 && a[0] == b[0] && b[0] == c[0] {
      LessTransitive(a[1..], b[1..], c[1..]);
    }
  }

  /** Two different strings are ordered one way or the other. */
  lemma {:induction false} LessTotal(a: Bytes, b: Bytes)
    requires a != b
    ensures Less(a, b) || Less(b, a)
  {
    if |a| > 0 && |b| > 0 && a[0] == b[0] {
      assert a == [a[0]] + a[1..] && b == [b[0]] + b[1..];
      LessTotal(a[1..], b[1..]);
    }
  }

  lemma LessAsymmetric(a: Bytes, b: Bytes)
    requires Less(a, b)
    ensures !Less(b, a)
  {
    if Less(b, a) {
      LessTransitive(a, b, a);
      LessIrreflexive(a);
    }
  }

  /** "Not less than" is transitive: the order `sort.Slice` sorts by is a total preorder. */
  lemma NotLessTransitive(a: Bytes, b: Bytes, c: Bytes)
    requires !Less(b, a) && !Less(c, b)
    ensures !Less(c, a)
  {
    if Less(c, a) {
      if b == a {
      } else {
        LessTotal(a, b);
        LessTransitive(c, a, b);
      }
    }
  }
}
