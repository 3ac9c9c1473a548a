/**
 * `replaceInvalidChars`: the sanitiser applied to metric names and tag keys.
 * It walks the string with `range`, replaces the byte at each rune offset
 * whose rune is not one of `[A-Za-z0-9_]` with `_`, and then prefixes `_`
 * when the first byte is a decimal digit.
 */
module Sanitize {
  import opened GoStrings
  import opened Utf8

  predicate IsNameRune(r: int) {
    (97 <= r <= 122) || (65 <= r <= 90) || (48 <= r <= 57) || r == 95
  }

  predicate IsNameByte(b: Byte) {
    IsNameRune(b as int)
  }

  predicate IsDigit(b: Byte) {
    '0' <= b <= '9'
  }

  /** A valid Prometheus label name: `[A-Za-z_][A-Za-z0-9_]*`. */
  predicate IsLabelName(s: Bytes) {
    |s| > 0 && !IsDigit(s[0]) && forall k :: 0 <= k < |s| ==> IsNameByte(s[k])
  }

  /** Whether the rune that starts at offset `k` is outside `[A-Za-z0-9_]`. */
  predicate InvalidRuneAt(s: Bytes, k: nat)
    requires k < |s|
  {
    !IsNameRune(DecodeRune(s, k).0)
  }

  /** Whether the `range` loop replaces the byte at offset `k`. */
  predicate ReplacedAt(s: Bytes, k: nat)
    requires k < |s|
  {
    k in RangeOffsets(s, 0) && InvalidRuneAt(s, k)
  }

  /**
   * The `range` loop from offset `i` on, with `t` the string as rewritten so
   * far: the lead byte of each invalid rune becomes `_`. Runes are decoded
   * from the original `s`, since `range` evaluates its operand once.
   */
  ghost function ContinueLoop(s: Bytes, t: Bytes, i: nat): (r: Bytes)
    requires i <= |s| && |t| == |s|
    ensures |r| == |s|
    decreases |s| - i
  {
    if i == |s| then t
    else ContinueLoop(s, if InvalidRuneAt(s, i) then t[i := '_'] else t, i + DecodeRune(s, i).1)
  }

  /** The string as the loop leaves it. */
  ghost function AfterLoop(s: Bytes): (t: Bytes)
    ensures |t| == |s|
  {
    ContinueLoop(s, s, 0)
  }

  /** Continuing the loop from `i` rewrites exactly the offsets it visits whose rune is invalid. */
  lemma {:induction false} ContinueLoopAt(s: Bytes, t: Bytes, i: nat, k: nat)
    requires i <= |s| && |t| == |s| && k < |s|
    ensures ContinueLoop(s, t, i)[k] == if k in RangeOffsets(s, i) && InvalidRuneAt(s, k) then '_' else t[k]
    decreases |s| - i
  {
    if i < |s| {
      var t' := if InvalidRuneAt(s, i) then t[i := '_'] else t;
      ContinueLoopAt(s, t', i + DecodeRune(s, i).1, k);
    }
  }

  /** The loop replaces a byte exactly where `ReplacedAt` says. */
  lemma AfterLoopAt(s: Bytes, k: nat)
    requires k < |s|
    ensures AfterLoop(s)[k] == if ReplacedAt(s, k) then '_' else s[k]
  {
    ContinueLoopAt(s, s, 0, k);
  }

  /** What `replaceInvalidChars` leaves in `*in`. */
  ghost function Sanitized(s: Bytes): (r: Bytes)
    requires |s| > 0
    ensures |r| == |s| + (if IsDigit(s[0]) then 1 else 0)
    ensures IsNameByte(r[0]) && !IsDigit(r[0])
  {
    var t := AfterLoop(s);
    AfterLoopAt(s, 0);
    if IsDigit(t[0]) then ['_' as Byte] + t else t
  }

  /**
   * The state of the `range` loop before the rune at offset `i`: `visited`
   * holds the offsets already decoded, and `r` has been rewritten at those
   * of them whose rune is invalid and nowhere else.
   */
  ghost predicate LoopState(s: Bytes, r: Bytes, visited: seq<nat>, i: nat) {
    i <= |s| && |r| == |s|
    && RangeOffsets(s, 0) == visited + RangeOffsets(s, i)
    && (forall v :: v in visited ==> v < i)
    && (forall k :: 0 <= k < i ==> r[k] == if k in visited && InvalidRuneAt(s, k) then '_' else s[k])
    && (forall k :: i <= k < |s| ==> r[k] == s[k])
  }

  /** `replaceInvalidChars(&in)`, with `*in` passed in and returned. */
  method ReplaceInvalidChars(s: Bytes) returns (r: Bytes)
    requires |s| > 0
    ensures r == Sanitized(s)
  {
    hide LoopState, DecodeRune;
    r := s;
    var i: nat := 0;
    ghost var visited: seq<nat> := [];
    LoopInit(s);
    while i < |s|
      invariant LoopState(s, r, visited, i)
      invariant |r| == |s|
      decreases |s| - i
    {
      var decoded := DecodeRune(s, i);
      var rune, width := decoded.0, decoded.1;
      ghost var before := r;
      if !IsNameRune(rune) {
        r := r[..i] + "_" + r[i + 1..];
      }
      LoopStep(s, before, r, visited, i);
      visited := visited + [i];
      i := i + width;
    }
    LoopResult(s, visited, r, i);
    if IsDigit(r[0]) {
      r := "_" + r;
    }
  }

  /** Before the loop nothing is visited and nothing is rewritten. */
  lemma LoopInit(s: Bytes)
    ensures LoopState(s, s, [], 0)
  {
    assert [] + RangeOffsets(s, 0) == RangeOffsets(s, 0);
  }

  /** One iteration of the loop: decode the rune at `i`, rewrite its lead byte if it is invalid. */
  lemma LoopStep(s: Bytes, r: Bytes, r': Bytes, visited: seq<nat>, i: nat)
    requires LoopState(s, r, visited, i) && i < |s|
    requires r' == if InvalidRuneAt(s, i) then r[..i] + "_" + r[i + 1..] else r
    ensures LoopState(s, r', visited + [i], i + DecodeRune(s, i).1)
  {
    hide DecodeRune;
    var next := i + DecodeRune(s, i).1;
    var visited' := visited + [i];
    assert RangeOffsets(s, i) == [i] + RangeOffsets(s, next);
    assert RangeOffsets(s, 0) == visited' + RangeOffsets(s, next);
    forall k | 0 <= k < next
      ensures r'[k] == if k in visited' && InvalidRuneAt(s, k) then '_' else s[k]
    {
      assert k in visited' <==> k in visited || k == i;
      if i < k {
        assert k !in visited;
      }
    }
  }

  /** Once the loop has decoded every rune, the string is `AfterLoop(s)`. */
  lemma LoopResult(s: Bytes, visited: seq<nat>, r: Bytes, i: nat)
    requires LoopState(s, r, visited, i) && i >= |s|
    ensures r == AfterLoop(s)
  {
    forall k | 0 <= k < |s|
      ensures r[k] == AfterLoop(s)[k]
    {
      AfterLoopAt(s, k);
    }
  }

  /**
   * On an ASCII name every byte is a rune: each valid byte stays where it is,
   * each invalid byte becomes exactly one `_`, and a single `_` is prefixed
   * when the name starts with a digit. The result is a valid label name.
   */
  lemma SanitizedAscii(s: Bytes)
    requires |s| > 0 && IsAscii(s)
    ensures var p := if IsDigit(s[0]) then 1 else 0;
      && |Sanitized(s)| == |s| + p
      && (p == 1 ==> Sanitized(s)[0] == '_')
      && forall k :: 0 <= k < |s| ==>
           Sanitized(s)[k + p] == if IsNameByte(s[k]) then s[k] else '_'
    ensures IsLabelName(Sanitized(s))
  {
    AsciiVisitsEveryOffset(s);
    var t := AfterLoop(s);
    forall k | 0 <= k < |s|
      ensures t[k] == if IsNameByte(s[k]) then s[k] else '_'
    {
      AfterLoopAt(s, k);
      assert ReplacedAt(s, k) <==> !IsNameByte(s[k]);
    }
  }

  /** The sanitiser leaves a string unchanged exactly when it already is a valid label name. */
  lemma SanitizedFixedPoints(t: Bytes)
    requires |t| > 0
    ensures Sanitized(t) == t <==> IsLabelName(t)
  {
    if IsLabelName(t) {
      forall k | 0 <= k < |t|
        ensures AfterLoop(t)[k] == t[k]
      {
        AfterLoopAt(t, k);
        assert !InvalidRuneAt(t, k);
      }
    }
    if Sanitized(t) == t {
      PrefixOfFixedPointIsNames(t, |t|);
    }
  }

  /** Where the loop changes nothing, every byte below `n` is a name byte (induction on `n`). */
  lemma {:induction false} PrefixOfFixedPointIsNames(t: Bytes, n: nat)
    requires n <= |t| && AfterLoop(t) == t
    ensures forall j :: 0 <= j < n ==> IsNameByte(t[j])
  {
    if n > 0 {
      PrefixOfFixedPointIsNames(t, n - 1);
      var k := n - 1;
      AsciiPrefixReachesOffset(t, 0, k);
      AfterLoopAt(t, k);
    }
  }

  /** Sanitising an ASCII name twice gives what sanitising it once gives. */
  lemma SanitizeIdempotent(s: Bytes)
    requires |s| > 0 && IsAscii(s)
    ensures Sanitized(Sanitized(s)) == Sanitized(s)
  {
    SanitizedAscii(s);
    SanitizedFixedPoints(Sanitized(s));
  }

  /** The tag key `__name._` sanitises to `__name__`. */
  lemma SanitizedDotKey()
    ensures Sanitized("__name._") == "__name__"
  {
    hide Sanitized;
    SanitizedAscii("__name._");
    var key := Sanitized("__name._");
    assert !IsDigit('_');
    forall k | 0 <= k < 8
      ensures key[k] == "__name__"[k]
    {
      assert key[k] == if IsNameByte("__name._"[k]) then "__name._"[k] else '_';
    }
  }

  /**
   * Outside ASCII the loop replaces only the lead byte of a multi-byte rune:
   * the two-byte rune U+00E9 ("\xC3\xA9") becomes "_\xA9", which is no label
   * name, and sanitising that again changes it to "__".
   */
  lemma MultiByteRuneKeepsContinuationByte()
    ensures Sanitized(['\U{C3}', '\U{A9}']) == ['_', '\U{A9}']
    ensures !IsLabelName(Sanitized(['\U{C3}', '\U{A9}']))
    ensures Sanitized(Sanitized(['\U{C3}', '\U{A9}'])) == "__"
  {
    var e: Bytes := ['\U{C3}', '\U{A9}'];
    assert DecodeRune(e, 0) == (0xE9, 2);
    assert RangeOffsets(e, 0) == [0];
    assert AfterLoop(e) == ['_', '\U{A9}'];
    var u: Bytes := ['_', '\U{A9}'];
    assert DecodeRune(u, 1) == (RuneError, 1);
    assert RangeOffsets(u, 0) == [0, 1];
    assert AfterLoop(u) == "__";
  }
}
