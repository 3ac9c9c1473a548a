/**
 * The decoding a Go `for i, r := range s` loop performs: at each byte offset
 * it decodes one rune as `utf8.DecodeRuneInString` does and moves on by that
 * rune's width. An invalid or truncated encoding decodes as `RuneError` with
 * width 1.
 */
module Utf8 {
  import opened GoStrings

  const RuneError := 0xFFFD
  const RuneSelf := 0x80

  predicate InRange(b: Byte, lo: int, hi: int) {
    lo <= b as int <= hi
  }

  predicate IsContinuation(b: Byte) {
    InRange(b, 0x80, 0xBF)
  }

  /**
   * The rune at byte offset `i` and its width in bytes. Lead bytes C2-DF start
   * two-byte runes, E0-EF three-byte runes and F0-F4 four-byte runes; the
   * second byte of E0, ED, F0 and F4 has a narrower range, which excludes
   * overlong forms, surrogates and code points above 10FFFF.
   */
  function DecodeRune(s: Bytes, i: nat): (d: (int, nat))
    requires i < |s|
    ensures 1 <= d.1 <= 4 && i + d.1 <= |s|
    ensures s[i] as int < RuneSelf ==> d == (s[i] as int, 1)
    ensures s[i] as int >= RuneSelf ==> RuneSelf <= d.0 <= 0x10FFFF
    ensures s[i] as int >= RuneSelf && d.1 == 1 ==> d.0 == RuneError
    ensures (RuneSelf <= s[i] as int < 0xC2 || 0xF4 < s[i] as int) ==> d == (RuneError, 1)
  {
    var b0 := s[i] as int;
    if b0 < RuneSelf then (b0, 1)
    else if 0xC2 <= b0 <= 0xDF then
      if i + 1 < |s| && IsContinuation(s[i + 1])
      then ((b0 - 0xC0) * 0x40 + (s[i + 1] as int - 0x80), 2)
      else (RuneError, 1)
    else if 0xE0 <= b0 <= 0xEF then
      var lo := if b0 == 0xE0 then 0xA0 else 0x80;
      var hi := if b0 == 0xED then 0x9F else 0xBF;
      if i + 2 < |s| && InRange(s[i + 1], lo, hi) && IsContinuation(s[i + 2])
      then ((b0 - 0xE0) * 0x1000 + (s[i + 1] as int - 0x80) * 0x40 + (s[i + 2] as int - 0x80), 3)
      else (RuneError, 1)
    else if 0xF0 <= b0 <= 0xF4 then
      var lo := if b0 == 0xF0 then 0x90 else 0x80;
      var hi := if b0 == 0xF4 then 0x8F else 0xBF;
      if i + 3 < |s| && InRange(s[i + 1], lo, hi) && IsContinuation(s[i + 2]) && IsContinuation(s[i + 3])
      then ((b0 - 0xF0) * 0x40000 + (s[i + 1] as int - 0x80) * 0x1000
            + (s[i + 2] as int - 0x80) * 0x40 + (s[i + 3] as int - 0x80), 4)
      else (RuneError, 1)
    else (RuneError, 1)
  }

  /** The byte offsets, from `i` on, at which the `range` loop decodes a rune. */
  function RangeOffsets(s: Bytes, i: nat): (offs: seq<nat>)
    requires i <= |s|
    ensures forall k :: 0 <= k < |offs| ==> i <= offs[k] < |s|
    ensures i < |s| ==> |offs| > 0 && offs[0] == i
    decreases |s| - i
  {
    if i == |s| then [] else [i] + RangeOffsets(s, i + DecodeRune(s, i).1)
  }

  /** Where every byte from `i` up to `k` is ASCII, the loop reaches `k`. */
  lemma {:induction false} AsciiPrefixReachesOffset(s: Bytes, i: nat, k: nat)
    requires i <= k < |s|
    requires forall j :: i <= j < k ==> s[j] as int < RuneSelf
    ensures k in RangeOffsets(s, i)
    decreases k - i
  {
    if i < k {
      AsciiPrefixReachesOffset(s, i + 1, k);
    }
  }

  /** Over an ASCII string the loop visits every byte offset. */
  lemma AsciiVisitsEveryOffset(s: Bytes)
    requires IsAscii(s)
    ensures forall k :: 0 <= k < |s| ==> k in RangeOffsets(s, 0)
  {
    forall k | 0 <= k < |s|
      ensures k in RangeOffsets(s, 0)
    {
      AsciiPrefixReachesOffset(s, 0, k);
    }
  }
}
