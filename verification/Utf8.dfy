/** Byte strings, and which of them are UTF-8 (sections 3 and 4 of RFC 3629). */
module Utf8 {

  type byte = b: int | 0 <= b < 256

  type bytes = seq<byte>

  predicate IsContinuation(b: byte) {
    0x80 <= b <= 0xBF
  }

  /** The length of the well-formed sequence `s` starts with, or 0. */
  function Width(s: bytes): (w: nat)
    ensures w <= 4 && w <= |s|
  {
    if s == [] then 0
    else if s[0] < 0x80 then 1
    else if 0xC2 <= s[0] <= 0xDF && |s| >= 2 && IsContinuation(s[1]) then 2
    else if 0xE0 <= s[0] <= 0xEF && |s| >= 3 && IsContinuation(s[1]) && IsContinuation(s[2])
            && (s[0] == 0xE0 ==> 0xA0 <= s[1]) && (s[0] == 0xED ==> s[1] <= 0x9F) then 3
    else if 0xF0 <= s[0] <= 0xF4 && |s| >= 4
            && IsContinuation(s[1]) && IsContinuation(s[2]) && IsContinuation(s[3])
            && (s[0] == 0xF0 ==> 0x90 <= s[1]) && (s[0] == 0xF4 ==> s[1] <= 0x8F) then 4
    else 0
  }

  predicate Valid(s: bytes)
    decreases |s|
  {
    s == [] || (Width(s) > 0 && Valid(s[Width(s)..]))
  }

  /** `is_char_boundary`: the ends, and every byte that does not continue a sequence. */
  predicate IsBoundary(s: bytes, i: nat) {
    i == 0 || i == |s| || (i < |s| && !IsContinuation(s[i]))
  }

  /** Cutting valid text at a boundary leaves two valid texts. */
  lemma {:induction false} BoundarySplits(s: bytes, i: nat)
    requires Valid(s) && i <= |s| && IsBoundary(s, i)
    ensures Valid(s[..i]) && Valid(s[i..])
    decreases |s|
  {
    if i == 0 {
      assert s[0..] == s;
    } else {
      var w := Width(s);
      if i < w {
      }
      assert i < |s| ==> s[w..][i - w] == s[i];
      BoundarySplits(s[w..], i - w);
      assert s[..i][w..] == s[w..][..i - w];
      assert s[w..][i - w..] == s[i..];
    }
  }

  /** And nowhere else: a valid beginning of valid text ends at a boundary. */
  lemma {:induction false} ValidPrefixEndsAtBoundary(s: bytes, i: nat)
    requires Valid(s) && i <= |s| && Valid(s[..i])
    ensures IsBoundary(s, i)
    decreases |s|
  {
    if 0 < i < |s| {
      var w := Width(s[..i]);
      assert Width(s) == w;
      assert s[..i][w..] == s[w..][..i - w];
      ValidPrefixEndsAtBoundary(s[w..], i - w);
      if i == w {
        assert s[w..][0] == s[i];
      } else {
        assert s[w..][i - w] == s[i];
      }
    }
  }

  lemma {:induction false} ValidAppend(a: bytes, b: bytes)
    requires Valid(a) && Valid(b)
    ensures Valid(a + b)
    decreases |a|
  {
    if a == [] {
      assert a + b == b;
    } else {
      var w := Width(a);
      assert Width(a + b) == w;
      assert (a + b)[w..] == a[w..] + b;
      ValidAppend(a[w..], b);
    }
  }

  predicate IsAscii(s: string) {
    forall k :: 0 <= k < |s| ==> s[k] < '\U{80}'
  }

  function Ascii(s: string): (b: bytes)
    requires IsAscii(s)
    ensures |b| == |s| && forall k :: 0 <= k < |s| ==> b[k] < 0x80
  {
    if s == [] then [] else [s[0] as int] + Ascii(s[1..])
  }

  lemma {:induction false} AsciiIsValid(b: bytes)
    requires forall k :: 0 <= k < |b| ==> b[k] < 0x80
    ensures Valid(b)
    decreases |b|
  {
    if b != [] {
      AsciiIsValid(b[1..]);
    }
  }
}
