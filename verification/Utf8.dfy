/** Byte strings, UTF-8 well-formedness and white-space trimming as Go's `utf8` and `strings` define them. */
module Utf8 {

  type byte = b: int | 0 <= b < 256

  type Bytes = seq<byte>

  const RUNE_MAX: nat := 4

  predicate IsContinuation(b: byte) {
    0x80 <= b < 0xC0
  }

  /** `utf8.RuneStart`. */
  predicate RuneStart(b: byte) {
    !IsContinuation(b)
  }

  /** Length of the well-formed rune at the front of `s`, or 0 when there is none. */
  function RuneLength(s: Bytes): (n: nat)
    ensures n <= |s| && n <= RUNE_MAX
  {
    if s == [] then 0
    else if s[0] < 0x80 then 1
    else if 0xC2 <= s[0] <= 0xDF then
      if |s| >= 2 && IsContinuation(s[1]) then 2 else 0
    else if 0xE0 <= s[0] <= 0xEF then
      if |s| >= 3 && IsContinuation(s[1]) && IsContinuation(s[2])
         && (s[0] == 0xE0 ==> 0xA0 <= s[1]) && (s[0] == 0xED ==> s[1] < 0xA0)
      then 3 else 0
    else if 0xF0 <= s[0] <= 0xF4 then
      if |s| >= 4 && IsContinuation(s[1]) && IsContinuation(s[2]) && IsContinuation(s[3])
         && (s[0] == 0xF0 ==> 0x90 <= s[1]) && (s[0] == 0xF4 ==> s[1] < 0x90)
      then 4 else 0
    else 0
  }

  /** `utf8.ValidString`. */
  predicate Valid(s: Bytes)
    decreases |s|
  {
    s == [] || (RuneLength(s) > 0 && Valid(s[RuneLength(s)..]))
  }

  /** Length of the white-space rune at the front of `s` (`unicode.IsSpace`), or 0. */
  function SpaceLength(s: Bytes): (n: nat)
    ensures n <= |s|
  {
    if s == [] then 0
    else if IsAsciiSpace(s[0]) then 1
    else if |s| >= 2 && IsSpace2(s[0], s[1]) then 2
    else if |s| >= 3 && IsSpace3(s[0], s[1], s[2]) then 3
    else 0
  }

  predicate IsAsciiSpace(b: byte) {
    9 <= b <= 13 || b == 32
  }

  /** U+0085 and U+00A0. */
  predicate IsSpace2(a: byte, b: byte) {
    a == 0xC2 && (b == 0x85 || b == 0xA0)
  }

  /** U+1680, U+2000..U+200A, U+2028, U+2029, U+202F, U+205F and U+3000. */
  predicate IsSpace3(a: byte, b: byte, c: byte) {
    || (a == 0xE1 && b == 0x9A && c == 0x80)
    || (a == 0xE2 && b == 0x81 && c == 0x9F)
    || (a == 0xE3 && b == 0x80 && c == 0x80)
    || (a == 0xE2 && b == 0x80 && (0x80 <= c <= 0x8A || c == 0xA8 || c == 0xA9 || c == 0xAF))
  }

  /** Length of the white-space rune at the end of `s`, or 0. */
  function SpaceSuffix(s: Bytes): (n: nat)
    ensures n <= |s|
  {
    if s == [] then 0
    else if IsAsciiSpace(s[|s| - 1]) then 1
    else if |s| >= 2 && IsSpace2(s[|s| - 2], s[|s| - 1]) then 2
    else if |s| >= 3 && IsSpace3(s[|s| - 3], s[|s| - 2], s[|s| - 1]) then 3
    else 0
  }

  function TrimLeft(s: Bytes): (r: Bytes)
    ensures |r| <= |s|
    decreases |s|
  {
    if SpaceLength(s) == 0 then s else TrimLeft(s[SpaceLength(s)..])
  }

  function TrimRight(s: Bytes): (r: Bytes)
    ensures |r| <= |s|
    decreases |s|
  {
    if SpaceSuffix(s) == 0 then s else TrimRight(s[..|s| - SpaceSuffix(s)])
  }

  /** `strings.TrimSpace` on well-formed text. */
  function TrimSpace(s: Bytes): (r: Bytes)
    ensures |r| <= |s|
  {
    TrimRight(TrimLeft(s))
  }

  function Concat(parts: seq<Bytes>): Bytes {
    if parts == [] then [] else parts[0] + Concat(parts[1..])
  }

  // ---------------------------------------------------------------- facts

  lemma RuneOfPrefix(a: Bytes, b: Bytes)
    requires RuneLength(a) > 0
    ensures RuneLength(a + b) == RuneLength(a)
  {
    var n := RuneLength(a);
    assert forall i :: 0 <= i < n ==> (a + b)[i] == a[i];
  }

  lemma {:induction false} ValidConcat(a: Bytes, b: Bytes)
    requires Valid(a) && Valid(b)
    ensures Valid(a + b)
    decreases |a|
  {
    if a == [] {
      assert a + b == b;
    } else {
      RuneOfPrefix(a, b);
      ValidConcat(a[RuneLength(a)..], b);
      assert (a + b)[RuneLength(a)..] == a[RuneLength(a)..] + b;
    }
  }

  /** A rune never runs across a byte below 0x80: well-formed text splits at every ASCII byte. */
  lemma {:induction false} ValidSplit(a: Bytes, c: byte, b: Bytes)
    requires c < 0x80
    requires Valid(a + [c] + b)
    ensures Valid(a) && Valid(b)
    decreases |a|
  {
    var s := a + [c] + b;
    var n := RuneLength(s);
    if a == [] {
      assert s[0] == c && n == 1 && s[1..] == b;
    } else {
      assert n <= |a| by { assert s[|a|] == c; }
      assert forall i :: 0 <= i < n ==> s[i] == a[i];
      assert RuneLength(a) == n;
      assert s[n..] == a[n..] + [c] + b;
      ValidSplit(a[n..], c, b);
    }
  }

  lemma RuneOfTake(s: Bytes, m: nat)
    requires 0 < RuneLength(s) <= m <= |s|
    ensures RuneLength(s[..m]) == RuneLength(s)
  {
    var p := s[..m];
    assert p[0] == s[0];
    assert m >= 2 ==> p[1] == s[1];
    assert m >= 3 ==> p[2] == s[2];
    assert m >= 4 ==> p[3] == s[3];
  }

  /** Cutting well-formed text where a rune starts (or at its end) leaves well-formed pieces. */
  lemma {:induction false} ValidCut(s: Bytes, cut: nat)
    requires Valid(s) && cut <= |s|
    requires cut == |s| || RuneStart(s[cut])
    ensures Valid(s[..cut]) && Valid(s[cut..])
    decreases |s|
  {
    if cut == 0 {
      assert s[cut..] == s;
    } else {
      var n := RuneLength(s);
      var t := s[n..];
      assert cut >= n;
      ValidCut(t, cut - n);
      RuneOfTake(s, cut);
      assert t[cut - n..] == s[cut..];
      assert t[..cut - n] == s[..cut][n..];
    }
  }

  lemma {:induction false} ValidAscii(s: Bytes)
    requires forall i :: 0 <= i < |s| ==> s[i] < 0x80
    ensures Valid(s)
  {
    if s != [] {
      ValidAscii(s[1..]);
    }
  }
}
