/** Text as the program sees it: bytes read as UTF-8 (RFC 3629, section 3) by the language's own rune
    loop, and the UTF-16 code units (RFC 2781, section 2.1) in which an editor counts. */
module Utf {

  type Byte = b: int | 0 <= b < 0x100
  type Text = seq<Byte>

  const REPLACEMENT := 0xFFFD

  predicate IsScalar(r: int) {
    0 <= r < 0xD800 || 0xE000 <= r <= 0x10FFFF
  }

  predicate IsContinuation(b: Byte) {
    0x80 <= b <= 0xBF
  }

  predicate StartsThree(b0: Byte, b1: Byte) {
    if b0 == 0xE0 then 0xA0 <= b1 <= 0xBF
    else if b0 == 0xED then 0x80 <= b1 <= 0x9F
    else 0xE1 <= b0 <= 0xEF && IsContinuation(b1)
  }

  predicate StartsFour(b0: Byte, b1: Byte) {
    if b0 == 0xF0 then 0x90 <= b1 <= 0xBF
    else if b0 == 0xF4 then 0x80 <= b1 <= 0x8F
    else 0xF1 <= b0 <= 0xF3 && IsContinuation(b1)
  }

  /** The rune a rune loop yields at byte `i` and how many bytes it covers. A byte that starts no
      well-formed sequence is one replacement character. */
  function DecodeAt(t: Text, i: nat): (rune: (int, nat))
    requires i < |t|
    ensures IsScalar(rune.0) && 1 <= rune.1 <= 4 && i + rune.1 <= |t|
    ensures rune.0 > 0xFFFF <==> rune.1 == 4
  {
    var n, b0 := |t| - i, t[i];
    if b0 < 0x80 then (b0, 1)
    else if 0xC2 <= b0 <= 0xDF && n >= 2 && IsContinuation(t[i + 1]) then
      (Append(b0 as int - 0xC0, t[i + 1]), 2)
    else if n >= 3 && StartsThree(b0, t[i + 1]) && IsContinuation(t[i + 2]) then
      (Append(Append(b0 as int - 0xE0, t[i + 1]), t[i + 2]), 3)
    else if n >= 4 && StartsFour(b0, t[i + 1]) && IsContinuation(t[i + 2]) && IsContinuation(t[i + 3]) then
      (Append(Append(Append(b0 as int - 0xF0, t[i + 1]), t[i + 2]), t[i + 3]), 4)
    else (REPLACEMENT, 1)
  }

  /** The six payload bits of a continuation byte appended to the bits read so far. */
  function Append(bits: int, b: Byte): int {
    bits * 0x40 + (b as int - 0x80)
  }

  /** The UTF-8 form of a scalar value, RFC 3629 section 3: its bits in groups of six, last group last. */
  function Encode(r: int): Text
    requires IsScalar(r)
  {
    if r < 0x80 then [r]
    else if r < 0x800 then [0xC0 + r / 0x40, 0x80 + r % 0x40]
    else if r < 0x10000 then [0xE0 + r / 0x40 / 0x40, 0x80 + r / 0x40 % 0x40, 0x80 + r % 0x40]
    else [0xF0 + r / 0x40 / 0x40 / 0x40, 0x80 + r / 0x40 / 0x40 % 0x40, 0x80 + r / 0x40 % 0x40, 0x80 + r % 0x40]
  }

  /** Where the UTF-8 form of a scalar value stands, the rune loop yields that value and its length. */
  lemma DecodeOfEncode(r: int, t: Text, i: nat)
    requires IsScalar(r) && i < |t| && Encode(r) <= t[i..]
    ensures DecodeAt(t, i) == (r, |Encode(r)|)
  {
    var e := Encode(r);
    assert e[0] == t[i..][0] == t[i];
    if |e| > 1 { assert e[1] == t[i..][1] == t[i + 1]; }
    if |e| > 2 { assert e[2] == t[i..][2] == t[i + 2]; }
    if |e| > 3 { assert e[3] == t[i..][3] == t[i + 3]; }
    assert r == r / 0x40 * 0x40 + r % 0x40;
  }

  /** The other way round: unless it is the one-byte replacement, what the rune loop yields is the
      value whose UTF-8 form stands there. */
  lemma EncodeOfDecode(t: Text, i: nat)
    requires i < |t| && DecodeAt(t, i) != (REPLACEMENT, 1)
    ensures Encode(DecodeAt(t, i).0) == t[i..i + DecodeAt(t, i).1]
  {
    var (r, n) := DecodeAt(t, i);
    if n == 2 {
      assert r / 0x40 == t[i] as int - 0xC0;
    } else if n == 3 {
      var r1 := Append(t[i] as int - 0xE0, t[i + 1]);
      assert r / 0x40 == r1 && r1 / 0x40 == t[i] as int - 0xE0;
    } else if n == 4 {
      var r1 := Append(t[i] as int - 0xF0, t[i + 1]);
      var r2 := Append(r1, t[i + 2]);
      assert r / 0x40 == r2 && r2 / 0x40 == r1 && r1 / 0x40 == t[i] as int - 0xF0;
    }
  }

  /** The UTF-16 units of a scalar value: itself, or a surrogate pair that stands for it. */
  function Units(r: int): (u: seq<int>)
    requires IsScalar(r)
    ensures |u| == (if r > 0xFFFF then 2 else 1)
    ensures |u| == 1 ==> !IsLowSurrogate(u[0]) && u[0] == r
    ensures |u| == 2 ==> IsHighSurrogate(u[0]) && IsLowSurrogate(u[1])
    ensures |u| == 2 ==> 0x10000 + (u[0] - 0xD800) * 0x400 + (u[1] - 0xDC00) == r
  {
    if r <= 0xFFFF then [r]
    else [0xD800 + (r - 0x10000) / 0x400, 0xDC00 + (r - 0x10000) % 0x400]
  }

  predicate IsHighSurrogate(unit: int) {
    0xD800 <= unit < 0xDC00
  }

  predicate IsLowSurrogate(unit: int) {
    0xDC00 <= unit < 0xE000
  }

  /** The UTF-16 units of the runes that start in `t[from..to]`. */
  function UnitsBetween(t: Text, from: nat, to: nat): seq<int>
    decreases |t| - from
  {
    if from >= to || from >= |t| then []
    else Units(DecodeAt(t, from).0) + UnitsBetween(t, from + DecodeAt(t, from).1, to)
  }

  /** The text in UTF-16. */
  function Utf16(t: Text): seq<int> {
    UnitsBetween(t, 0, |t|)
  }

  /** The rune loop started at `from` reaches byte `b` between two runes. */
  predicate IsBoundaryFrom(t: Text, from: nat, b: nat)
    decreases |t| - from
  {
    from == b || (from < |t| && IsBoundaryFrom(t, from + DecodeAt(t, from).1, b))
  }

  predicate IsBoundary(t: Text, b: nat) {
    IsBoundaryFrom(t, 0, b)
  }

  lemma {:induction false} BoundaryRange(t: Text, from: nat, b: nat)
    requires from <= |t| && IsBoundaryFrom(t, from, b)
    ensures from <= b <= |t|
    decreases |t| - from
  {
    if from != b {
      BoundaryRange(t, from + DecodeAt(t, from).1, b);
    }
  }

  lemma {:induction false} BoundaryStep(t: Text, from: nat, b: nat)
    requires from <= |t| && IsBoundaryFrom(t, from, b) && b < |t|
    ensures IsBoundaryFrom(t, from, b + DecodeAt(t, b).1)
    decreases |t| - from
  {
    if from != b {
      BoundaryStep(t, from + DecodeAt(t, from).1, b);
    } else {
      assert IsBoundaryFrom(t, b + DecodeAt(t, b).1, b + DecodeAt(t, b).1);
    }
  }

  lemma {:induction false} UnitsSplit(t: Text, from: nat, mid: nat, to: nat)
    requires from <= |t| && IsBoundaryFrom(t, from, mid) && mid <= to
    ensures UnitsBetween(t, from, to) == UnitsBetween(t, from, mid) + UnitsBetween(t, mid, to)
    decreases |t| - from
  {
    if from != mid {
      var next := from + DecodeAt(t, from).1;
      BoundaryRange(t, next, mid);
      UnitsSplit(t, next, mid, to);
    }
  }

  /** Cutting the text between two runes leaves the runes before the cut as they were. */
  lemma {:induction false} UnitsOfPrefix(t: Text, from: nat, b: nat)
    requires from <= |t| && IsBoundaryFrom(t, from, b)
    ensures b <= |t| && UnitsBetween(t[..b], from, b) == UnitsBetween(t, from, b)
    decreases |t| - from
  {
    BoundaryRange(t, from, b);
    if from != b {
      var next := from + DecodeAt(t, from).1;
      BoundaryRange(t, next, b);
      assert DecodeAt(t[..b], from) == DecodeAt(t, from);
      UnitsOfPrefix(t, next, b);
    }
  }
}
