/** The completion handler's two conversions between an editor's cursor (UTF-16 units) and a byte
    offset into the SQL text. */
module CursorOffsets {
  import opened Wrappers
  import opened Utf

  datatype CursorError = Negative | SplitsSurrogatePair | OutsideText

  // ---------------------------------------------------------------- the two loops as functions

  function Scan(t: Text, i: nat, units: nat, offset: nat): Result<nat, CursorError>
    decreases |t| - i
  {
    if i >= |t| then
      if units == offset then Success(|t|) else Failure(OutsideText)
    else if units == offset then Success(i)
    else
      var width := if DecodeAt(t, i).0 > 0xFFFF then 2 else 1;
      if units + width > offset then Failure(SplitsSurrogatePair)
      else Scan(t, i + DecodeAt(t, i).1, units + width, offset)
  }

  function ToByteOffset(t: Text, offset: int): Result<nat, CursorError> {
    if offset < 0 then Failure(Negative) else Scan(t, 0, 0, offset)
  }

  function CountUnits(t: Text, i: nat, byteOffset: nat): nat
    decreases |t| - i
  {
    if i >= |t| || i >= byteOffset then 0
    else (if DecodeAt(t, i).0 > 0xFFFF then 2 else 1) + CountUnits(t, i + DecodeAt(t, i).1, byteOffset)
  }

  function ToUtf16Offset(t: Text, byteOffset: int): nat {
    if byteOffset <= 0 then 0 else CountUnits(t, 0, if byteOffset > |t| then |t| else byteOffset)
  }

  method Utf16OffsetToByteOffset(text: Text, offset: int) returns (result: Result<nat, CursorError>)
    ensures result == ToByteOffset(text, offset)
  {
    if offset < 0 {
      return Failure(Negative);
    }
    var units, byteOffset := 0, 0;
    while byteOffset < |text|
      invariant byteOffset <= |text|
      invariant Scan(text, 0, 0, offset) == Scan(text, byteOffset, units, offset)
      decreases |text| - byteOffset
    {
      var (r, size) := DecodeAt(text, byteOffset);
      if units == offset {
        return Success(byteOffset);
      }
      var width := 1;
      if r > 0xFFFF {
        width := 2;
      }
      if units + width > offset {
        return Failure(SplitsSurrogatePair);
      }
      units := units + width;
      byteOffset := byteOffset + size;
    }
    if units == offset {
      return Success(|text|);
    }
    return Failure(OutsideText);
  }

  /** The validity test at the end returns the same count either way, so it is not repeated. */
  method ByteOffsetToUtf16Offset(text: Text, byteOffset: int) returns (units: nat)
    ensures units == ToUtf16Offset(text, byteOffset)
  {
    if byteOffset <= 0 {
      return 0;
    }
    var end := byteOffset;
    if byteOffset > |text| {
      end := |text|;
    }
    units := 0;
    var i := 0;
    while i < |text| && i < end
      invariant i <= |text|
      invariant CountUnits(text, 0, end) == units + CountUnits(text, i, end)
      decreases |text| - i
    {
      var (r, size) := DecodeAt(text, i);
      if r > 0xFFFF {
        units := units + 2;
      } else {
        units := units + 1;
      }
      i := i + size;
    }
  }

  // ---------------------------------------------------------------- what they mean

  lemma {:induction false} CountUnitsMeans(t: Text, i: nat, byteOffset: nat)
    requires byteOffset <= |t|
    ensures CountUnits(t, i, byteOffset) == |UnitsBetween(t, i, byteOffset)|
    decreases |t| - i
  {
    if i < |t| && i < byteOffset {
      CountUnitsMeans(t, i + DecodeAt(t, i).1, byteOffset);
    }
  }

  lemma {:induction false} ScanFinds(t: Text, i: nat, units: nat, offset: nat)
    requires i <= |t| && units <= offset && Scan(t, i, units, offset).Success?
    ensures var b := Scan(t, i, units, offset).value;
            b <= |t| && IsBoundaryFrom(t, i, b) && units + |UnitsBetween(t, i, b)| == offset
    decreases |t| - i
  {
    if i < |t| && units < offset {
      var (r, size) := DecodeAt(t, i);
      var b := Scan(t, i, units, offset).value;
      ScanFinds(t, i + size, units + |Units(r)|, offset);
      BoundaryRange(t, i + size, b);
    }
  }

  lemma {:induction false} ScanRunsOut(t: Text, i: nat, units: nat, offset: nat)
    requires i <= |t| && units <= offset && Scan(t, i, units, offset) == Failure(OutsideText)
    ensures offset > units + |UnitsBetween(t, i, |t|)|
    decreases |t| - i
  {
    if i < |t| {
      ScanRunsOut(t, i + DecodeAt(t, i).1, units + |Units(DecodeAt(t, i).0)|, offset);
    }
  }

  lemma {:induction false} ScanSplits(t: Text, i: nat, units: nat, offset: nat)
    requires i <= |t| && units <= offset && Scan(t, i, units, offset) == Failure(SplitsSurrogatePair)
    ensures 0 < offset - units < |UnitsBetween(t, i, |t|)|
    ensures IsLowSurrogate(UnitsBetween(t, i, |t|)[offset - units])
    decreases |t| - i
  {
    var (r, size) := DecodeAt(t, i);
    if units + |Units(r)| <= offset {
      ScanSplits(t, i + size, units + |Units(r)|, offset);
    }
  }

  lemma {:induction false} ScanErrors(t: Text, i: nat, units: nat, offset: nat)
    requires i <= |t|
    ensures Scan(t, i, units, offset) != Failure(Negative)
    decreases |t| - i
  {
    if i < |t| {
      ScanErrors(t, i + DecodeAt(t, i).1, units + |Units(DecodeAt(t, i).0)|, offset);
    }
  }

  /** The unit after a whole-rune prefix starts a rune, so it is not the second half of a pair. */
  lemma UnitAtBoundary(t: Text, b: nat)
    requires IsBoundary(t, b) && b <= |t|
    ensures Utf16(t) == UnitsBetween(t, 0, b) + UnitsBetween(t, b, |t|)
    ensures |UnitsBetween(t, 0, b)| < |Utf16(t)| ==> !IsLowSurrogate(Utf16(t)[|UnitsBetween(t, 0, b)|])
  {
    UnitsSplit(t, 0, b, |t|);
    if b < |t| {
      var u := Units(DecodeAt(t, b).0);
      assert UnitsBetween(t, b, |t|)[0] == u[0];
      assert |u| == 2 ==> IsHighSurrogate(u[0]);
    }
  }

  /** A cursor is refused exactly when it is negative, past the end of the text in UTF-16, or between
      the two halves of a surrogate pair; otherwise it is the end of a whole-rune prefix of that length. */
  lemma ByteOffsetMeans(t: Text, offset: int)
    ensures ToByteOffset(t, offset) == Failure(Negative) <==> offset < 0
    ensures ToByteOffset(t, offset) == Failure(OutsideText) <==> offset > |Utf16(t)|
    ensures ToByteOffset(t, offset) == Failure(SplitsSurrogatePair) <==>
            0 <= offset < |Utf16(t)| && IsLowSurrogate(Utf16(t)[offset])
    ensures ToByteOffset(t, offset).Success? ==>
              var b := ToByteOffset(t, offset).value;
              b <= |t| && IsBoundary(t, b) && 0 <= offset <= |Utf16(t)| && Utf16(t[..b]) == Utf16(t)[..offset]
  {
    if offset >= 0 {
      ScanErrors(t, 0, 0, offset);
      match Scan(t, 0, 0, offset)
      case Success(b) =>
        ScanFinds(t, 0, 0, offset);
        UnitsOfPrefix(t, 0, b);
        UnitAtBoundary(t, b);
      case Failure(OutsideText) => ScanRunsOut(t, 0, 0, offset);
      case Failure(SplitsSurrogatePair) => ScanSplits(t, 0, 0, offset);
      case Failure(Negative) =>
    }
  }

  /** A byte offset inside the text counts the units of the runes that start before it. */
  lemma Utf16OffsetMeans(t: Text, b: nat)
    requires b <= |t|
    ensures ToUtf16Offset(t, b) == |UnitsBetween(t, 0, b)|
    ensures IsBoundary(t, b) ==> ToUtf16Offset(t, b) == |Utf16(t[..b])|
  {
    CountUnitsMeans(t, 0, b);
    if IsBoundary(t, b) {
      UnitsOfPrefix(t, 0, b);
    }
  }

  // ---------------------------------------------------------------- the round trips

  /** Editor to server and back: the same cursor. */
  lemma CursorSurvives(t: Text, offset: int)
    requires ToByteOffset(t, offset).Success?
    ensures ToUtf16Offset(t, ToByteOffset(t, offset).value) == offset
  {
    var b := ToByteOffset(t, offset).value;
    ScanFinds(t, 0, 0, offset);
    CountUnitsMeans(t, 0, b);
  }

  lemma {:induction false} ScanReaches(t: Text, i: nat, b: nat, units: nat)
    requires i <= |t| && IsBoundaryFrom(t, i, b)
    ensures b <= |t| && Scan(t, i, units, units + CountUnits(t, i, b)) == Success(b)
    decreases |t| - i
  {
    BoundaryRange(t, i, b);
    if i != b {
      var (r, size) := DecodeAt(t, i);
      BoundaryRange(t, i + size, b);
      ScanReaches(t, i + size, b, units + if r > 0xFFFF then 2 else 1);
    }
  }

  /** Server to editor and back: the same byte exactly when it is between two runes. */
  lemma ByteSurvivesIffBoundary(t: Text, b: nat)
    requires b <= |t|
    ensures ToByteOffset(t, ToUtf16Offset(t, b)) == Success(b) <==> IsBoundary(t, b)
  {
    if IsBoundary(t, b) {
      ScanReaches(t, 0, b, 0);
    } else {
      ByteOffsetMeans(t, ToUtf16Offset(t, b));
    }
  }

  /** Out-of-range byte offsets are first moved to the nearer end of the text. */
  lemma OutOfRangeBytesClamp(t: Text, byteOffset: int)
    ensures byteOffset <= 0 ==> ToByteOffset(t, ToUtf16Offset(t, byteOffset)) == Success(0)
    ensures byteOffset >= |t| ==> ToByteOffset(t, ToUtf16Offset(t, byteOffset)) == Success(|t|)
  {
    EndIsBoundary(t, 0);
    ByteSurvivesIffBoundary(t, 0);
    ByteSurvivesIffBoundary(t, |t|);
  }

  lemma {:induction false} EndIsBoundary(t: Text, i: nat)
    requires i <= |t|
    ensures IsBoundaryFrom(t, i, |t|)
    decreases |t| - i
  {
    if i < |t| {
      EndIsBoundary(t, i + DecodeAt(t, i).1);
    }
  }
}
