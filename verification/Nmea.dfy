/** The dates and checksums of NMEA 0183 sentences in a byte buffer, and the in-place
    repair of dates that a receiver reports 1024 weeks too early. */
module Nmea {
  import opened Civil

  type Byte = x: int | 0 <= x < 256

  /** Day number of 2019-04-07, when the GPS week number last started over. */
  const LAST_ROLLOVER: int := 17993

  predicate IsDigit(c: Byte) {
    '0' as int <= c <= '9' as int
  }

  predicate IsHex(c: Byte) {
    IsDigit(c) || 'A' as int <= c <= 'F' as int || 'a' as int <= c <= 'f' as int
  }

  /** Bytes that end the body of a sentence. */
  predicate IsStop(c: Byte) {
    c == '*' as int || c == '\r' as int || c == '\n' as int
  }

  predicate IsComma(c: Byte) {
    c == ',' as int
  }

  predicate IsDollar(c: Byte) {
    c == '$' as int
  }

  // ---------------------------------------------------------------- parsing

  /** Index of field n (0 is the sentence id) of the sentence at i, or -1. */
  function Field(b: seq<Byte>, i: nat, end: nat, n: nat): (f: int)
    requires i <= end <= |b|
    ensures f == -1 || i + n <= f <= end
    decreases end - i
  {
    if n == 0 then i
    else if i == end || IsStop(b[i]) then -1
    else Field(b, i + 1, end, if IsComma(b[i]) then n - 1 else n)
  }

  /** Value of the n digits at p, or -1 if one of them is no digit. */
  function Digits(b: seq<Byte>, p: nat, n: nat): (v: int)
    requires p + n <= |b|
    ensures v >= -1
  {
    if n == 0 then 0 else
      var v := Digits(b, p, n - 1);
      if v < 0 || !IsDigit(b[p + n - 1]) then -1 else v * 10 + (b[p + n - 1] - '0' as int)
  }

  /** Where a sentence keeps its day, month and year; the year has ylen digits. */
  datatype Spot = NoDate | Spot(dp: nat, mp: nat, yp: nat, ylen: nat)

  predicate Tagged(b: seq<Byte>, i: nat, end: nat, x: char, y: char, z: char)
    requires end <= |b|
  {
    && end > i + 6
    && x as int < 256 && b[i + 3] == x as int
    && y as int < 256 && b[i + 4] == y as int
    && z as int < 256 && b[i + 5] == z as int
    && IsComma(b[i + 6])
  }

  /** The date fields of the sentence at i; cell end, one past the buffer, may be looked at. */
  function Locate(b: seq<Byte>, i: nat, end: nat): (w: Spot)
    requires i < end < |b|
    ensures w.Spot? ==> i < w.dp && w.yp + w.ylen <= end && w.dp + 2 <= w.yp && w.mp + 2 <= end && i < w.mp
  {
    if Tagged(b, i, end, 'R', 'M', 'C') then
      var f := Field(b, i, end, 9);
      if f < 0 || end - f < 6 || !IsComma(b[f + 6]) then NoDate else Spot(f, f + 2, f + 4, 2)
    else if Tagged(b, i, end, 'Z', 'D', 'A') then
      var dp, mp, yp := Field(b, i, end, 2), Field(b, i, end, 3), Field(b, i, end, 4);
      FieldOrder(b, i, end, 2);
      FieldOrder(b, i, end, 3);
      if dp < 0 || mp < 0 || yp < 0 || end - yp < 4 then NoDate
      else if !IsComma(b[dp + 2]) || !IsComma(b[mp + 2]) || !IsComma(b[yp + 4]) then NoDate
      else Spot(dp, mp, yp, 4)
    else NoDate
  }

  lemma {:induction false} FieldOrder(b: seq<Byte>, i: nat, end: nat, n: nat)
    requires i <= end <= |b|
    ensures var f, g := Field(b, i, end, n), Field(b, i, end, n + 1);
      && (f < 0 ==> g < 0) && (g >= 0 ==> f < g)
      && (f >= 0 ==> g == Field(b, f, end, 1))
    decreases end - i
  {
    if n > 0 && i < end && !IsStop(b[i]) {
      FieldOrder(b, i + 1, end, if IsComma(b[i]) then n - 1 else n);
    }
  }

  /** The date at a spot, as the numbers written there; any of them is negative if unreadable. */
  function ReadDate(b: seq<Byte>, w: Spot): Date
    requires w.Spot? && w.dp + 2 <= |b| && w.mp + 2 <= |b| && w.yp + w.ylen <= |b|
  {
    var y := Digits(b, w.yp, w.ylen);
    Date(if y >= 0 && w.ylen == 2 then y + 2000 else y, Digits(b, w.mp, 2), Digits(b, w.dp, 2))
  }

  predicate Readable(t: Date) {
    t.day >= 1 && 1 <= t.month <= 12 && t.year >= 0
  }

  // ---------------------------------------------------------------- writing

  /** b with v written as n digits at p; more digits of v than fit are cut off on the left. */
  function Put(b: seq<Byte>, p: nat, n: nat, v: nat): (r: seq<Byte>)
    requires p + n <= |b|
    ensures |r| == |b|
    ensures forall k :: 0 <= k < |b| && !(p <= k < p + n) ==> r[k] == b[k]
    ensures forall k :: p <= k < p + n ==> IsDigit(r[k])
    decreases n
  {
    if n == 0 then b else Put(b[p + n - 1 := '0' as int + v % 10], p, n - 1, v / 10)
  }

  /** First index from i on that ends the body, or end. */
  function Stop(b: seq<Byte>, i: nat, end: nat): (c: nat)
    requires i <= end <= |b|
    ensures i <= c <= end
    ensures forall k :: i <= k < c ==> !IsStop(b[k])
    ensures c < end ==> IsStop(b[c])
    decreases end - i
  {
    if i == end || IsStop(b[i]) then i else Stop(b, i + 1, end)
  }

  function Xor(x: Byte, y: Byte): Byte {
    ((x as bv8) ^ (y as bv8)) as int
  }

  function XorSum(b: seq<Byte>, lo: nat, hi: nat): Byte
    requires lo <= hi <= |b|
  {
    if lo == hi then 0 else Xor(XorSum(b, lo, hi - 1), b[hi - 1])
  }

  function HexDigit(v: nat): Byte
    requires v < 16
  {
    if v < 10 then '0' as int + v else 'A' as int + v - 10
  }

  function HexValue(c: Byte): int {
    if IsDigit(c) then c - '0' as int
    else if 'A' as int <= c <= 'F' as int then c - 'A' as int + 10
    else if 'a' as int <= c <= 'f' as int then c - 'a' as int + 10
    else -1
  }

  /** The body of the sentence at i is followed by * and two hex digits. */
  predicate HasChecksum(b: seq<Byte>, i: nat, end: nat)
    requires i < end <= |b|
  {
    var c := Stop(b, i + 1, end);
    c + 2 < end && b[c] == '*' as int && IsHex(b[c + 1]) && IsHex(b[c + 2])
  }

  function FixChecksum(b: seq<Byte>, i: nat, end: nat): (r: seq<Byte>)
    requires i < end <= |b|
    ensures |r| == |b|
  {
    if HasChecksum(b, i, end) then
      var c := Stop(b, i + 1, end);
      var sum := XorSum(b, i + 1, c);
      b[c + 1 := HexDigit(sum / 16)][c + 2 := HexDigit(sum % 16)]
    else b
  }

  /** Day number of the sentence's date, if it has a readable one from before the last rollover. */
  predicate Stale(b: seq<Byte>, i: nat, end: nat)
    requires i < end < |b|
  {
    && IsDollar(b[i])
    && Locate(b, i, end).Spot?
    && Readable(ReadDate(b, Locate(b, i, end)))
    && DaysFromCivil(ReadDate(b, Locate(b, i, end))) < LAST_ROLLOVER
  }

  /** b with the date at w moved 1024 weeks on. */
  function PutDate(b: seq<Byte>, w: Spot, t: Date): (r: seq<Byte>)
    requires w.Spot? && w.dp + 2 <= |b| && w.mp + 2 <= |b| && w.yp + w.ylen <= |b|
    requires t.day >= 0 && t.month >= 0 && t.year >= 0
    ensures |r| == |b|
  {
    var y := if w.ylen == 2 then t.year % 100 else t.year;
    Put(Put(Put(b, w.dp, 2, t.day), w.mp, 2, t.month), w.yp, w.ylen, y)
  }

  /** 1024 weeks after t. */
  function Moved(t: Date): (r: Date)
    requires Readable(t) && DaysFromCivil(t) < LAST_ROLLOVER
    ensures Valid(r) && 0 <= r.year < 10000 && r.month >= 0 && r.day >= 0
  {
    MovedRange(t);
    CivilFromDays(DaysFromCivil(t) + 1024 * 7)
  }

  lemma MovedRange(t: Date)
    requires Readable(t) && DaysFromCivil(t) < LAST_ROLLOVER
    ensures var r := CivilFromDays(DaysFromCivil(t) + 7168);
      Valid(r) && 0 <= r.year < 10000 && (t.year >= 2000 ==> 2000 <= r.year < 2100)
  {
    DaysRoundTrip(DaysFromCivil(t) + 7168);
    ReadableDays(t);
    YearBounds(DaysFromCivil(t) + 7168);
  }

  lemma ReadableDays(t: Date)
    requires Readable(t)
    ensures DaysFromCivil(t) >= -719528
    ensures t.year >= 2000 ==> DaysFromCivil(t) >= 10957
  {
    DaysForm(t);
    var y := MarchYear(t);
    assert MonthStart(MarchMonth(t.month)) >= 0;
    YearStart(y);
    if y < 2000 {
      assert t.month <= 2 ==> MonthStart(MarchMonth(t.month)) >= 306;
    }
  }

  /** First days of March years never run backwards. */
  lemma YearStart(y: int)
    requires y >= -1
    ensures var first := y / 400 * 146097 + DayOfEra(y % 400, 0) - 719468;
      && (y >= 0 ==> first >= -719468)
      && (y >= 2000 ==> first >= 11017)
      && (y == -1 ==> first == -719834)
      && (y == 1999 ==> first == 10651)
  {
  }

  lemma YearBounds(days: int)
    requires -712360 <= days < 25161
    ensures 0 <= CivilFromDays(days).year < 10000
    ensures days >= 18125 ==> 2000 <= CivilFromDays(days).year < 2100
  {
    var z := days + 719468;
    var era, doe := z / 146097, z % 146097;
    var yoe, doy := YearExists(doe);
    YearRecovered(yoe, doy);
    MonthExists(doy, Leap(yoe + 1));
    DayOfEraShift(yoe, doy);
    CivilSteps(days, era, doe, yoe, doy, (5 * doy + 2) / 153);
    if days >= 18125 {
      assert era == 5 && 7108 <= doe < 14144;
    }
  }

  // ------------------------------------------------------------ one sentence

  /** The effect on the buffer of the loop iteration at i. */
  function FixAt(b: seq<Byte>, i: nat, end: nat): (r: seq<Byte>)
    requires i < end < |b|
    ensures |r| == |b|
  {
    if !Stale(b, i, end) then b else
      var w := Locate(b, i, end);
      FixChecksum(PutDate(b, w, Moved(ReadDate(b, w))), i, end)
  }

  /** The effect of the loop from i on. */
  function FixFrom(b: seq<Byte>, i: nat, end: nat): (r: seq<Byte>)
    requires i <= end < |b|
    ensures |r| == |b|
    decreases end - i
  {
    if i == end then b else FixFrom(FixAt(b, i, end), i + 1, end)
  }

  // ------------------------------------------------------- fields and digits

  lemma {:induction false} FieldClear(b: seq<Byte>, i: nat, end: nat, n: nat, k: nat)
    requires i <= end <= |b| && i <= k < Field(b, i, end, n)
    ensures !IsStop(b[k])
    decreases end - i
  {
    if n > 0 && i < k {
      FieldClear(b, i + 1, end, if IsComma(b[i]) then n - 1 else n, k);
    }
  }

  lemma {:induction false} DigitsAll(b: seq<Byte>, p: nat, n: nat, k: nat)
    requires p + n <= |b| && Digits(b, p, n) >= 0 && p <= k < p + n
    ensures IsDigit(b[k])
  {
    if k < p + n - 1 { DigitsAll(b, p, n - 1, k); }
  }

  function Pow10(n: nat): nat {
    if n == 0 then 1 else 10 * Pow10(n - 1)
  }

  /** What was put is read back. */
  lemma {:induction false} PutRead(b: seq<Byte>, p: nat, n: nat, v: nat)
    requires p + n <= |b| && v < Pow10(n)
    ensures Digits(Put(b, p, n, v), p, n) == v
    decreases n
  {
    if n > 0 {
      var b' := b[p + n - 1 := '0' as int + v % 10];
      PutRead(b', p, n - 1, v / 10);
    }
  }

  lemma {:induction false} DigitsSame(b: seq<Byte>, c: seq<Byte>, p: nat, n: nat)
    requires p + n <= |b| && |c| == |b| && forall k :: p <= k < p + n ==> b[k] == c[k]
    ensures Digits(b, p, n) == Digits(c, p, n)
  {
    if n > 0 { DigitsSame(b, c, p, n - 1); }
  }

  /** b and c differ from i to end only in digits that replace digits. */
  ghost predicate Alike(b: seq<Byte>, c: seq<Byte>, i: nat, end: nat)
    requires end <= |b| && |c| == |b|
  {
    forall k :: i <= k < end ==> b[k] == c[k] || (IsDigit(b[k]) && IsDigit(c[k]))
  }

  lemma {:induction false} FieldSame(b: seq<Byte>, c: seq<Byte>, i: nat, end: nat, n: nat)
    requires i <= end <= |b| && |c| == |b|
    requires Alike(b, c, i, Stop(b, i, end)) && (Stop(b, i, end) < end ==> c[Stop(b, i, end)] == b[Stop(b, i, end)])
    ensures Field(b, i, end, n) == Field(c, i, end, n)
    ensures Stop(b, i, end) == Stop(c, i, end)
    decreases end - i
  {
    if i < end && !IsStop(b[i]) {
      FieldSame(b, c, i + 1, end, if n > 0 && IsComma(b[i]) then n - 1 else n);
    }
  }

  // ------------------------------------------------------ where the date is

  /** The date fields of a readable date: in order, apart, and inside the body. */
  ghost predicate Shaped(b: seq<Byte>, i: nat, end: nat, w: Spot)
    requires i < end < |b|
  {
    && w.Spot? && (w.ylen == 2 || w.ylen == 4)
    && i < w.dp && w.dp + 2 <= w.mp && w.mp + 2 <= w.yp && w.yp + w.ylen <= Stop(b, i + 1, end)
    && (forall k :: w.dp <= k < w.dp + 2 || w.mp <= k < w.mp + 2 || w.yp <= k < w.yp + w.ylen ==> IsDigit(b[k]))
  }

  lemma DateShaped(b: seq<Byte>, i: nat, end: nat)
    requires i < end < |b| && IsDollar(b[i]) && Locate(b, i, end).Spot?
    requires Readable(ReadDate(b, Locate(b, i, end)))
    ensures Shaped(b, i, end, Locate(b, i, end))
  {
    hide Digits, Field, Stop;
    var w := Locate(b, i, end);
    forall k | w.dp <= k < w.dp + 2 { DigitsAll(b, w.dp, 2, k); }
    forall k | w.mp <= k < w.mp + 2 { DigitsAll(b, w.mp, 2, k); }
    forall k | w.yp <= k < w.yp + w.ylen { DigitsAll(b, w.yp, w.ylen, k); }
    if w.ylen == 2 {
      forall k | i <= k < w.dp ensures !IsStop(b[k]) { FieldClear(b, i, end, 9, k); }
    } else {
      FieldOrder(b, i, end, 2);
      FieldOrder(b, i, end, 3);
      ZdaOrder(b, w.dp, end);
      ZdaOrder(b, w.mp, end);
      forall k | i <= k < w.yp ensures !IsStop(b[k]) { FieldClear(b, i, end, 4, k); }
    }
    assert forall k :: i <= k < w.yp + w.ylen ==> !IsStop(b[k]);
  }

  /** After two digits and a comma comes the next field. */
  lemma ZdaOrder(b: seq<Byte>, p: nat, end: nat)
    requires p <= end <= |b| && Field(b, p, end, 1) >= 0 && p + 2 <= |b|
    requires IsDigit(b[p]) && IsDigit(b[p + 1])
    ensures Field(b, p, end, 1) >= p + 3
  {
    assert Field(b, p, end, 1) == Field(b, p + 1, end, 1) == Field(b, p + 2, end, 1);
  }

  // ------------------------------------------------------ what a fix leaves

  /** r is b with digits of the body at i replaced by digits, and hex digits after it by hex digits. */
  ghost predicate Edited(b: seq<Byte>, r: seq<Byte>, i: nat, end: nat)
    requires i < end < |b|
  {
    && |r| == |b|
    && Alike(b, r, i, Stop(b, i, end))
    && r[Stop(b, i, end)] == b[Stop(b, i, end)]
    && (forall k :: 0 <= k < |b| ==> r[k] == b[k] || (IsHex(b[k]) && IsHex(r[k])))
  }

  lemma StopFromDollar(b: seq<Byte>, i: nat, end: nat)
    requires i < end <= |b| && IsDollar(b[i])
    ensures Stop(b, i, end) == Stop(b, i + 1, end)
  {
  }

  lemma LocateSame(b: seq<Byte>, r: seq<Byte>, i: nat, end: nat)
    requires i < end < |b| && IsDollar(b[i]) && Edited(b, r, i, end) && Shaped(b, i, end, Locate(b, i, end))
    ensures Locate(r, i, end) == Locate(b, i, end)
    ensures IsDollar(r[i]) && Stop(r, i + 1, end) == Stop(b, i + 1, end)
  {
    hide Field, Stop;
    StopFromDollar(b, i, end);
    assert Stop(b, i, end) > i + 6;
    FieldSame(b, r, i, end, 9);
    FieldSame(b, r, i, end, 2);
    FieldSame(b, r, i, end, 3);
    FieldSame(b, r, i, end, 4);
    StopFromDollar(r, i, end);
    assert Tagged(b, i, end, 'R', 'M', 'C') == Tagged(r, i, end, 'R', 'M', 'C');
    assert Tagged(b, i, end, 'Z', 'D', 'A') == Tagged(r, i, end, 'Z', 'D', 'A');
    assert forall k :: 0 <= k < |b| ==> IsComma(b[k]) == IsComma(r[k]);
  }

  lemma PutDateReads(b: seq<Byte>, i: nat, end: nat, w: Spot, t: Date)
    requires i < end < |b| && Shaped(b, i, end, w)
    requires 0 <= t.day < 100 && 0 <= t.month < 100 && 0 <= t.year < 10000
    requires w.ylen == 2 ==> 2000 <= t.year < 2100
    ensures ReadDate(PutDate(b, w, t), w) == t
    ensures forall k :: 0 <= k < |b| && !DateCell(w, k) ==> PutDate(b, w, t)[k] == b[k]
    ensures forall k :: 0 <= k < |b| && DateCell(w, k) ==> IsDigit(PutDate(b, w, t)[k])
  {
    hide Put, Digits, Stop, Pow10;
    var b1 := Put(b, w.dp, 2, t.day);
    var b2 := Put(b1, w.mp, 2, t.month);
    var y := if w.ylen == 2 then t.year % 100 else t.year;
    var b3 := Put(b2, w.yp, w.ylen, y);
    Powers();
    PutRead(b, w.dp, 2, t.day);
    PutRead(b1, w.mp, 2, t.month);
    PutRead(b2, w.yp, w.ylen, y);
    DigitsSame(b1, b3, w.dp, 2);
    DigitsSame(b2, b3, w.mp, 2);
  }

  lemma Powers()
    ensures Pow10(2) == 100 && Pow10(4) == 10000
  {
    assert Pow10(1) == 10 && Pow10(3) == 1000;
  }

  ghost predicate DateCell(w: Spot, k: int)
    requires w.Spot?
  {
    w.dp <= k < w.dp + 2 || w.mp <= k < w.mp + 2 || w.yp <= k < w.yp + w.ylen
  }

  lemma {:induction false} XorSumSame(b: seq<Byte>, c: seq<Byte>, lo: nat, hi: nat)
    requires lo <= hi <= |b| && |c| == |b| && forall k :: lo <= k < hi ==> b[k] == c[k]
    ensures XorSum(b, lo, hi) == XorSum(c, lo, hi)
  {
    if lo < hi { XorSumSame(b, c, lo, hi - 1); }
  }

  lemma HexRoundTrip(v: nat)
    requires v < 256
    ensures IsHex(HexDigit(v / 16)) && IsHex(HexDigit(v % 16))
    ensures HexValue(HexDigit(v / 16)) * 16 + HexValue(HexDigit(v % 16)) == v
  {
  }

  /** The checksum field of the sentence at i holds the exclusive or of its body. */
  ghost predicate ChecksumHolds(b: seq<Byte>, i: nat, end: nat)
    requires i < end <= |b|
  {
    var c := Stop(b, i + 1, end);
    c + 2 < end && HexValue(b[c + 1]) * 16 + HexValue(b[c + 2]) == XorSum(b, i + 1, c)
  }

  lemma FixChecksumEdits(b: seq<Byte>, i: nat, end: nat)
    requires i < end < |b| && IsDollar(b[i])
    ensures var r, c := FixChecksum(b, i, end), Stop(b, i + 1, end);
      && Edited(b, r, i, end) && Stop(r, i + 1, end) == c
      && (forall k :: 0 <= k < |b| && k != c + 1 && k != c + 2 ==> r[k] == b[k])
      && (forall k :: 0 <= k < |b| && r[k] != b[k] ==> IsHex(b[k]) && IsHex(r[k]))
      && (!HasChecksum(b, i, end) ==> r == b)
      && (HasChecksum(b, i, end) ==>
           r[c + 1] == HexDigit(XorSum(b, i + 1, c) / 16) && r[c + 2] == HexDigit(XorSum(b, i + 1, c) % 16))
  {
    hide Xor, XorSum, HexDigit, IsHex;
    var r, c := FixChecksum(b, i, end), Stop(b, i + 1, end);
    StopFromDollar(b, i, end);
    if HasChecksum(b, i, end) {
      HexRoundTrip(XorSum(b, i + 1, c));
      FieldSame(b, r, i + 1, end, 0);
    }
  }

  lemma FixChecksumHolds(b: seq<Byte>, i: nat, end: nat)
    requires i < end < |b| && IsDollar(b[i]) && HasChecksum(b, i, end)
    ensures HasChecksum(FixChecksum(b, i, end), i, end)
    ensures ChecksumHolds(FixChecksum(b, i, end), i, end)
  {
    hide Xor, XorSum, HexDigit, IsHex, HexValue, Edited, FixChecksum;
    var r, c := FixChecksum(b, i, end), Stop(b, i + 1, end);
    FixChecksumEdits(b, i, end);
    HexRoundTrip(XorSum(b, i + 1, c));
    XorSumSame(b, r, i + 1, c);
  }

  // ------------------------------------------------------------ main results

  /** A stale sentence is left with the date 1024 weeks later in the same place, and with a
      matching checksum if it had a checksum field; nothing but date and checksum digits changes. */
  lemma StaleFixed(b: seq<Byte>, i: nat, end: nat)
    requires i < end < |b| && Stale(b, i, end)
    ensures var r, w, c := FixAt(b, i, end), Locate(b, i, end), Stop(b, i + 1, end);
      && Locate(r, i, end) == w && IsDollar(r[i]) && Stop(r, i + 1, end) == c
      && ReadDate(r, w) == Moved(ReadDate(b, w))
      && (HasChecksum(b, i, end) ==> HasChecksum(r, i, end) && ChecksumHolds(r, i, end))
      && (forall k :: 0 <= k < |b| && r[k] != b[k] ==>
            DateCell(w, k) || (HasChecksum(b, i, end) && (k == c + 1 || k == c + 2)))
      && (forall k :: 0 <= k < |b| && r[k] != b[k] ==> IsHex(b[k]) && IsHex(r[k]))
      && Shaped(b, i, end, w) && Shaped(r, i, end, w)
  {
    hide CivilFromDays, DaysFromCivil, Valid, ChecksumHolds, PutDate, FixChecksum, Locate, Edited, Readable;
    var w, c := Locate(b, i, end), Stop(b, i + 1, end);
    var p := PutDate(b, w, Moved(ReadDate(b, w)));
    DateMoved(b, i, end);
    FixChecksumEdits(p, i, end);
    LocateSame(p, FixChecksum(p, i, end), i, end);
    ReadDateSame(p, FixChecksum(p, i, end), i, end, w);
    if HasChecksum(b, i, end) { FixChecksumHolds(p, i, end); }
  }

  lemma ReadDateSame(b: seq<Byte>, r: seq<Byte>, i: nat, end: nat, w: Spot)
    requires i < end < |b| && |r| == |b| && Shaped(b, i, end, w)
    requires forall k :: i < k < Stop(b, i + 1, end) ==> r[k] == b[k]
    ensures ReadDate(r, w) == ReadDate(b, w)
  {
    DigitsSame(b, r, w.dp, 2);
    DigitsSame(b, r, w.mp, 2);
    DigitsSame(b, r, w.yp, w.ylen);
  }

  /** The date is rewritten before the checksum is recomputed. */
  lemma DateMoved(b: seq<Byte>, i: nat, end: nat)
    requires i < end < |b| && Stale(b, i, end)
    ensures var w := Locate(b, i, end);
      var p := PutDate(b, w, Moved(ReadDate(b, w)));
      && Shaped(b, i, end, w) && Shaped(p, i, end, w)
      && Locate(p, i, end) == w && IsDollar(p[i]) && Stop(p, i + 1, end) == Stop(b, i + 1, end)
      && ReadDate(p, w) == Moved(ReadDate(b, w))
      && (HasChecksum(p, i, end) <==> HasChecksum(b, i, end))
      && (forall k :: 0 <= k < |b| && p[k] != b[k] ==> DateCell(w, k) && IsDigit(p[k]) && IsDigit(b[k]))
  {
    hide CivilFromDays, DaysFromCivil, Valid, PutDate, Locate, Readable, ReadDate;
    var w := Locate(b, i, end);
    var was := ReadDate(b, w);
    DateShaped(b, i, end);
    MovedRange(was);
    MovedDays(was);
    ShortYear(b, i, end);
    var p := PutDate(b, w, Moved(was));
    PutDateReads(b, i, end, w, Moved(was));
    StopFromDollar(b, i, end);
    assert Edited(b, p, i, end);
    LocateSame(b, p, i, end);
  }

  lemma ShortYear(b: seq<Byte>, i: nat, end: nat)
    requires i < end < |b| && Locate(b, i, end).Spot? && Readable(ReadDate(b, Locate(b, i, end)))
    ensures Locate(b, i, end).ylen == 2 ==> ReadDate(b, Locate(b, i, end)).year >= 2000
  {
  }

  lemma MovedDays(t: Date)
    requires Readable(t) && DaysFromCivil(t) < LAST_ROLLOVER
    ensures DaysFromCivil(Moved(t)) == DaysFromCivil(t) + 1024 * 7
    ensures Readable(Moved(t)) && Moved(t).day < 100 && Moved(t).month < 100
  {
    hide DaysFromCivil, CivilFromDays, Leap;
    DaysRoundTrip(DaysFromCivil(t) + 7168);
  }

  /** Repeating the iteration at i changes nothing exactly when the sentence was current
      already or its date, once moved, is; the date of an RMC sentence always is. */
  lemma SecondPassAt(b: seq<Byte>, i: nat, end: nat)
    requires i < end < |b|
    ensures FixAt(FixAt(b, i, end), i, end) == FixAt(b, i, end) <==> Settles(b, i, end)
    ensures Stale(b, i, end) && Locate(b, i, end).ylen == 2 ==> Settles(b, i, end)
  {
    if Stale(b, i, end) {
      var w, r := Locate(b, i, end), FixAt(b, i, end);
      hide DaysFromCivil, CivilFromDays, FixChecksum, PutDate, Shaped, ChecksumHolds, HasChecksum;
      StaleFixed(b, i, end);
      MovedDays(ReadDate(b, w));
      ShortYear(b, i, end);
      ReadableDays(ReadDate(b, w));
      if Stale(r, i, end) {
        StaleFixed(r, i, end);
        MovedDays(ReadDate(r, w));
      }
    }
  }

  ghost predicate Settles(b: seq<Byte>, i: nat, end: nat)
    requires i < end < |b|
  {
    Stale(b, i, end) ==> DaysFromCivil(ReadDate(b, Locate(b, i, end))) >= LAST_ROLLOVER - 7168
  }
}
