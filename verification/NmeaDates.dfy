/** What the date repair does, said of the cells of the buffer alone: commas are counted, digits are weighed, and the
    bits of a checksum are parities. */
module NmeaDates {
  import opened Civil
  import opened Nmea
  import opened NmeaBuffer
  import opened Bits

  // ------------------------------------------------------------------- fields

  /** The commas among the cells from i up to p. */
  function Commas(b: seq<Byte>, i: nat, p: nat): nat
    requires i <= p <= |b|
  {
    if i == p then 0 else Commas(b, i, p - 1) + if b[p - 1] == ',' as int then 1 else 0
  }

  /** No cell from i up to p ends a sentence. */
  ghost predicate Unbroken(b: seq<Byte>, i: nat, p: nat)
    requires p <= |b|
  {
    forall k :: i <= k < p ==> b[k] != '*' as int && b[k] != '\r' as int && b[k] != '\n' as int
  }

  /** Cell p follows comma n of the sentence at i. */
  ghost predicate Follows(b: seq<Byte>, i: nat, end: nat, n: nat, p: nat)
    requires end <= |b|
  {
    i < p <= end && b[p - 1] == ',' as int && Commas(b, i, p) == n && Unbroken(b, i, p)
  }

  lemma {:induction false} CommasFrom(b: seq<Byte>, i: nat, p: nat)
    requires i < p <= |b|
    ensures Commas(b, i, p) == Commas(b, i + 1, p) + if b[i] == ',' as int then 1 else 0
    decreases p
  {
    if i + 1 < p { CommasFrom(b, i, p - 1); }
  }

  /** A field starts behind as many commas as its number says. */
  lemma {:induction false} FieldIff(b: seq<Byte>, i: nat, end: nat, n: nat, p: nat)
    requires i <= end <= |b| && n > 0
    ensures Field(b, i, end, n) == p <==> Follows(b, i, end, n, p)
    decreases end - i
  {
    if i < end && !IsStop(b[i]) {
      var m := if IsComma(b[i]) then n - 1 else n;
      if i < p <= end {
        CommasFrom(b, i, p);
        if i + 1 < p { CommasFrom(b, i, p - 1); }
      }
      if m > 0 { FieldIff(b, i + 1, end, m, p); }
    }
  }

  // -------------------------------------------------------------------- dates

  /** An RMC sentence at i whose ninth comma is followed by six cells and a comma. */
  ghost predicate RmcAt(b: seq<Byte>, i: nat, end: nat, p: nat)
    requires end < |b|
  {
    && i + 6 < end && b[i + 3] == 'R' as int && b[i + 4] == 'M' as int && b[i + 5] == 'C' as int
    && b[i + 6] == ',' as int
    && Follows(b, i, end, 9, p) && p + 6 <= end && b[p + 6] == ',' as int
  }

  /** A ZDA sentence at i whose second, third and fourth commas are followed by two, two and four cells and a comma. */
  ghost predicate ZdaAt(b: seq<Byte>, i: nat, end: nat, dp: nat, mp: nat, yp: nat)
    requires end < |b|
  {
    && i + 6 < end && b[i + 3] == 'Z' as int && b[i + 4] == 'D' as int && b[i + 5] == 'A' as int
    && b[i + 6] == ',' as int
    && Follows(b, i, end, 2, dp) && Follows(b, i, end, 3, mp) && Follows(b, i, end, 4, yp) && yp + 4 <= end
    && dp + 2 < |b| && b[dp + 2] == ',' as int && mp + 2 < |b| && b[mp + 2] == ',' as int && b[yp + 4] == ',' as int
  }

  lemma LocateSpot(b: seq<Byte>, i: nat, end: nat, w: Spot)
    requires i < end < |b| && w.Spot?
    ensures Locate(b, i, end) == w <==>
      || (RmcAt(b, i, end, w.dp) && w == Spot(w.dp, w.dp + 2, w.dp + 4, 2))
      || (ZdaAt(b, i, end, w.dp, w.mp, w.yp) && w.ylen == 4)
  {
    hide Field, Follows;
    FieldIff(b, i, end, 9, w.dp);
    FieldIff(b, i, end, 2, w.dp);
    FieldIff(b, i, end, 3, w.mp);
    FieldIff(b, i, end, 4, w.yp);
    FieldOrder(b, i, end, 2);
    FieldOrder(b, i, end, 3);
  }

  /** The date is looked for in exactly these places. */
  lemma LocateIff(b: seq<Byte>, i: nat, end: nat, w: Spot)
    requires i < end < |b|
    ensures w.Spot? ==> (Locate(b, i, end) == w <==>
      || (RmcAt(b, i, end, w.dp) && w == Spot(w.dp, w.dp + 2, w.dp + 4, 2))
      || (ZdaAt(b, i, end, w.dp, w.mp, w.yp) && w.ylen == 4))
    ensures Locate(b, i, end) == NoDate <==>
      (forall p :: !RmcAt(b, i, end, p)) && (forall dp, mp, yp :: !ZdaAt(b, i, end, dp, mp, yp))
  {
    hide Locate, RmcAt, ZdaAt;
    if w.Spot? { LocateSpot(b, i, end, w); }
    if Locate(b, i, end).Spot? {
      LocateSpot(b, i, end, Locate(b, i, end));
    } else {
      forall p: nat ensures !RmcAt(b, i, end, p) { LocateSpot(b, i, end, Spot(p, p + 2, p + 4, 2)); }
      forall dp: nat, mp: nat, yp: nat
        ensures !ZdaAt(b, i, end, dp, mp, yp)
      {
        LocateSpot(b, i, end, Spot(dp, mp, yp, 4));
      }
    }
  }

  /** The value of a decimal digit. */
  function Weight(c: int): int {
    c - 48
  }

  /** Two digits at p that make v. */
  ghost predicate Two(b: seq<Byte>, p: nat, v: int) {
    && p + 2 <= |b| && 48 <= b[p] <= 57 && 48 <= b[p + 1] <= 57
    && v == 10 * Weight(b[p]) + Weight(b[p + 1])
  }

  /** Four digits at p that make v. */
  ghost predicate Four(b: seq<Byte>, p: nat, v: int) {
    && p + 4 <= |b| && 48 <= b[p] <= 57 && 48 <= b[p + 1] <= 57 && 48 <= b[p + 2] <= 57 && 48 <= b[p + 3] <= 57
    && v == 1000 * Weight(b[p]) + 100 * Weight(b[p + 1]) + 10 * Weight(b[p + 2]) + Weight(b[p + 3])
  }

  lemma DigitsTwo(b: seq<Byte>, p: nat, v: nat)
    requires p + 2 <= |b|
    ensures Digits(b, p, 2) == v <==> Two(b, p, v)
  {
    assert Digits(b, p, 0) == 0;
    assert Digits(b, p, 1) == if IsDigit(b[p]) then b[p] - 48 else -1;
  }

  lemma DigitsFour(b: seq<Byte>, p: nat, v: nat)
    requires p + 4 <= |b|
    ensures Digits(b, p, 4) == v <==> Four(b, p, v)
  {
    assert Digits(b, p, 0) == 0;
    assert Digits(b, p, 1) == if IsDigit(b[p]) then b[p] - 48 else -1;
    assert Digits(b, p, 2) ==
      if Digits(b, p, 1) < 0 || !IsDigit(b[p + 1]) then -1 else Digits(b, p, 1) * 10 + (b[p + 1] - 48);
    assert Digits(b, p, 3) ==
      if Digits(b, p, 2) < 0 || !IsDigit(b[p + 2]) then -1 else Digits(b, p, 2) * 10 + (b[p + 2] - 48);
  }

  /** The sentence at i carries date t: ddmmyy in an RMC sentence, of this century, and dd,mm,yyyy in a ZDA one. */
  ghost predicate Carries(b: seq<Byte>, i: nat, end: nat, t: Date)
    requires i < end < |b|
  {
    b[i] == '$' as int &&
    ((exists p: nat :: RmcAt(b, i, end, p) && Two(b, p, t.day) && Two(b, p + 2, t.month)
                       && Two(b, p + 4, t.year - 2000)) ||
     (exists dp: nat, mp: nat, yp: nat :: ZdaAt(b, i, end, dp, mp, yp) && Two(b, dp, t.day) && Two(b, mp, t.month)
                           && Four(b, yp, t.year)))
  }

  lemma CarriesIff(b: seq<Byte>, i: nat, end: nat, t: Date)
    requires i < end < |b| && t.day >= 0 && t.month >= 0 && t.year >= 0
    ensures Carries(b, i, end, t) <==>
      IsDollar(b[i]) && Locate(b, i, end).Spot? && ReadDate(b, Locate(b, i, end)) == t
  {
    hide Locate, RmcAt, ZdaAt, Digits;
    var w := Locate(b, i, end);
    LocateIff(b, i, end, w);
    if w.Spot? {
      DigitsTwo(b, w.dp, t.day);
      DigitsTwo(b, w.mp, t.month);
      if w.ylen == 2 && t.year >= 2000 { DigitsTwo(b, w.yp, t.year - 2000); }
      if w.ylen == 4 { DigitsFour(b, w.yp, t.year); }
    }
    forall p: nat | RmcAt(b, i, end, p) ensures w == Spot(p, p + 2, p + 4, 2) {
      LocateSpot(b, i, end, Spot(p, p + 2, p + 4, 2));
    }
    forall dp: nat, mp: nat, yp: nat | ZdaAt(b, i, end, dp, mp, yp) ensures w == Spot(dp, mp, yp, 4) {
      LocateSpot(b, i, end, Spot(dp, mp, yp, 4));
    }
  }

  // ------------------------------------------------------------------ checksums

  /** Bit k of x. */
  function Bit(x: nat, k: nat): nat
    decreases k
  {
    if k == 0 then x % 2 else Bit(x / 2, k - 1)
  }

  /** How many cells from lo up to hi have bit k set. */
  function Ones(b: seq<Byte>, lo: nat, hi: nat, k: nat): nat
    requires lo <= hi <= |b|
  {
    if lo == hi then 0 else Ones(b, lo, hi - 1, k) + Bit(b[hi - 1], k)
  }

  /** Exclusive or, one bit at a time. */
  lemma XorStep(x: Byte, y: Byte)
    ensures Xor(x, y) % 2 == (x % 2 + y % 2) % 2 && Xor(x, y) / 2 == Xor(x / 2, y / 2)
  {
    XorLow(x, y);
    XorHigh(x, y);
  }

  lemma XorLow(x: Byte, y: Byte)
    ensures Xor(x, y) % 2 == (x % 2 + y % 2) % 2
  {
    AsWord(x);
    AsWord(y);
    XorLowBit(x as bv8, y as bv8);
  }

  lemma XorHigh(x: Byte, y: Byte)
    ensures Xor(x, y) / 2 == Xor(x / 2, y / 2)
  {
    Shifted(x);
    Shifted(y);
    XorHighBits(x as bv8, y as bv8);
  }

  lemma {:induction false} XorBit(x: Byte, y: Byte, k: nat)
    ensures Bit(Xor(x, y), k) == (Bit(x, k) + Bit(y, k)) % 2
    decreases k
  {
    hide Xor;
    XorStep(x, y);
    if k > 0 { XorBit(x / 2, y / 2, k - 1); }
  }

  /** Each bit of the sum is set if and only if an odd number of cells have it set. */
  lemma {:induction false} SumBit(b: seq<Byte>, lo: nat, hi: nat, k: nat)
    requires lo <= hi <= |b|
    ensures Bit(XorSum(b, lo, hi), k) == Ones(b, lo, hi, k) % 2
  {
    hide Xor, Bit;
    if lo == hi {
      ZeroBit(k);
    } else {
      SumBit(b, lo, hi - 1, k);
      XorBit(XorSum(b, lo, hi - 1), b[hi - 1], k);
    }
  }

  lemma {:induction false} ZeroBit(k: nat)
    ensures Bit(0, k) == 0
  {
    if k > 0 { ZeroBit(k - 1); }
  }

  const HEX := "0123456789ABCDEF"

  /** Cell c is the star behind the body of the sentence at i, and two hexadecimal digits follow. */
  ghost predicate StarAt(b: seq<Byte>, i: nat, end: nat, c: nat)
    requires end < |b|
  {
    i < c && c + 2 < end && Unbroken(b, i + 1, c) && b[c] == '*' as int && Hex(b[c + 1]) && Hex(b[c + 2])
  }

  ghost predicate Hex(x: int) {
    48 <= x <= 57 || 65 <= x <= 70 || 97 <= x <= 102
  }

  /** The two cells behind c spell, in upper case, the exclusive or of the body of the sentence at i. */
  ghost predicate SumSpelled(b: seq<Byte>, i: nat, c: nat)
    requires i < c && c + 2 < |b|
  {
    exists v: nat :: v < 256 && b[c + 1] == HEX[v / 16] as int && b[c + 2] == HEX[v % 16] as int
      && forall k :: 0 <= k < 8 ==> Bit(v, k) == Ones(b, i + 1, c, k) % 2
  }

  // --------------------------------------------------------------- main results

  /** A day and month that can be read, and a date from before 2019-04-07. */
  ghost predicate Old(t: Date) {
    1 <= t.day && 1 <= t.month <= 12 && DaysFromCivil(t) < 17993
  }

  /** The sentences that are repaired are those that carry such a date. */
  lemma StaleIff(b: seq<Byte>, i: nat, end: nat)
    requires i < end < |b|
    ensures Stale(b, i, end) <==> exists t :: Carries(b, i, end, t) && Old(t)
  {
    hide Locate, RmcAt, ZdaAt, DaysFromCivil, Digits;
    if Stale(b, i, end) {
      CarriesIff(b, i, end, ReadDate(b, Locate(b, i, end)));
    }
    if t :| Carries(b, i, end, t) && Old(t) {
      CarriesIff(b, i, end, t);
    }
  }

  lemma Spelled(b: seq<Byte>, i: nat, end: nat)
    requires i < end < |b| && Stale(b, i, end) && HasChecksum(b, i, end)
    ensures var r, c := FixAt(b, i, end), Stop(b, i + 1, end);
      && r[c + 1] == HexDigit(XorSum(r, i + 1, c) / 16) && r[c + 2] == HexDigit(XorSum(r, i + 1, c) % 16)
  {
    hide Locate, ReadDate, DaysFromCivil, XorSum, HexDigit, IsHex, Edited, Shaped, PutDate, FixChecksum;
    hide Moved, Readable;
    var w, c := Locate(b, i, end), Stop(b, i + 1, end);
    DateMoved(b, i, end);
    var p := PutDate(b, w, Moved(ReadDate(b, w)));
    FixChecksumEdits(p, i, end);
    XorSumSame(p, FixChecksum(p, i, end), i + 1, c);
  }

  lemma StarIsChecksum(b: seq<Byte>, i: nat, end: nat, c: nat)
    requires i < end < |b|
    ensures StarAt(b, i, end, c) <==> HasChecksum(b, i, end) && c == Stop(b, i + 1, end)
  {
  }

  lemma HexSpells(v: nat)
    requires v < 16
    ensures HexDigit(v) == HEX[v] as int
  {
  }

  /** In the repaired buffer the sentence carries the date 1024 weeks later, in the same calendar. */
  lemma DateRepaired(b: seq<Byte>, i: nat, end: nat, t: Date)
    requires i < end < |b| && Clean(b, end) && Carries(b, i, end, t) && Old(t)
    ensures exists u ::
      Carries(FixFrom(b, 0, end), i, end, u) && Valid(u) && DaysFromCivil(u) == DaysFromCivil(t) + 7168
  {
    hide Carries, Locate, DaysFromCivil, FixFrom, Clean, Digits, Valid, ChecksumHolds, HasChecksum;
    StaleIff(b, i, end);
    CarriesDate(b, i, end, t);
    BufferFixed(b, end, i);
    var r := FixFrom(b, 0, end);
    CarriesIff(r, i, end, ReadDate(r, Locate(r, i, end)));
  }

  lemma CarriesDate(b: seq<Byte>, i: nat, end: nat, t: Date)
    requires i < end < |b| && Carries(b, i, end, t)
    ensures t.day >= 0 && t.month >= 0 && t.year >= 0
    ensures Locate(b, i, end).Spot? && ReadDate(b, Locate(b, i, end)) == t
  {
    hide Locate, RmcAt, ZdaAt, ReadDate;
    assert t.day >= 0 && t.month >= 0 && t.year >= 0;
    CarriesIff(b, i, end, t);
  }

  /** Its checksum field, if it has one, spells the exclusive or of its new body. */
  lemma SumRepaired(b: seq<Byte>, i: nat, end: nat, t: Date, c: nat)
    requires i < end < |b| && Clean(b, end) && Carries(b, i, end, t) && Old(t) && StarAt(b, i, end, c)
    ensures SumSpelled(FixFrom(b, 0, end), i, c)
  {
    hide Carries, Old, FixFrom, FixAt, Clean, XorSum, HexDigit, Bit, Ones, HasChecksum, Stop, Stale;
    StaleIff(b, i, end);
    NotStale(b, i, end);
    StarIsChecksum(b, i, end, c);
    Spelled(b, i, end);
    MendedSentence(b, end, i);
    var r, one := FixFrom(b, 0, end), FixAt(b, i, end);
    XorSumSame(one, r, i + 1, c);
    var v := XorSum(r, i + 1, c);
    HexSpells(v / 16);
    HexSpells(v % 16);
    forall k: nat | k < 8 ensures Bit(v, k) == Ones(r, i + 1, c, k) % 2 { SumBit(r, i + 1, c, k); }
  }

  /** A cell changes only if the last $ at or before it starts a sentence with an old date. */
  lemma OthersUntouched(b: seq<Byte>, end: nat, k: nat, i: nat)
    requires i < end < |b| && Clean(b, end) && i <= k < |b| && FixFrom(b, 0, end)[k] != b[k]
    requires b[i] == '$' as int && forall j :: i < j <= k && j < end ==> b[j] != '$' as int
    ensures exists t :: Carries(b, i, end, t) && Old(t)
  {
    hide Carries, Old, FixFrom, Clean, Stale, Locate;
    OnlyStaleCells(b, end, k);
    assert Owner(b, k, end) == i;
    StaleIff(b, i, end);
  }

  // ------------------------------------------------------------------ an example

  /** "$GPRMC,,,,,,,,,250805," and the cell past its end. */
  const RMC_DATE: seq<Byte> :=
    [36, 71, 80, 82, 77, 67, 44, 44, 44, 44, 44, 44, 44, 44, 44, 50, 53, 48, 56, 48, 53, 44, 0]

  ghost predicate IsRmcDate(b: seq<Byte>) {
    && |b| == 23
    && b[0] == 36 && b[1] == 71 && b[2] == 80 && b[3] == 82 && b[4] == 77 && b[5] == 67 && b[6] == 44
    && b[7] == 44 && b[8] == 44 && b[9] == 44 && b[10] == 44 && b[11] == 44 && b[12] == 44 && b[13] == 44
    && b[14] == 44 && b[15] == 50 && b[16] == 53 && b[17] == 48 && b[18] == 56 && b[19] == 48 && b[20] == 53
    && b[21] == 44
  }

  lemma RmcField(b: seq<Byte>)
    requires IsRmcDate(b)
    ensures Field(b, 0, 22, 9) == 15
  {
    hide Field;
    FieldStep(b, 0, 6, 22, 9);
    FieldStep(b, 7, 7, 22, 8);
    FieldStep(b, 8, 8, 22, 7);
    FieldStep(b, 9, 9, 22, 6);
    FieldStep(b, 10, 10, 22, 5);
    FieldStep(b, 11, 11, 22, 4);
    FieldStep(b, 12, 12, 22, 3);
    FieldStep(b, 13, 13, 22, 2);
    FieldStep(b, 14, 14, 22, 1);
    FieldHere(b, 15, 22);
  }

  lemma RmcCarries(b: seq<Byte>)
    requires IsRmcDate(b)
    ensures Carries(b, 0, 22, Date(2005, 8, 25))
  {
    hide Field, Follows;
    RmcField(b);
    FieldIff(b, 0, 22, 9, 15);
    assert RmcAt(b, 0, 22, 15);
    assert Two(b, 15, 25) && Two(b, 17, 8) && Two(b, 19, 5);
  }

  lemma RmcClean(b: seq<Byte>)
    requires IsRmcDate(b)
    ensures Clean(b, 22)
  {
    hide Stop;
  }

  lemma RmcDateIs()
    ensures IsRmcDate(RMC_DATE)
  {
  }

  lemma RmcDays()
    ensures DaysFromCivil(Date(2005, 8, 25)) == 13020 && DaysFromCivil(Date(2025, 4, 10)) == 20188
    ensures Valid(Date(2025, 4, 10))
  {
  }

  /** An RMC sentence of 2005-08-25 carries 2025-04-10 after the repair. */
  lemma RmcDateRepaired()
    ensures |RMC_DATE| == 23 && Carries(RMC_DATE, 0, 22, Date(2005, 8, 25))
    ensures Carries(FixFrom(RMC_DATE, 0, 22), 0, 22, Date(2025, 4, 10))
  {
    hide Carries, FixFrom, Clean, DaysFromCivil, Valid;
    RmcDateIs();
    RmcCarries(RMC_DATE);
    RmcClean(RMC_DATE);
    RmcDays();
    DateRepaired(RMC_DATE, 0, 22, Date(2005, 8, 25));
    var u :| Carries(FixFrom(RMC_DATE, 0, 22), 0, 22, u) && Valid(u) && DaysFromCivil(u) == 13020 + 7168;
    DateRoundTrip(u);
    DateRoundTrip(Date(2025, 4, 10));
  }
}
