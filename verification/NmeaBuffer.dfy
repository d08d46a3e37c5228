/** The date repair over a whole buffer of sentences. */
module NmeaBuffer {
  import opened Civil
  import opened Nmea

  /** No sentence has a second $ in its body: sentences do not overlap. */
  ghost predicate Clean(b: seq<Byte>, end: nat)
    requires end < |b|
  {
    forall i, k :: 0 <= i < end && IsDollar(b[i]) && i < k < Stop(b, i + 1, end) ==> !IsDollar(b[k])
  }

  /** The sentence that cell k belongs to: the last $ at or before k, or -1. */
  function Owner(b: seq<Byte>, k: int, end: nat): (j: int)
    requires -1 <= k < |b| && end < |b|
    ensures -1 <= j <= k && j < end
    ensures j >= 0 ==> IsDollar(b[j])
    ensures forall i :: 0 <= i < end && i <= k && IsDollar(b[i]) ==> i <= j
  {
    if k < 0 then -1
    else if k < end && IsDollar(b[k]) then k
    else Owner(b, k - 1, end)
  }

  /** b with the sentences that start before n repaired, each as if it were alone. */
  ghost function Mended(b: seq<Byte>, n: nat, end: nat): (r: seq<Byte>)
    requires n <= end < |b|
    ensures |r| == |b|
    ensures forall k :: 0 <= k < |b| ==>
      r[k] == if 0 <= Owner(b, k, end) < n then FixAt(b, Owner(b, k, end), end)[k] else b[k]
  {
    seq(|b|, k requires 0 <= k < |b| =>
      if 0 <= Owner(b, k, end) < n then FixAt(b, Owner(b, k, end), end)[k] else b[k])
  }

  // ---------------------------------------------------- cells before i do not matter

  ghost predicate SameFrom(b: seq<Byte>, x: seq<Byte>, i: nat) {
    |x| == |b| && forall k :: i <= k < |b| ==> x[k] == b[k]
  }

  lemma LocateFrom(b: seq<Byte>, x: seq<Byte>, i: nat, end: nat)
    requires i < end < |b| && SameFrom(b, x, i)
    ensures Locate(x, i, end) == Locate(b, i, end)
  {
    hide Field, Stop;
    FieldSame(b, x, i, end, 9);
    FieldSame(b, x, i, end, 2);
    FieldSame(b, x, i, end, 3);
    FieldSame(b, x, i, end, 4);
  }

  lemma ReadFrom(b: seq<Byte>, x: seq<Byte>, i: nat, end: nat, w: Spot)
    requires i < end < |b| && SameFrom(b, x, i) && w.Spot?
    requires i < w.dp && i < w.mp && i < w.yp && w.dp + 2 <= end && w.mp + 2 <= end && w.yp + w.ylen <= end
    ensures ReadDate(x, w) == ReadDate(b, w)
  {
    hide Digits;
    DigitsSame(b, x, w.dp, 2);
    DigitsSame(b, x, w.mp, 2);
    DigitsSame(b, x, w.yp, w.ylen);
  }

  lemma {:induction false} PutFrom(b: seq<Byte>, x: seq<Byte>, i: nat, p: nat, n: nat, v: nat)
    requires SameFrom(b, x, i) && i <= p && p + n <= |b|
    ensures SameFrom(Put(b, p, n, v), Put(x, p, n, v), i)
    decreases n
  {
    if n > 0 {
      var d: Byte := '0' as int + v % 10;
      PutFrom(b[p + n - 1 := d], x[p + n - 1 := d], i, p, n - 1, v / 10);
    }
  }

  lemma ChecksumFrom(b: seq<Byte>, x: seq<Byte>, i: nat, end: nat)
    requires i < end < |b| && SameFrom(b, x, i)
    ensures SameFrom(FixChecksum(b, i, end), FixChecksum(x, i, end), i)
  {
    hide XorSum, HexDigit, IsHex;
    FieldSame(b, x, i + 1, end, 0);
    XorSumSame(b, x, i + 1, Stop(b, i + 1, end));
  }

  lemma StaleFrom(b: seq<Byte>, x: seq<Byte>, i: nat, end: nat)
    requires i < end < |b| && SameFrom(b, x, i)
    ensures Stale(x, i, end) == Stale(b, i, end)
    ensures Stale(b, i, end) ==> ReadDate(x, Locate(b, i, end)) == ReadDate(b, Locate(b, i, end))
  {
    hide Locate, DaysFromCivil, ReadDate;
    LocateFrom(b, x, i, end);
    if Locate(b, i, end).Spot? { ReadFrom(b, x, i, end, Locate(b, i, end)); }
  }

  lemma FixAtFrom(b: seq<Byte>, x: seq<Byte>, i: nat, end: nat)
    requires i < end < |b| && SameFrom(b, x, i)
    ensures SameFrom(FixAt(b, i, end), FixAt(x, i, end), i)
  {
    hide Locate, DaysFromCivil, FixChecksum, Put, ReadDate;
    LocateFrom(b, x, i, end);
    StaleFrom(b, x, i, end);
    if Stale(b, i, end) {
      var w := Locate(b, i, end);
      var t := Moved(ReadDate(b, w));
      var y := if w.ylen == 2 then t.year % 100 else t.year;
      PutFrom(b, x, i, w.dp, 2, t.day);
      PutFrom(Put(b, w.dp, 2, t.day), Put(x, w.dp, 2, t.day), i, w.mp, 2, t.month);
      PutFrom(Put(Put(b, w.dp, 2, t.day), w.mp, 2, t.month), Put(Put(x, w.dp, 2, t.day), w.mp, 2, t.month),
              i, w.yp, w.ylen, y);
      ChecksumFrom(PutDate(b, w, t), PutDate(x, w, t), i, end);
    }
  }

  // ------------------------------------------------------- a fix stays inside

  /** A changed cell belongs to the sentence that is fixed, and is neither $ before nor after. */
  lemma FixAtInside(b: seq<Byte>, i: nat, end: nat, k: nat)
    requires i < end < |b| && Clean(b, end) && k < |b| && FixAt(b, i, end)[k] != b[k]
    ensures Owner(b, k, end) == i && i < k < end
    ensures IsHex(b[k]) && IsHex(FixAt(b, i, end)[k])
  {
    hide DaysFromCivil, FixAt, Locate, ReadDate, ChecksumHolds, HasChecksum;
    assert Stale(b, i, end) by { NotStale(b, i, end); }
    StaleFixed(b, i, end);
    ChecksumCells(b, i, end);
    var c := Stop(b, i + 1, end);
    assert forall j :: i < j <= k ==> !IsDollar(b[j]);
  }

  lemma NotStale(b: seq<Byte>, i: nat, end: nat)
    requires i < end < |b|
    ensures !Stale(b, i, end) ==> FixAt(b, i, end) == b
    ensures Stale(b, i, end) ==> IsDollar(b[i])
  {
  }

  lemma ChecksumCells(b: seq<Byte>, i: nat, end: nat)
    requires i < end < |b|
    ensures var c := Stop(b, i + 1, end);
      HasChecksum(b, i, end) ==>
        c + 2 < end && !IsDollar(b[c]) && !IsDollar(b[c + 1]) && !IsDollar(b[c + 2])
  {
  }

  // ------------------------------------------------------------ whole buffer

  lemma MendedStep(b: seq<Byte>, i: nat, end: nat)
    requires i < end < |b| && Clean(b, end)
    ensures FixAt(Mended(b, i, end), i, end) == Mended(b, i + 1, end)
  {
    hide FixAt, Clean, Mended, Owner;
    if IsDollar(b[i]) { MendedAtDollar(b, i, end); } else { MendedElsewhere(b, i, end); }
  }

  lemma MendedFrom(b: seq<Byte>, i: nat, end: nat)
    requires i < end < |b| && Clean(b, end) && IsDollar(b[i])
    ensures SameFrom(b, Mended(b, i, end), i)
    ensures SameFrom(FixAt(b, i, end), FixAt(Mended(b, i, end), i, end), i)
  {
    hide FixAt, Clean, Mended, Owner;
    FixAtFrom(b, Mended(b, i, end), i, end);
  }

  lemma MendedCell(b: seq<Byte>, i: nat, end: nat, k: nat)
    requires i < end < |b| && Clean(b, end) && IsDollar(b[i]) && k < |b|
    ensures FixAt(Mended(b, i, end), i, end)[k] == Mended(b, i + 1, end)[k]
  {
    hide FixAt, Clean, Mended, Owner;
    if k < i {
      Untouched(Mended(b, i, end), i, end, k);
    } else {
      MendedFrom(b, i, end);
      if FixAt(b, i, end)[k] != b[k] { FixAtInside(b, i, end, k); }
    }
  }

  lemma MendedAtDollar(b: seq<Byte>, i: nat, end: nat)
    requires i < end < |b| && Clean(b, end) && IsDollar(b[i])
    ensures FixAt(Mended(b, i, end), i, end) == Mended(b, i + 1, end)
  {
    hide FixAt, Clean, Mended;
    forall k | 0 <= k < |b|
      ensures FixAt(Mended(b, i, end), i, end)[k] == Mended(b, i + 1, end)[k]
    {
      MendedCell(b, i, end, k);
    }
  }

  lemma MendedElsewhere(b: seq<Byte>, i: nat, end: nat)
    requires i < end < |b| && Clean(b, end) && !IsDollar(b[i])
    ensures FixAt(Mended(b, i, end), i, end) == Mended(b, i + 1, end)
  {
    hide FixAt, Clean, Mended, Owner;
    var x := Mended(b, i, end);
    assert forall k :: 0 <= k < |b| ==> Owner(b, k, end) != i;
    assert x == Mended(b, i + 1, end);
    var j := Owner(b, i, end);
    if 0 <= j < i && FixAt(b, j, end)[i] != b[i] { FixAtInside(b, j, end, i); }
    NotStale(x, i, end);
  }

  /** The fix at i leaves everything before i alone. */
  lemma Untouched(b: seq<Byte>, i: nat, end: nat, k: nat)
    requires i < end < |b| && k <= i
    ensures FixAt(b, i, end)[k] == b[k]
  {
    hide DaysFromCivil, FixAt, Locate, ReadDate, ChecksumHolds;
    NotStale(b, i, end);
    if Stale(b, i, end) { StaleFixed(b, i, end); }
  }

  lemma {:induction false} FixFromMended(b: seq<Byte>, i: nat, end: nat)
    requires i <= end < |b| && Clean(b, end)
    ensures FixFrom(Mended(b, i, end), i, end) == Mended(b, end, end)
    decreases end - i
  {
    hide Clean, Mended, FixAt, Owner, IsDollar;
    if i < end {
      MendedStep(b, i, end);
      FixFromMended(b, i + 1, end);
    }
  }

  /** The loop repairs every sentence as if it were alone in the buffer. */
  lemma BufferMended(b: seq<Byte>, end: nat)
    requires end < |b| && Clean(b, end)
    ensures FixFrom(b, 0, end) == Mended(b, end, end)
  {
    assert Mended(b, 0, end) == b;
    FixFromMended(b, 0, end);
  }

  // ------------------------------------------------------------ main results

  /** The repaired buffer keeps every $ and every sentence end, and agrees with the repair of
      sentence j alone on the cells of that sentence. */
  lemma MendedSentence(b: seq<Byte>, end: nat, j: nat)
    requires j < end < |b| && Clean(b, end) && IsDollar(b[j])
    ensures var r, one, c := FixFrom(b, 0, end), FixAt(b, j, end), Stop(b, j + 1, end);
      && |r| == |b|
      && (forall k :: 0 <= k < |b| ==> r[k] == b[k] || (IsHex(b[k]) && IsHex(r[k]) && k < end))
      && (forall k :: j <= k < c ==> r[k] == one[k])
      && r[c] == one[c]
      && (HasChecksum(b, j, end) ==> c + 2 < end && r[c + 1] == one[c + 1] && r[c + 2] == one[c + 2])
  {
    hide *;
    var r, one, c := FixFrom(b, 0, end), FixAt(b, j, end), Stop(b, j + 1, end);
    forall k | 0 <= k < |b|
      ensures r[k] == b[k] || (IsHex(b[k]) && IsHex(r[k]) && k < end)
    {
      CellHex(b, end, k);
    }
    forall k | j <= k <= c
      ensures r[k] == one[k]
    {
      SentenceCell(b, end, j, k);
    }
    if HasChecksum(b, j, end) {
      ChecksumCells(b, j, end);
      SentenceCell(b, end, j, c + 1);
      SentenceCell(b, end, j, c + 2);
    }
  }

  lemma SentenceCell(b: seq<Byte>, end: nat, j: nat, k: nat)
    requires j < end < |b| && Clean(b, end) && IsDollar(b[j])
    requires var c := Stop(b, j + 1, end); j <= k <= c || (HasChecksum(b, j, end) && j <= k <= c + 2)
    ensures k < |b| && FixFrom(b, 0, end)[k] == FixAt(b, j, end)[k]
  {
    hide FixAt, FixFrom, Mended, Owner, Clean, IsHex, IsDollar, Stop, HasChecksum;
    BufferMended(b, end);
    if k == Stop(b, j + 1, end) {
      StopCell(b, end, j);
    } else {
      ChecksumCells(b, j, end);
      SentenceOwner(b, end, j, k);
    }
    CellAt(b, end, j, k);
  }

  lemma StopCell(b: seq<Byte>, end: nat, j: nat)
    requires j < end < |b|
    ensures var c := Stop(b, j + 1, end); c == end || !IsHex(b[c])
  {
  }

  /** The body and the checksum of a sentence belong to it. */
  lemma SentenceOwner(b: seq<Byte>, end: nat, j: nat, k: nat)
    requires j < end < |b| && Clean(b, end) && IsDollar(b[j])
    requires var c := Stop(b, j + 1, end); j <= k < c || (HasChecksum(b, j, end) && j <= k <= c + 2)
    ensures k < |b| && Owner(b, k, end) == j
  {
    ChecksumCells(b, j, end);
    assert forall i :: j < i <= k ==> !IsDollar(b[i]);
  }

  lemma CellHex(b: seq<Byte>, end: nat, k: nat)
    requires end < |b| && Clean(b, end) && k < |b|
    ensures var r := FixFrom(b, 0, end); r[k] == b[k] || (IsHex(b[k]) && IsHex(r[k]) && k < end)
  {
    hide FixAt, FixFrom, Clean, Mended, Owner, IsHex;
    BufferMended(b, end);
    var o := Owner(b, k, end);
    if o >= 0 && FixAt(b, o, end)[k] != b[k] { FixAtInside(b, o, end, k); }
  }

  /** A cell that is no hex digit, or that belongs to sentence j, is as the repair of j alone leaves it. */
  lemma CellAt(b: seq<Byte>, end: nat, j: nat, k: nat)
    requires j < end < |b| && Clean(b, end) && k < |b| && IsDollar(b[j])
    requires !IsHex(b[k]) || Owner(b, k, end) == j || k == end
    ensures Mended(b, end, end)[k] == FixAt(b, j, end)[k]
  {
    hide FixAt, Clean, Mended, Owner, IsHex;
    var o := Owner(b, k, end);
    if o >= 0 && FixAt(b, o, end)[k] != b[k] { FixAtInside(b, o, end, k); }
    if FixAt(b, j, end)[k] != b[k] { FixAtInside(b, j, end, k); }
  }

  /** What the repair of the whole buffer does to a sentence is an edit of what the repair of that
      sentence alone does. */
  lemma MendedEdits(b: seq<Byte>, end: nat, j: nat)
    requires j < end < |b| && Clean(b, end) && IsDollar(b[j])
    ensures var r, one := FixFrom(b, 0, end), FixAt(b, j, end);
      && IsDollar(one[j]) && Stop(one, j + 1, end) == Stop(b, j + 1, end) == Stop(r, j + 1, end)
      && IsDollar(r[j]) && Edited(one, r, j, end) && Edited(r, one, j, end)
      && (forall k :: j <= k < Stop(b, j + 1, end) ==> r[k] == one[k])
  {
    hide FixFrom, Clean, HasChecksum, FixChecksum, PutDate, Locate, Readable, ReadDate, DaysFromCivil, ChecksumHolds;
    var r, one := FixFrom(b, 0, end), FixAt(b, j, end);
    NotStale(b, j, end);
    if Stale(b, j, end) { StaleFixed(b, j, end); }
    MendedSentence(b, end, j);
    FieldSame(one, r, j + 1, end, 0);
    StopFromDollar(one, j, end);
    StopFromDollar(r, j, end);
  }

  /** In the repaired buffer every stale date has moved 1024 weeks on, and every checksum field of a
      sentence that was rewritten holds the exclusive or of its body. */
  lemma BufferFixed(b: seq<Byte>, end: nat, j: nat)
    requires j < end < |b| && Clean(b, end) && Stale(b, j, end)
    ensures var r, w := FixFrom(b, 0, end), Locate(b, j, end);
      && |r| == |b| && IsDollar(r[j]) && Locate(r, j, end) == w
      && ReadDate(r, w) == Moved(ReadDate(b, w))
      && Valid(ReadDate(r, w)) && Readable(ReadDate(r, w))
      && DaysFromCivil(ReadDate(r, w)) == DaysFromCivil(ReadDate(b, w)) + 1024 * 7
      && (HasChecksum(b, j, end) ==> HasChecksum(r, j, end) && ChecksumHolds(r, j, end))
  {
    hide FixFrom, FixAt, Clean, Locate, Readable, ReadDate, DaysFromCivil, Edited, Valid, ChecksumHolds, HasChecksum,
      Moved;
    var r, one, w := FixFrom(b, 0, end), FixAt(b, j, end), Locate(b, j, end);
    StaleFixed(b, j, end);
    MendedEdits(b, end, j);
    MovedDays(ReadDate(b, w));
    LocateSame(one, r, j, end);
    ReadDateSame(one, r, j, end, w);
    if HasChecksum(b, j, end) {
      MendedSentence(b, end, j);
      ChecksumSame(one, r, j, end);
    }
  }

  lemma ChecksumSame(b: seq<Byte>, r: seq<Byte>, j: nat, end: nat)
    requires j < end < |b| && |r| == |b| && HasChecksum(b, j, end) && ChecksumHolds(b, j, end)
    requires Stop(r, j + 1, end) == Stop(b, j + 1, end) && Stop(b, j + 1, end) + 2 < end
    requires forall k :: j < k <= Stop(b, j + 1, end) + 2 ==> r[k] == b[k]
    ensures HasChecksum(r, j, end) && ChecksumHolds(r, j, end)
  {
    hide XorSum;
    XorSumSame(b, r, j + 1, Stop(b, j + 1, end));
  }

  /** Cell k is a digit of the date or of the checksum of the stale sentence at j. */
  ghost predicate StaleCell(b: seq<Byte>, end: nat, j: nat, k: nat)
    requires j < end < |b|
  {
    && Stale(b, j, end)
    && (DateCell(Locate(b, j, end), k) ||
        (HasChecksum(b, j, end) && Stop(b, j + 1, end) < k <= Stop(b, j + 1, end) + 2))
  }

  lemma FixAtCells(b: seq<Byte>, end: nat, j: nat, k: nat)
    requires j < end < |b| && k < |b| && FixAt(b, j, end)[k] != b[k]
    ensures StaleCell(b, end, j, k)
  {
    hide FixAt, Locate, Readable, ReadDate, DaysFromCivil, ChecksumHolds, HasChecksum;
    NotStale(b, j, end);
    StaleFixed(b, j, end);
  }

  /** Only date and checksum digits of stale sentences change. */
  lemma OnlyStaleCells(b: seq<Byte>, end: nat, k: nat)
    requires end < |b| && Clean(b, end) && k < |b| && FixFrom(b, 0, end)[k] != b[k]
    ensures 0 <= Owner(b, k, end) && StaleCell(b, end, Owner(b, k, end), k)
  {
    hide *;
    BufferMended(b, end);
    FixAtCells(b, end, Owner(b, k, end), k);
  }

  // -------------------------------------------------------------- second pass

  lemma {:induction false} NoneStale(b: seq<Byte>, i: nat, end: nat)
    requires i <= end < |b| && forall j :: i <= j < end ==> !Stale(b, j, end)
    ensures FixFrom(b, i, end) == b
    decreases end - i
  {
    hide Stale;
    if i < end {
      NotStale(b, i, end);
      NoneStale(b, i + 1, end);
    }
  }

  /** A sentence of the repaired buffer is stale exactly if it was, and 1024 weeks did not suffice. */
  lemma StaleAfter(b: seq<Byte>, end: nat, j: nat)
    requires j < end < |b| && Clean(b, end)
    ensures Stale(FixFrom(b, 0, end), j, end) <==> !Settles(b, j, end)
  {
    hide FixFrom, Clean, Locate, ReadDate, DaysFromCivil, Edited, Readable, FixAt;
    var r := FixFrom(b, 0, end);
    CellHex(b, end, j);
    if IsDollar(b[j]) {
      if Stale(b, j, end) {
        BufferFixed(b, end, j);
      } else {
        NotStale(b, j, end);
        MendedEdits(b, end, j);
        if Stale(r, j, end) {
          DateShaped(r, j, end);
          LocateSame(r, b, j, end);
          ReadDateSame(r, b, j, end, Locate(r, j, end));
        }
      }
    }
  }

  lemma CleanAfter(b: seq<Byte>, end: nat)
    requires end < |b| && Clean(b, end)
    ensures Clean(FixFrom(b, 0, end), end)
  {
    hide FixFrom, FixAt, Stop, Edited;
    var r := FixFrom(b, 0, end);
    forall k | 0 <= k < |b|
      ensures IsDollar(r[k]) <==> IsDollar(b[k])
    {
      CellHex(b, end, k);
    }
    forall i, k | 0 <= i < end && IsDollar(r[i]) && i < k < Stop(r, i + 1, end)
      ensures !IsDollar(r[k])
    {
      MendedEdits(b, end, i);
    }
  }

  /** A second pass over the buffer changes nothing exactly when no date was before 1999-08-22,
      1024 weeks before the rollover; dates of RMC sentences, in this century, never are. */
  lemma SecondPass(b: seq<Byte>, end: nat)
    requires end < |b| && Clean(b, end)
    ensures FixFrom(FixFrom(b, 0, end), 0, end) == FixFrom(b, 0, end) <==>
      forall j :: 0 <= j < end ==> Settles(b, j, end)
  {
    hide FixFrom, Clean, Settles, Stale, Locate, ReadDate, DaysFromCivil;
    var r := FixFrom(b, 0, end);
    forall j | 0 <= j < end
      ensures Stale(r, j, end) <==> !Settles(b, j, end)
    {
      StaleAfter(b, end, j);
    }
    if forall j :: 0 <= j < end ==> Settles(b, j, end) {
      NoneStale(r, 0, end);
    } else {
      var j :| 0 <= j < end && !Settles(b, j, end);
      CleanAfter(b, end);
      BufferFixed(r, end, j);
    }
  }

  // ------------------------------------------------------------- an old date

  /** "$GPZDA,0,01,01,1980,0" and the cell past its end. */
  const OLD_DATE: seq<Byte> := [36, 71, 80, 90, 68, 65, 44, 48, 44, 48, 49, 44, 48, 49, 44, 49, 57, 56, 48, 44, 48, 0]

  /** b is that sentence, cell by cell. */
  ghost predicate IsOldDate(b: seq<Byte>) {
    && |b| == 22
    && b[0] == 36 && b[1] == 71 && b[2] == 80 && b[3] == 90 && b[4] == 68 && b[5] == 65 && b[6] == 44 && b[7] == 48
    && b[8] == 44 && b[9] == 48 && b[10] == 49 && b[11] == 44 && b[12] == 48 && b[13] == 49 && b[14] == 44
    && b[15] == 49 && b[16] == 57 && b[17] == 56 && b[18] == 48 && b[19] == 44 && b[20] == 48
  }

  lemma {:induction false} FieldStep(b: seq<Byte>, i: nat, k: nat, end: nat, n: nat)
    requires i <= k < end <= |b| && n > 0 && IsComma(b[k])
    requires forall j :: i <= j < k ==> !IsStop(b[j]) && !IsComma(b[j])
    ensures Field(b, i, end, n) == Field(b, k + 1, end, n - 1)
    decreases k - i
  {
    if i < k { FieldStep(b, i + 1, k, end, n); }
  }

  lemma OldFields(b: seq<Byte>, n: nat)
    requires IsOldDate(b) && 2 <= n <= 4
    ensures Field(b, 0, 21, n) == 3 * n + 3
  {
    hide Field;
    FieldStep(b, 0, 6, 21, n);
    FieldStep(b, 7, 8, 21, n - 1);
    if n > 2 { FieldStep(b, 9, 11, 21, n - 2); }
    if n > 3 { FieldStep(b, 12, 14, 21, n - 3); }
    FieldHere(b, 3 * n + 3, 21);
  }

  lemma FieldHere(b: seq<Byte>, i: nat, end: nat)
    requires i <= end <= |b|
    ensures Field(b, i, end, 0) == i
  {
  }

  lemma DigitNext(b: seq<Byte>, p: nat, n: nat, d: nat)
    requires p + n < |b| && d <= 9 && b[p + n] == 48 + d && Digits(b, p, n) >= 0
    ensures Digits(b, p, n + 1) == Digits(b, p, n) * 10 + d
  {
  }

  lemma NoDigits(b: seq<Byte>, p: nat)
    requires p <= |b|
    ensures Digits(b, p, 0) == 0
  {
  }

  lemma OldDigits(b: seq<Byte>)
    requires IsOldDate(b)
    ensures Digits(b, 9, 2) == 1 && Digits(b, 12, 2) == 1 && Digits(b, 15, 4) == 1980
  {
    hide Digits;
    NoDigits(b, 9);
    DigitNext(b, 9, 0, 0);
    DigitNext(b, 9, 1, 1);
    NoDigits(b, 12);
    DigitNext(b, 12, 0, 0);
    DigitNext(b, 12, 1, 1);
    NoDigits(b, 15);
    DigitNext(b, 15, 0, 1);
    DigitNext(b, 15, 1, 9);
    DigitNext(b, 15, 2, 8);
    DigitNext(b, 15, 3, 0);
  }

  lemma OldDateRead(b: seq<Byte>)
    requires IsOldDate(b)
    ensures Locate(b, 0, 21) == Spot(9, 12, 15, 4)
    ensures ReadDate(b, Spot(9, 12, 15, 4)) == Date(1980, 1, 1)
  {
    hide Field, Digits;
    OldFields(b, 2);
    OldFields(b, 3);
    OldFields(b, 4);
    OldDigits(b);
  }

  lemma OldDateStale(b: seq<Byte>)
    requires IsOldDate(b)
    ensures Stale(b, 0, 21) && !Settles(b, 0, 21) && Clean(b, 21)
  {
    hide Locate, ReadDate;
    OldDateRead(b);
    assert DaysFromCivil(Date(1980, 1, 1)) == 3652;
  }

  /** A ZDA sentence of 1980-01-01: it is in order, and a second pass changes it once more. */
  lemma OldDateMovesTwice()
    ensures Clean(OLD_DATE, 21) && Stale(OLD_DATE, 0, 21) && !Settles(OLD_DATE, 0, 21)
    ensures FixFrom(FixFrom(OLD_DATE, 0, 21), 0, 21) != FixFrom(OLD_DATE, 0, 21)
  {
    hide FixFrom, Stale, Settles, Clean;
    var b := OLD_DATE;
    assert IsOldDate(b);
    OldDateStale(b);
    SecondPass(b, 21);
  }

  // -------------------------------------------------------- overlapping sentences

  /** Whatever the buffer holds, overlapping sentences included: no cell but a decimal or hexadecimal digit
      before the end changes, and it stays one. */
  lemma {:induction false} AnyBuffer(b: seq<Byte>, i: nat, end: nat, k: nat)
    requires i <= end < |b| && k < |b|
    ensures FixFrom(b, i, end)[k] != b[k] ==> IsHex(b[k]) && IsHex(FixFrom(b, i, end)[k])
    decreases end - i
  {
    hide FixAt, Stale;
    if i < end {
      var r := FixAt(b, i, end);
      OneChanges(b, i, end, k);
      AnyBuffer(r, i + 1, end, k);
    }
  }

  lemma OneChanges(b: seq<Byte>, i: nat, end: nat, k: nat)
    requires i < end < |b| && k < |b|
    ensures FixAt(b, i, end)[k] != b[k] ==> IsHex(b[k]) && IsHex(FixAt(b, i, end)[k])
  {
    if Stale(b, i, end) {
      hide FixAt, Stale, Locate, ReadDate, Moved, Shaped;
      StaleFixed(b, i, end);
    } else {
      NotStale(b, i, end);
    }
  }
}
