/** The date repair as it runs: loops over a buffer that is edited in place. */
module NmeaFix {
  import opened Civil
  import opened Nmea
  import NmeaBuffer

  method FindField(buf: array<Byte>, s: nat, end: nat, n: nat) returns (f: int)
    requires s <= end <= buf.Length
    ensures f == Field(buf[..], s, end, n)
  {
    var i, m := s, n;
    while m > 0 && i < end
      invariant s <= i <= end && m >= 0
      invariant Field(buf[..], i, end, m) == Field(buf[..], s, end, n)
      decreases end - i
    {
      if IsStop(buf[i]) { return -1; }
      if IsComma(buf[i]) { m := m - 1; }
      i := i + 1;
    }
    return if m == 0 then i else -1;
  }

  method ReadDigits(buf: array<Byte>, p: nat, n: nat) returns (v: int)
    requires p + n <= buf.Length
    ensures v == Digits(buf[..], p, n)
  {
    v := 0;
    for i := 0 to n
      invariant v == Digits(buf[..], p, i) >= 0
    {
      if !IsDigit(buf[p + i]) {
        NoDigit(buf[..], p, i, n);
        return -1;
      }
      v := v * 10 + (buf[p + i] - '0' as int);
    }
  }

  lemma {:induction false} NoDigit(b: seq<Byte>, p: nat, i: nat, n: nat)
    requires i < n && p + n <= |b| && !IsDigit(b[p + i])
    ensures Digits(b, p, n) == -1
    decreases n
  {
    if i < n - 1 { NoDigit(b, p, i, n - 1); }
  }

  method PutDigits(buf: array<Byte>, p: nat, n: nat, v: nat)
    requires p + n <= buf.Length
    modifies buf
    ensures buf[..] == Put(old(buf[..]), p, n, v)
  {
    var i, x := n, v;
    while i > 0
      invariant 0 <= i <= n && x >= 0
      invariant Put(buf[..], p, i, x) == Put(old(buf[..]), p, n, v)
    {
      i := i - 1;
      ghost var before := buf[..];
      var c: Byte := '0' as int + x % 10;
      buf[p + i] := c;
      assert buf[..] == before[p + i := c];
      x := x / 10;
    }
  }

  method SumBody(buf: array<Byte>, s: nat, end: nat) returns (sum: Byte, c: nat)
    requires s < end <= buf.Length
    ensures c == Stop(buf[..], s + 1, end) && sum == XorSum(buf[..], s + 1, c)
  {
    sum, c := 0, s + 1;
    while c < end && !IsStop(buf[c])
      invariant s + 1 <= c <= end
      invariant Stop(buf[..], c, end) == Stop(buf[..], s + 1, end)
      invariant sum == XorSum(buf[..], s + 1, c)
    {
      sum := Xor(sum, buf[c]);
      c := c + 1;
    }
  }

  method FindDate(buf: array<Byte>, s: nat, end: nat) returns (w: Spot)
    requires s < end < buf.Length
    ensures w == Locate(buf[..], s, end)
  {
    hide Field;
    if end - s > 6 && buf[s + 3] == 'R' as int && buf[s + 4] == 'M' as int && buf[s + 5] == 'C' as int
       && IsComma(buf[s + 6]) {
      var f := FindField(buf, s, end, 9);
      if f < 0 || end - f < 6 || !IsComma(buf[f + 6]) { return NoDate; }
      return Spot(f, f + 2, f + 4, 2);
    } else if end - s > 6 && buf[s + 3] == 'Z' as int && buf[s + 4] == 'D' as int && buf[s + 5] == 'A' as int
              && IsComma(buf[s + 6]) {
      var dp := FindField(buf, s, end, 2);
      var mp := FindField(buf, s, end, 3);
      var yp := FindField(buf, s, end, 4);
      FieldOrder(buf[..], s, end, 2);
      FieldOrder(buf[..], s, end, 3);
      if dp < 0 || mp < 0 || yp < 0 || end - yp < 4
         || !IsComma(buf[dp + 2]) || !IsComma(buf[mp + 2]) || !IsComma(buf[yp + 4]) {
        return NoDate;
      }
      return Spot(dp, mp, yp, 4);
    } else {
      return NoDate;
    }
  }

  method FixSentence(buf: array<Byte>, s: nat, end: nat)
    requires s < end < buf.Length
    modifies buf
    ensures buf[..] == FixAt(old(buf[..]), s, end)
  {
    hide Field, Digits, Put, Stop, XorSum, DaysFromCivil, CivilFromDays, Locate;
    if !IsDollar(buf[s]) { return; }
    var w := FindDate(buf, s, end);
    if w.NoDate? { return; }
    var d := ReadDigits(buf, w.dp, 2);
    var m := ReadDigits(buf, w.mp, 2);
    var y := ReadDigits(buf, w.yp, w.ylen);
    if d < 1 || m < 1 || m > 12 || y < 0 { return; }
    if w.ylen == 2 { y := y + 2000; }
    var days := DaysFromCivil(Date(y, m, d));
    if days >= LAST_ROLLOVER { return; }
    ghost var b := buf[..];
    MovedRange(ReadDate(b, w));
    var t := CivilFromDays(days + 1024 * 7);
    assert t == Moved(ReadDate(b, w));
    PutDigits(buf, w.dp, 2, t.day);
    PutDigits(buf, w.mp, 2, t.month);
    PutDigits(buf, w.yp, w.ylen, if w.ylen == 2 then t.year % 100 else t.year);
    PatchChecksum(buf, s, end);
  }

  method PatchChecksum(buf: array<Byte>, s: nat, end: nat)
    requires s < end <= buf.Length
    modifies buf
    ensures buf[..] == FixChecksum(old(buf[..]), s, end)
  {
    var sum, c := SumBody(buf, s, end);
    if c + 2 < end && buf[c] == '*' as int && IsHex(buf[c + 1]) && IsHex(buf[c + 2]) {
      buf[c + 1] := HexDigit(sum / 16);
      buf[c + 2] := HexDigit(sum % 16);
    }
  }

  /** loc_eng_fix_nmea_dates; the cell past the buffer must be readable. */
  method FixDates(buf: array<Byte>, len: nat)
    requires len < buf.Length
    modifies buf
    ensures buf[..] == FixFrom(old(buf[..]), 0, len)
    ensures old(NmeaBuffer.Clean(buf[..], len)) ==> buf[..] == NmeaBuffer.Mended(old(buf[..]), len, len)
  {
    hide FixAt, NmeaBuffer.Clean, NmeaBuffer.Mended;
    ghost var b := buf[..];
    for s := 0 to len
      invariant FixFrom(buf[..], s, len) == FixFrom(b, 0, len)
    {
      FixSentence(buf, s, len);
    }
    if NmeaBuffer.Clean(b, len) { NmeaBuffer.BufferMended(b, len); }
  }
}
