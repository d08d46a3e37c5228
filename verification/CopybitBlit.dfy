/** The copybit blit loop: region rectangles become requests, sent to the driver in batches of at most 12. */
module CopybitBlit {
  import opened Copybit
  import opened Words

  const EINVAL := 22
  const BATCH := 12

  datatype Format =
    | RGB_565 | RGBX_8888 | RGB_888 | RGBA_8888 | BGRA_8888 | RGBA_5551 | RGBA_4444
    | YCrCb_420_SP | YCbCr_422_SP

  datatype Image = Image(size: Size, format: Format)

  /** The device settings a blit depends on; hideStatusBar is the debug.copybit.disable_statusbar property. */
  datatype Context = Context(flags: Flags, alpha: nat, hideStatusBar: bool)

  predicate Yuv(f: Format) {
    f == YCrCb_420_SP || f == YCbCr_422_SP
  }

  predicate HasAlpha(f: Format) {
    f == RGBA_8888 || f == BGRA_8888 || f == RGBA_5551 || f == RGBA_4444
  }

  /** set_rects, field by field in the order of the source. */
  method SetRects(f: Flags, yuv: bool, dstImg: Size, srcImg: Size, dst: Rect, src: Rect, scissor: Rect)
    returns (e: Request)
    requires Divisible(f, dst, src)
    ensures e == Rects(f, yuv, dstImg, srcImg, dst, src, scissor)
  {
    hide U32, Even, MulDiv;
    var clip := Intersect(scissor, dst);
    var dx, dy := Span(U32(clip.l), U32(clip.r - clip.l)), Span(U32(clip.t), U32(clip.b - clip.t));
    var sx, sy, w, h;
    if f.rot90 {
      sx := Span(U32(clip.t - dst.t + src.t), U32(clip.b - clip.t));
      sy := Span(U32(dst.r - clip.r + src.l), U32(clip.r - clip.l));
      w, h := dst.b - dst.t, dst.r - dst.l;
    } else {
      sx := Span(U32(clip.l - dst.l + src.l), U32(clip.r - clip.l));
      sy := Span(U32(clip.t - dst.t + src.t), U32(clip.b - clip.t));
      w, h := dst.r - dst.l, dst.b - dst.t;
    }
    sx := Span(MulDiv(sx.at, src.r - src.l, w), MulDiv(sx.len, src.r - src.l, w));
    sy := Span(MulDiv(sy.at, src.b - src.t, h), MulDiv(sy.len, src.b - src.t, h));
    if yuv {
      dx, dy := Span(Even(dx.at), Even(dx.len)), Span(Even(dy.at), Even(dy.len));
      sx, sy := Span(Even(sx.at), Even(sx.len)), Span(Even(sy.at), Even(sy.len));
      if U32(sx.at + sx.len) > srcImg.w { sx := sx.(len := Even(U32(srcImg.w - sx.at))); }
      if U32(sy.at + sy.len) > srcImg.h { sy := sy.(len := Even(U32(srcImg.h - sy.at))); }
      if U32(dx.at + dx.len) > dstImg.w { dx := dx.(len := Even(U32(dstImg.w - dx.at))); }
      if U32(dy.at + dy.len) > dstImg.h { dy := dy.(len := Even(U32(dstImg.h - dy.at))); }
    }
    if f.flipV { sy := sy.(at := U32(srcImg.h - (sy.at + sy.len))); }
    if f.flipH { sx := sx.(at := U32(srcImg.w - (sx.at + sx.len))); }
    e := Request(dx, dy, sx, sy);
  }

  // ------------------------------------------------------------------ batches

  /** What the driver was given, batch by batch, and the status of the blit. */
  datatype Sent = Sent(calls: seq<seq<Request>>, status: int)

  /** Requests are sent twelve at a time until a batch fails; outcome(k) is the status of call k. */
  function Send(reqs: seq<Request>, outcome: nat -> int, k: nat): Sent
    decreases |reqs|
  {
    if reqs == [] then Sent([], 0) else
      var n := if |reqs| < BATCH then |reqs| else BATCH;
      if outcome(k) != 0 then Sent([reqs[..n]], outcome(k)) else
        var rest := Send(reqs[n..], outcome, k + 1);
        Sent([reqs[..n]] + rest.calls, rest.status)
  }

  function Flat<T>(ss: seq<seq<T>>): seq<T> {
    if ss == [] then [] else ss[0] + Flat(ss[1..])
  }

  /** The batches hold 12 requests each, the last one at least one; all but the last succeed. */
  lemma {:induction false} SendSizes(reqs: seq<Request>, outcome: nat -> int, k: nat, i: nat)
    requires i < |Send(reqs, outcome, k).calls|
    ensures var s := Send(reqs, outcome, k);
      && 1 <= |s.calls[i]| <= 12
      && (i < |s.calls| - 1 ==> |s.calls[i]| == 12 && outcome(k + i) == 0)
      && (i == |s.calls| - 1 ==> s.status == outcome(k + i))
    decreases |reqs|
  {
    var n := if |reqs| < BATCH then |reqs| else BATCH;
    if i > 0 {
      SendSizes(reqs[n..], outcome, k + 1, i - 1);
    }
  }

  /** Run together, the batches give the requests in order: all of them if every batch succeeds, and those
      up to the first failing batch otherwise. */
  lemma {:induction false} SendFlat(reqs: seq<Request>, outcome: nat -> int, k: nat)
    ensures var s := Send(reqs, outcome, k);
      Flat(s.calls) <= reqs && (s.status == 0 ==> Flat(s.calls) == reqs)
    decreases |reqs|
  {
    if reqs != [] {
      var s := Send(reqs, outcome, k);
      var n := if |reqs| < BATCH then |reqs| else BATCH;
      assert reqs == reqs[..n] + reqs[n..];
      if outcome(k) == 0 {
        SendFlat(reqs[n..], outcome, k + 1);
        assert s.calls[1..] == Send(reqs[n..], outcome, k + 1).calls;
      } else {
        assert s.calls[1..] == [];
      }
    }
  }

  /** How a blit ends that has made some calls and has requests left to send. */
  function Onward(calls: seq<seq<Request>>, reqs: seq<Request>, outcome: nat -> int): Sent {
    var rest := Send(reqs, outcome, |calls|);
    Sent(calls + rest.calls, rest.status)
  }

  lemma OnwardFull(calls: seq<seq<Request>>, batch: seq<Request>, later: seq<Request>, outcome: nat -> int)
    requires |batch| == BATCH
    ensures Onward(calls, batch + later, outcome) ==
      if outcome(|calls|) != 0 then Sent(calls + [batch], outcome(|calls|))
      else Onward(calls + [batch], later, outcome)
  {
    assert (batch + later)[..BATCH] == batch && (batch + later)[BATCH..] == later;
    var rest := Send(later, outcome, |calls| + 1);
    assert calls + ([batch] + rest.calls) == (calls + [batch]) + rest.calls;
  }

  lemma OnwardLast(calls: seq<seq<Request>>, batch: seq<Request>, outcome: nat -> int)
    requires 0 < |batch| < BATCH
    ensures Onward(calls, batch, outcome) == Sent(calls + [batch], outcome(|calls|))
  {
    assert batch[..|batch|] == batch && batch[|batch|..] == [];
    assert Send([], outcome, |calls| + 1) == Sent([], 0);
    assert calls + ([batch] + []) == calls + [batch];
  }

  lemma OnwardEnds(calls: seq<seq<Request>>, reqs: seq<Request>, outcome: nat -> int)
    ensures Onward(calls, [], outcome) == Sent(calls, 0)
    ensures Onward([], reqs, outcome) == Send(reqs, outcome, 0)
  {
    assert calls + [] == calls;
  }

  // ---------------------------------------------------------------- the blit

  predicate Nothing(q: Request) {
    q.srcX.len <= 0 || q.srcY.len <= 0 || q.dstX.len <= 0 || q.dstY.len <= 0
  }

  function RequestFor(c: Context, dst: Image, src: Image, dstRect: Rect, srcRect: Rect, clip: Rect): Request
    requires Divisible(c.flags, dstRect, srcRect)
  {
    Rects(c.flags, Yuv(src.format), dst.size, src.size, dstRect, srcRect, Intersect(Full(dst.size), clip))
  }

  /** The requests a region gives, in region order, without the ones that move nothing. */
  function Requests(c: Context, dst: Image, src: Image, dstRect: Rect, srcRect: Rect, region: seq<Rect>): seq<Request>
    requires region == [] || Divisible(c.flags, dstRect, srcRect)
  {
    if region == [] then [] else
      var q := RequestFor(c, dst, src, dstRect, srcRect, region[0]);
      (if Nothing(q) then [] else [q]) + Requests(c, dst, src, dstRect, srcRect, region[1..])
  }

  lemma NoRequests(c: Context, dst: Image, src: Image, dstRect: Rect, srcRect: Rect, region: seq<Rect>)
    requires region == [] || Divisible(c.flags, dstRect, srcRect)
    ensures region == [] ==> Requests(c, dst, src, dstRect, srcRect, region) == []
  {
  }

  lemma RequestsStep(c: Context, dst: Image, src: Image, dstRect: Rect, srcRect: Rect, region: seq<Rect>, i: nat)
    requires Divisible(c.flags, dstRect, srcRect) && i < |region|
    ensures var q := RequestFor(c, dst, src, dstRect, srcRect, region[i]);
      var later := Requests(c, dst, src, dstRect, srcRect, region[i + 1..]);
      Requests(c, dst, src, dstRect, srcRect, region[i..]) == if Nothing(q) then later else [q] + later
  {
    hide Rects;
    assert region[i..][1..] == region[i + 1..];
    var later := Requests(c, dst, src, dstRect, srcRect, region[i + 1..]);
    assert [] + later == later;
  }

  /** The checks before the loop. */
  predicate Accepted(c: Context, dst: Image, src: Image, srcRect: Rect) {
    && !(dst.size.h <= 26 && c.hideStatusBar)
    && !(c.alpha < 255 && HasAlpha(src.format))
    && 0 <= srcRect.l && srcRect.r <= src.size.w && 0 <= srcRect.t && srcRect.b <= src.size.h
    && src.size.w <= MAX_DIMENSION && src.size.h <= MAX_DIMENSION
    && dst.size.w <= MAX_DIMENSION && dst.size.h <= MAX_DIMENSION
  }

  /** The loop of stretch_copybit, with the driver as outcome. */
  method SendRegion(c: Context, dst: Image, src: Image, dstRect: Rect, srcRect: Rect, region: seq<Rect>,
                    outcome: nat -> int)
    returns (status: int, calls: seq<seq<Request>>)
    requires region == [] || Divisible(c.flags, dstRect, srcRect)
    ensures Sent(calls, status) == Send(Requests(c, dst, src, dstRect, srcRect, region), outcome, 0)
  {
    hide Rects, Onward, Send, Requests, Intersect, Full, Yuv, Divisible;
    ghost var reqs := Requests(c, dst, src, dstRect, srcRect, region);
    ghost var later, all := reqs, Onward([], reqs, outcome);
    var list := new Request[BATCH](_ => Request(Span(0, 0), Span(0, 0), Span(0, 0), Span(0, 0)));
    var count, i := 0, 0;
    status, calls := 0, [];
    assert region[0..] == region && list[..0] + reqs == reqs;
    while status == 0 && i < |region|
      invariant 0 <= i <= |region| && 0 <= count < BATCH
      invariant later == Requests(c, dst, src, dstRect, srcRect, region[i..])
      invariant all == if status != 0 then Sent(calls, status) else Onward(calls, list[..count] + later, outcome)
      decreases |region| - i
    {
      RequestsStep(c, dst, src, dstRect, srcRect, region, i);
      var clip := Intersect(Full(dst.size), region[i]);
      var req := SetRects(c.flags, Yuv(src.format), dst.size, src.size, dstRect, srcRect, clip);
      ghost var waiting, next := list[..count], Requests(c, dst, src, dstRect, srcRect, region[i + 1..]);
      assert later == if Nothing(req) then next else [req] + next;
      i := i + 1;
      list[count] := req;
      assert list[..count] == waiting;
      if req.srcX.len <= 0 || req.srcY.len <= 0 { later := next; continue; }
      if req.dstX.len <= 0 || req.dstY.len <= 0 { later := next; continue; }
      count := count + 1;
      assert list[..count] + next == waiting + later;
      later := next;
      if count == BATCH {
        OnwardFull(calls, list[..count], next, outcome);
        status := outcome(|calls|);
        calls := calls + [list[..count]];
        count := 0;
        assert list[..count] + next == next;
      }
    }
    OnwardEnds(calls, reqs, outcome);
    NoRequests(c, dst, src, dstRect, srcRect, region[i..]);
    assert later == [] ==> list[..count] + later == list[..count];
    if status == 0 && count > 0 {
      OnwardLast(calls, list[..count], outcome);
      status := outcome(|calls|);
      calls := calls + [list[..count]];
    }
  }

  /** stretch_copybit: the checks, and then the loop. */
  method Stretch(c: Context, dst: Image, src: Image, dstRect: Rect, srcRect: Rect, region: seq<Rect>,
                 outcome: nat -> int)
    returns (status: int, calls: seq<seq<Request>>)
    requires Accepted(c, dst, src, srcRect) && region != [] ==> Divisible(c.flags, dstRect, srcRect)
    ensures !Accepted(c, dst, src, srcRect) ==> status == -EINVAL && calls == []
    ensures Accepted(c, dst, src, srcRect) ==>
      Sent(calls, status) == Send(Requests(c, dst, src, dstRect, srcRect, region), outcome, 0)
    ensures Accepted(c, dst, src, srcRect) <==>
      && (dst.size.h > 26 || !c.hideStatusBar)
      && (c.alpha >= 255 || src.format !in {RGBA_8888, BGRA_8888, RGBA_5551, RGBA_4444})
      && srcRect.l >= 0 && srcRect.t >= 0 && srcRect.r <= src.size.w && srcRect.b <= src.size.h
      && src.size.w <= 4096 && src.size.h <= 4096 && dst.size.w <= 4096 && dst.size.h <= 4096
  {
    calls := [];
    if dst.size.h <= 26 && c.hideStatusBar { return -EINVAL, []; }
    if c.alpha < 255 && HasAlpha(src.format) { return -EINVAL, []; }
    if srcRect.l < 0 || srcRect.r > src.size.w || srcRect.t < 0 || srcRect.b > src.size.h { return -EINVAL, []; }
    if src.size.w > MAX_DIMENSION || src.size.h > MAX_DIMENSION { return -EINVAL, []; }
    if dst.size.w > MAX_DIMENSION || dst.size.h > MAX_DIMENSION { return -EINVAL, []; }
    status, calls := SendRegion(c, dst, src, dstRect, srcRect, region, outcome);
  }

  /** blit_copybit: the whole source onto the whole destination. */
  method Blit(c: Context, dst: Image, src: Image, region: seq<Rect>, outcome: nat -> int)
    returns (status: int, calls: seq<seq<Request>>)
    requires Accepted(c, dst, src, Full(src.size)) && region != [] ==>
      Divisible(c.flags, Full(dst.size), Full(src.size))
    ensures var ok := Accepted(c, dst, src, Full(src.size));
      && (!ok ==> status == -EINVAL && calls == [])
      && (ok ==> Sent(calls, status)
                 == Send(Requests(c, dst, src, Full(dst.size), Full(src.size), region), outcome, 0))
  {
    status, calls := Stretch(c, dst, src, Full(dst.size), Full(src.size), region, outcome);
  }

  /** When every region rectangle touches the destination, all requests of a blit stay inside both images. */
  lemma {:induction false} BlitRequestsInside(c: Context, dst: Image, src: Image, region: seq<Rect>)
    requires Blittable(dst.size) && Blittable(src.size)
    requires forall i :: 0 <= i < |region| ==> NonEmpty(Intersect(Full(dst.size), region[i]))
    ensures Divisible(c.flags, Full(dst.size), Full(src.size))
    ensures forall q :: q in Requests(c, dst, src, Full(dst.size), Full(src.size), region) ==>
      && Inside(q.dstX, q.dstY, dst.size) && Inside(q.srcX, q.srcY, src.size)
      && (src.format == YCrCb_420_SP || src.format == YCbCr_422_SP ==> EvenSizes(q))
    decreases |region|
  {
    hide Rects, Inside, EvenSizes;
    U32Small(dst.size.w);
    U32Small(dst.size.h);
    if region != [] {
      var clip := Intersect(Full(dst.size), region[0]);
      assert Intersect(clip, Full(dst.size)) == clip;
      BlitInside(c.flags, Yuv(src.format), dst.size, src.size, clip);
      BlitRequestsInside(c, dst, src, region[1..]);
    }
  }

  // ------------------------------------------------------- what a blit draws

  predicate Contains(r: Rect, x: int, y: int) {
    r.l <= x < r.r && r.t <= y < r.b
  }

  /** The part of the source for this clip is at least one pixel wide and high. */
  predicate Reads(f: Flags, dst: Size, src: Size, clip: Rect) {
    if f.rot90 then (clip.b - clip.t) * src.w >= dst.h && (clip.r - clip.l) * src.h >= dst.w
    else (clip.r - clip.l) * src.w >= dst.w && (clip.b - clip.t) * src.h >= dst.h
  }

  lemma PositiveFloor(v: int, a: int, mul: int, div: int)
    requires 0 < div && Floored(v, a, mul, div, false)
    ensures v > 0 <==> a * mul >= div
  {
    if v <= 0 { LargerInt(div, v + 1, 1); } else { LargerInt(div, 1, v); }
  }

  /** For an RGB source a clip inside the destination is sent if and only if it reads something, and it is sent as it
      is. */
  lemma SentAs(c: Context, dst: Image, src: Image, clip: Rect)
    requires Blittable(dst.size) && Blittable(src.size)
    requires src.format != YCrCb_420_SP && src.format != YCbCr_422_SP && NonEmpty(Intersect(Full(dst.size), clip))
    ensures Divisible(c.flags, Full(dst.size), Full(src.size))
    ensures var q, r := RequestFor(c, dst, src, Full(dst.size), Full(src.size), clip), Intersect(Full(dst.size), clip);
      && (!Nothing(q) <==> Reads(c.flags, dst.size, src.size, r))
      && q.dstX == Span(r.l, r.r - r.l) && q.dstY == Span(r.t, r.b - r.t)
  {
    hide SrcSpan, DstSpan, Floored;
    var r := Intersect(Full(dst.size), clip);
    assert Intersect(r, Full(dst.size)) == r;
    ScaledReads(c.flags, false, dst.size, src.size, r);
    DstExact(r.l, r.r, false, dst.size.w);
    DstExact(r.t, r.b, false, dst.size.h);
    var q := RequestFor(c, dst, src, Full(dst.size), Full(src.size), clip);
    if c.flags.rot90 {
      PositiveFloor(q.srcX.len, r.b - r.t, src.size.w, dst.size.h);
      PositiveFloor(q.srcY.len, r.r - r.l, src.size.h, dst.size.w);
    } else {
      PositiveFloor(q.srcX.len, r.r - r.l, src.size.w, dst.size.w);
      PositiveFloor(q.srcY.len, r.b - r.t, src.size.h, dst.size.h);
    }
  }

  /** A rectangle of the region holds the pixel and reads something. */
  ghost predicate Drawn(f: Flags, dst: Size, src: Size, region: seq<Rect>, x: int, y: int) {
    exists i :: 0 <= i < |region| &&
      Contains(Intersect(Full(dst), region[i]), x, y) && Reads(f, dst, src, Intersect(Full(dst), region[i]))
  }

  /** For an RGB source, the pixels that the requests of a blit write are exactly those of the region inside the
      destination whose rectangle reads at least a pixel. */
  lemma {:induction false} BlitDraws(c: Context, dst: Image, src: Image, region: seq<Rect>, x: int, y: int)
    requires Blittable(dst.size) && Blittable(src.size)
    requires src.format != YCrCb_420_SP && src.format != YCbCr_422_SP
    requires forall i :: 0 <= i < |region| ==> NonEmpty(Intersect(Full(dst.size), region[i]))
    ensures Divisible(c.flags, Full(dst.size), Full(src.size))
    ensures (exists q :: q in Requests(c, dst, src, Full(dst.size), Full(src.size), region)
                         && Covers(q.dstX, x) && Covers(q.dstY, y))
            <==> Drawn(c.flags, dst.size, src.size, region, x, y)
    decreases |region|
  {
    hide Rects, Reads, Intersect;
    U32Small(dst.size.w);
    U32Small(dst.size.h);
    if region != [] {
      SentAs(c, dst, src, region[0]);
      BlitDraws(c, dst, src, region[1..], x, y);
      DrawnFirst(c.flags, dst.size, src.size, region, x, y);
    }
  }

  lemma DrawnFirst(f: Flags, dst: Size, src: Size, region: seq<Rect>, x: int, y: int)
    requires region != []
    ensures Drawn(f, dst, src, region, x, y) <==>
      || (Contains(Intersect(Full(dst), region[0]), x, y) && Reads(f, dst, src, Intersect(Full(dst), region[0])))
      || Drawn(f, dst, src, region[1..], x, y)
  {
    hide Contains, Reads, Intersect;
    forall i | 0 <= i < |region| - 1 ensures region[1..][i] == region[i + 1] { }
    if Drawn(f, dst, src, region, x, y) {
      var i :| 0 <= i < |region| && Contains(Intersect(Full(dst), region[i]), x, y)
        && Reads(f, dst, src, Intersect(Full(dst), region[i]));
      if i > 0 { assert region[1..][i - 1] == region[i]; }
    }
  }
}
