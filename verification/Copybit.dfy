/** The rectangle arithmetic of the copybit blitter, in 32-bit unsigned fields, axis by axis. */
module Copybit {
  import opened Words

  const MAX_DIMENSION := 4096

  datatype Rect = Rect(l: int, t: int, r: int, b: int)

  /** One axis of an MDP rectangle: where it starts and how long it is. */
  datatype Span = Span(at: nat, len: nat)

  datatype Request = Request(dstX: Span, dstY: Span, srcX: Span, srcY: Span)

  /** The transform flags. */
  datatype Flags = Flags(rot90: bool, flipV: bool, flipH: bool)

  datatype Size = Size(w: nat, h: nat)

  /** x & ~1 */
  function Even(x: nat): nat {
    x - x % 2
  }

  function Max(a: int, b: int): int {
    if a > b then a else b
  }

  function Min(a: int, b: int): int {
    if a < b then a else b
  }

  function Intersect(a: Rect, b: Rect): Rect {
    Rect(Max(a.l, b.l), Max(a.t, b.t), Min(a.r, b.r), Min(a.b, b.b))
  }

  /** MULDIV does not divide by zero. */
  predicate Divides(mul: int, div: int) {
    U32(mul) == U32(div) || U32(div) != 0
  }

  /** MULDIV on one field. */
  function MulDiv(a: nat, mul: int, div: int): nat
    requires Divides(mul, div)
  {
    if U32(mul) == U32(div) then a else U32(U32(mul) * a) / U32(div)
  }

  /** The clamp of an aligned span to the buffer. */
  function Fit(s: Span, size: nat): Span {
    if U32(s.at + s.len) > size then s.(len := Even(U32(size - s.at))) else s
  }

  function Aligned(s: Span, size: nat): Span {
    Fit(Span(Even(s.at), Even(s.len)), size)
  }

  function DstSpan(lo: int, hi: int, yuv: bool, size: nat): Span {
    var s := Span(U32(lo), U32(hi - lo));
    if yuv then Aligned(s, size) else s
  }

  function SrcSpan(off: int, len: int, mul: int, div: int, yuv: bool, flip: bool, size: nat): Span
    requires Divides(mul, div)
  {
    var s := Span(MulDiv(U32(off), mul, div), MulDiv(U32(len), mul, div));
    var s := if yuv then Aligned(s, size) else s;
    if flip then s.(at := U32(size - (s.at + s.len))) else s
  }

  /** Scaling from src to dst does not divide by zero. */
  predicate Divisible(f: Flags, dst: Rect, src: Rect) {
    if f.rot90 then Divides(src.r - src.l, dst.b - dst.t) && Divides(src.b - src.t, dst.r - dst.l)
    else Divides(src.r - src.l, dst.r - dst.l) && Divides(src.b - src.t, dst.b - dst.t)
  }

  /** What set_rects puts into a request, each axis by itself. */
  function Rects(f: Flags, yuv: bool, dstImg: Size, srcImg: Size, dst: Rect, src: Rect, scissor: Rect): Request
    requires Divisible(f, dst, src)
  {
    var clip := Intersect(scissor, dst);
    var dx, dy := DstSpan(clip.l, clip.r, yuv, dstImg.w), DstSpan(clip.t, clip.b, yuv, dstImg.h);
    var mw, mh := src.r - src.l, src.b - src.t;
    if f.rot90 then
      Request(dx, dy,
              SrcSpan(clip.t - dst.t + src.t, clip.b - clip.t, mw, dst.b - dst.t, yuv, f.flipH, srcImg.w),
              SrcSpan(dst.r - clip.r + src.l, clip.r - clip.l, mh, dst.r - dst.l, yuv, f.flipV, srcImg.h))
    else
      Request(dx, dy,
              SrcSpan(clip.l - dst.l + src.l, clip.r - clip.l, mw, dst.r - dst.l, yuv, f.flipH, srcImg.w),
              SrcSpan(clip.t - dst.t + src.t, clip.b - clip.t, mh, dst.b - dst.t, yuv, f.flipV, srcImg.h))
  }

  // -------------------------------------------------------------- containment

  predicate Within(s: Span, size: nat) {
    s.at + s.len <= size
  }

  predicate Inside(x: Span, y: Span, img: Size) {
    Within(x, img.w) && Within(y, img.h)
  }

  predicate EvenSizes(q: Request) {
    q.dstX.len % 2 == 0 && q.dstY.len % 2 == 0 && q.srcX.len % 2 == 0 && q.srcY.len % 2 == 0
  }

  function Full(img: Size): Rect {
    Rect(0, 0, img.w, img.h)
  }

  /** A clip that encloses at least one pixel. */
  predicate NonEmpty(c: Rect) {
    c.l < c.r && c.t < c.b
  }

  predicate Blittable(img: Size) {
    0 < img.w <= MAX_DIMENSION && 0 < img.h <= MAX_DIMENSION
  }

  lemma Larger(k: nat, a: nat, b: nat)
    requires a <= b
    ensures k * a <= k * b
  {
    assert k * b == k * a + k * (b - a);
  }

  lemma Cancel(a: nat, b: nat, div: nat)
    requires 0 < div && a * div <= b * div
    ensures a <= b
  {
    if a > b {
      Larger(div, b + 1, a);
    }
  }

  /** Two floors of shares of a total add up to no more than the floor of the total. */
  lemma FloorsAdd(a: nat, b: nat, div: nat, bound: nat)
    requires 0 < div && a + b <= bound * div
    ensures a / div + b / div <= bound
  {
    var p, q := a / div, b / div;
    assert p * div <= a;
    assert q * div <= b;
    assert (p + q) * div == p * div + q * div;
    Cancel(p + q, bound, div);
  }

  /** Scaling rounds down: within 4096 pixels MULDIV gives the floor of a * mul / div. */
  lemma ScaledFloor(a: nat, mul: nat, div: nat)
    requires a <= 8192 && mul <= 4096 && 0 < div <= 4096
    ensures var r := MulDiv(a, mul, div); r * div <= a * mul < (r + 1) * div
  {
    hide U32;
    U32Small(mul);
    U32Small(div);
    Larger(mul, a, 8192);
    U32Small(mul * a);
    assert mul * a == a * mul;
    var r := MulDiv(a, mul, div);
    if mul != div { assert r == mul * a / div; }
    assert (r + 1) * div == r * div + div;
  }

  /** Scaling a span of the destination to the source never wraps and stays inside. */
  lemma ScaledWithin(x: nat, w: nat, mul: nat, div: nat)
    requires x + w <= div && 0 < div <= 4096 && mul <= 4096
    ensures MulDiv(x, mul, div) + MulDiv(w, mul, div) <= mul
  {
    hide U32;
    U32Small(mul);
    U32Small(div);
    Larger(mul, x, 4096);
    Larger(mul, w, 4096);
    U32Small(mul * x);
    U32Small(mul * w);
    assert mul * x + mul * w == mul * (x + w);
    Larger(mul, x + w, div);
    FloorsAdd(mul * x, mul * w, div, mul);
  }

  lemma EvenBelow(x: nat)
    ensures x - 1 <= Even(x) <= x && Even(x) % 2 == 0
  {
  }

  lemma AlignedWithin(s: Span, size: nat)
    requires Within(s, size) && size <= 4096
    ensures Within(Aligned(s, size), size) && Aligned(s, size).len % 2 == 0
    ensures Aligned(s, size) == Span(Even(s.at), Even(s.len))
  {
    hide U32, Even;
    EvenBelow(s.at);
    EvenBelow(s.len);
    U32Small(Even(s.at) + Even(s.len));
  }

  lemma SrcWithin(off: nat, len: nat, div: nat, yuv: bool, flip: bool, size: nat)
    requires off + len <= div && 0 < div <= 4096 && size <= 4096
    ensures var s := SrcSpan(off, len, size, div, yuv, flip, size);
      Within(s, size) && (yuv ==> s.len % 2 == 0)
  {
    hide MulDiv, U32, Aligned;
    U32Small(off);
    U32Small(len);
    U32Small(div);
    ScaledWithin(off, len, size, div);
    var s := Span(MulDiv(off, size, div), MulDiv(len, size, div));
    AlignedWithin(s, size);
    var t := if yuv then Aligned(s, size) else s;
    U32Small(size - (t.at + t.len));
  }

  lemma DstWithin(lo: nat, hi: nat, yuv: bool, size: nat)
    requires lo <= hi <= size <= 4096
    ensures var s := DstSpan(lo, hi, yuv, size); Within(s, size) && (yuv ==> s.len % 2 == 0)
  {
    hide U32, Aligned;
    U32Small(lo);
    U32Small(hi - lo);
    AlignedWithin(Span(lo, hi - lo), size);
  }

  /** Every full-surface blit with a non-empty clip, scaled, rotated or flipped, reads inside the source
      and writes inside the destination, and YUV sizes are even. */
  lemma BlitInside(f: Flags, yuv: bool, dst: Size, src: Size, scissor: Rect)
    requires Blittable(dst) && Blittable(src) && NonEmpty(Intersect(scissor, Full(dst)))
    ensures Divisible(f, Full(dst), Full(src))
    ensures var q := Rects(f, yuv, dst, src, Full(dst), Full(src), scissor);
      && Inside(q.dstX, q.dstY, dst) && Inside(q.srcX, q.srcY, src)
      && (yuv ==> EvenSizes(q))
  {
    hide SrcSpan, DstSpan, U32;
    U32Small(dst.w);
    U32Small(dst.h);
    var c := Intersect(scissor, Full(dst));
    DstWithin(c.l, c.r, yuv, dst.w);
    DstWithin(c.t, c.b, yuv, dst.h);
    if f.rot90 {
      SrcWithin(c.t, c.b - c.t, dst.h, yuv, f.flipH, src.w);
      SrcWithin(dst.w - c.r, c.r - c.l, dst.w, yuv, f.flipV, src.h);
    } else {
      SrcWithin(c.l, c.r - c.l, dst.w, yuv, f.flipH, src.w);
      SrcWithin(c.t, c.b - c.t, dst.h, yuv, f.flipV, src.h);
    }
  }

  // -------------------------------------------------------------- which pixels

  predicate Covers(s: Span, p: int) {
    s.at <= p < s.at + s.len
  }

  lemma Unscaled(off: nat, len: nat, flip: bool, size: nat)
    requires off + len <= size && 0 < size <= 4096
    ensures U32(size) != 0
    ensures SrcSpan(off, len, size, size, false, flip, size) == Span(if flip then size - (off + len) else off, len)
  {
    U32Small(size);
    U32Small(off);
    U32Small(len);
    U32Small(size - (off + len));
  }

  lemma Exact(lo: nat, hi: nat, size: nat)
    requires lo <= hi <= size <= 4096
    ensures DstSpan(lo, hi, false, size) == Span(lo, hi - lo)
  {
    U32Small(lo);
    U32Small(hi - lo);
  }

  /** The source column of destination pixel (x, y). */
  function SourceX(f: Flags, src: Size, x: int, y: int): int {
    var p := if f.rot90 then y else x;
    if f.flipH then src.w - 1 - p else p
  }

  /** The source row of destination pixel (x, y), in a destination of the given width. */
  function SourceY(f: Flags, src: Size, width: int, x: int, y: int): int {
    var p := if f.rot90 then width - 1 - x else y;
    if f.flipV then src.h - 1 - p else p
  }

  /** Without scaling, the pixels read are exactly the ones the transform takes the written pixels from. */
  lemma UnscaledPixels(f: Flags, dst: Size, src: Size, scissor: Rect, x: nat, y: nat)
    requires Blittable(dst) && src == if f.rot90 then Size(dst.h, dst.w) else dst
    requires NonEmpty(Intersect(scissor, Full(dst))) && x < dst.w && y < dst.h
    ensures U32(dst.w) != 0 && U32(dst.h) != 0
    ensures var q := Rects(f, false, dst, src, Full(dst), Full(src), scissor);
      Covers(q.dstX, x) && Covers(q.dstY, y)
      <==> Covers(q.srcX, SourceX(f, src, x, y)) && Covers(q.srcY, SourceY(f, src, dst.w, x, y))
  {
    hide SrcSpan, DstSpan, U32;
    var c := Intersect(scissor, Full(dst));
    Exact(c.l, c.r, dst.w);
    Exact(c.t, c.b, dst.h);
    U32Small(dst.w);
    U32Small(dst.h);
    if f.rot90 {
      Unscaled(c.t, c.b - c.t, f.flipH, src.w);
      Unscaled(dst.w - c.r, c.r - c.l, f.flipV, src.h);
    } else {
      Unscaled(c.l, c.r - c.l, f.flipH, src.w);
      Unscaled(c.t, c.b - c.t, f.flipV, src.h);
    }
  }

  /** v is the floor of a * mul / div, and with yuv the even number next below it. */
  ghost predicate Floored(v: int, a: int, mul: int, div: int, yuv: bool) {
    if yuv then exists r: int :: r * div <= a * mul < (r + 1) * div && v == r - r % 2
    else v * div <= a * mul < (v + 1) * div
  }

  lemma FlooredSpan(off: nat, len: nat, div: nat, yuv: bool, flip: bool, size: nat)
    requires off + len <= div && 0 < div <= 4096 && size <= 4096
    ensures Divides(size, div)
    ensures var s := SrcSpan(off, len, size, div, yuv, flip, size);
      && Floored(if flip then size - (s.at + s.len) else s.at, off, size, div, yuv)
      && Floored(s.len, len, size, div, yuv)
  {
    hide MulDiv, U32, Aligned;
    U32Small(off);
    U32Small(len);
    U32Small(div);
    ScaledWithin(off, len, size, div);
    ScaledFloor(off, size, div);
    ScaledFloor(len, size, div);
    var s := Span(MulDiv(off, size, div), MulDiv(len, size, div));
    AlignedWithin(s, size);
    var t := if yuv then Aligned(s, size) else s;
    U32Small(size - (t.at + t.len));
  }

  /** What a full-surface blit reads for a clip, at any scale. Along each axis of the source the start and the length
      of the part read are the start and the length of the clip, scaled and rounded down; the source columns go with
      the rows of a rotated destination, and flipped axes count from the far end. */
  lemma ScaledReads(f: Flags, yuv: bool, dst: Size, src: Size, scissor: Rect)
    requires Blittable(dst) && Blittable(src) && NonEmpty(Intersect(scissor, Full(dst)))
    ensures Divisible(f, Full(dst), Full(src))
    ensures var q, c := Rects(f, yuv, dst, src, Full(dst), Full(src), scissor), Intersect(scissor, Full(dst));
      var x := if f.flipH then src.w - (q.srcX.at + q.srcX.len) else q.srcX.at;
      var y := if f.flipV then src.h - (q.srcY.at + q.srcY.len) else q.srcY.at;
      if f.rot90 then
        && Floored(x, c.t, src.w, dst.h, yuv) && Floored(q.srcX.len, c.b - c.t, src.w, dst.h, yuv)
        && Floored(y, dst.w - c.r, src.h, dst.w, yuv) && Floored(q.srcY.len, c.r - c.l, src.h, dst.w, yuv)
      else
        && Floored(x, c.l, src.w, dst.w, yuv) && Floored(q.srcX.len, c.r - c.l, src.w, dst.w, yuv)
        && Floored(y, c.t, src.h, dst.h, yuv) && Floored(q.srcY.len, c.b - c.t, src.h, dst.h, yuv)
  {
    hide SrcSpan, DstSpan, U32, Floored;
    var c := Intersect(scissor, Full(dst));
    U32Small(dst.w);
    U32Small(dst.h);
    if f.rot90 {
      FlooredSpan(c.t, c.b - c.t, dst.h, yuv, f.flipH, src.w);
      FlooredSpan(dst.w - c.r, c.r - c.l, dst.w, yuv, f.flipV, src.h);
    } else {
      FlooredSpan(c.l, c.r - c.l, dst.w, yuv, f.flipH, src.w);
      FlooredSpan(c.t, c.b - c.t, dst.h, yuv, f.flipV, src.h);
    }
  }

  lemma WholeFloor(r: int, size: nat, div: nat)
    requires 0 < div && r * div <= div * size < (r + 1) * div
    ensures r == size
  {
    assert div * size == size * div && (size + 1) * div == size * div + div;
    if r < size { LargerInt(div, r + 1, size); }
    if r > size { LargerInt(div, size + 1, r); }
  }

  lemma WholeAxis(v: int, size: nat, div: nat, yuv: bool)
    requires 0 < div && Floored(v, div, size, div, yuv)
    ensures v == if yuv then size - size % 2 else size
  {
    if yuv {
      var r: int :| r * div <= div * size < (r + 1) * div && v == r - r % 2;
      WholeFloor(r, size, div);
    } else {
      WholeFloor(v, size, div);
    }
  }

  lemma LargerInt(k: nat, a: int, b: int)
    requires a <= b
    ensures a * k <= b * k
  {
    assert b * k == a * k + (b - a) * k;
  }

  /** A blit whose clip is the whole destination reads the whole source and writes the whole destination, at any
      scale; for YUV the last odd row and column are left out. */
  lemma WholeSurface(f: Flags, yuv: bool, dst: Size, src: Size, scissor: Rect)
    requires Blittable(dst) && Blittable(src) && Intersect(scissor, Full(dst)) == Full(dst)
    ensures Divisible(f, Full(dst), Full(src))
    ensures var q := Rects(f, yuv, dst, src, Full(dst), Full(src), scissor);
      && q.srcX.len == (if yuv then src.w - src.w % 2 else src.w)
      && q.srcY.len == (if yuv then src.h - src.h % 2 else src.h)
      && q.dstX == Span(0, if yuv then dst.w - dst.w % 2 else dst.w)
      && q.dstY == Span(0, if yuv then dst.h - dst.h % 2 else dst.h)
  {
    hide SrcSpan, U32, Floored;
    ScaledReads(f, yuv, dst, src, scissor);
    var q := Rects(f, yuv, dst, src, Full(dst), Full(src), scissor);
    WholeAxis(q.srcX.len, src.w, if f.rot90 then dst.h else dst.w, yuv);
    WholeAxis(q.srcY.len, src.h, if f.rot90 then dst.w else dst.h, yuv);
    DstExact(0, dst.w, yuv, dst.w);
    DstExact(0, dst.h, yuv, dst.h);
  }

  lemma DstExact(lo: nat, hi: nat, yuv: bool, size: nat)
    requires lo <= hi <= size <= 4096
    ensures DstSpan(lo, hi, yuv, size) ==
      if yuv then Span(Even(lo), Even(hi - lo)) else Span(lo, hi - lo)
  {
    hide U32, Aligned;
    U32Small(lo);
    U32Small(hi - lo);
    AlignedWithin(Span(lo, hi - lo), size);
  }

  // ------------------------------------------------------------ parts of surfaces

  /** A rectangle with at least a pixel, inside an image. */
  predicate Part(r: Rect, img: Size) {
    0 <= r.l < r.r <= img.w && 0 <= r.t < r.b <= img.h
  }

  /** Along one axis: start and length are scaled and rounded down, and a flipped axis counts from the far end. */
  ghost predicate ReadAs(s: Span, off: int, len: int, mul: int, div: int, flip: bool, size: int) {
    && Floored(s.len, len, mul, div, false)
    && exists v :: Floored(v, off, mul, div, false) && s.at == if flip then U32(size - (v + s.len)) else v
  }

  lemma ReadSpan(off: nat, len: nat, mul: nat, div: nat, flip: bool, size: nat)
    requires off <= 8192 && len <= 4096 && mul <= 4096 && 0 < div <= 4096
    ensures Divides(mul, div) && ReadAs(SrcSpan(off, len, mul, div, false, flip, size), off, len, mul, div, flip, size)
  {
    hide MulDiv, U32;
    U32Small(off);
    U32Small(len);
    U32Small(div);
    ScaledFloor(off, mul, div);
    ScaledFloor(len, mul, div);
    assert Floored(MulDiv(off, mul, div), off, mul, div, false);
  }

  /** What a stretch reads for a clip, for any part of the source and of the destination: the offset of the clip in the
      destination is added to the origin of the source part before it is scaled, and a rotated blit takes the origin
      of the other axis. */
  lemma StretchReads(f: Flags, dstImg: Size, srcImg: Size, dst: Rect, src: Rect, scissor: Rect)
    requires Blittable(dstImg) && Blittable(srcImg) && Part(dst, dstImg) && Part(src, srcImg)
    requires NonEmpty(Intersect(scissor, dst))
    ensures Divisible(f, dst, src)
    ensures var q, c := Rects(f, false, dstImg, srcImg, dst, src, scissor), Intersect(scissor, dst);
      var w, h, sw, sh := dst.r - dst.l, dst.b - dst.t, src.r - src.l, src.b - src.t;
      && q.dstX == Span(c.l, c.r - c.l) && q.dstY == Span(c.t, c.b - c.t)
      && if f.rot90 then
        && ReadAs(q.srcX, src.t + (c.t - dst.t), c.b - c.t, sw, h, f.flipH, srcImg.w)
        && ReadAs(q.srcY, src.l + (dst.r - c.r), c.r - c.l, sh, w, f.flipV, srcImg.h)
      else
        && ReadAs(q.srcX, src.l + (c.l - dst.l), c.r - c.l, sw, w, f.flipH, srcImg.w)
        && ReadAs(q.srcY, src.t + (c.t - dst.t), c.b - c.t, sh, h, f.flipV, srcImg.h)
  {
    hide SrcSpan, DstSpan, U32, ReadAs;
    var c := Intersect(scissor, dst);
    U32Small(dst.r - dst.l);
    U32Small(dst.b - dst.t);
    DstExact(c.l, c.r, false, dstImg.w);
    DstExact(c.t, c.b, false, dstImg.h);
    if f.rot90 {
      ReadSpan(src.t + (c.t - dst.t), c.b - c.t, src.r - src.l, dst.b - dst.t, f.flipH, srcImg.w);
      ReadSpan(src.l + (dst.r - c.r), c.r - c.l, src.b - src.t, dst.r - dst.l, f.flipV, srcImg.h);
    } else {
      ReadSpan(src.l + (c.l - dst.l), c.r - c.l, src.r - src.l, dst.r - dst.l, f.flipH, srcImg.w);
      ReadSpan(src.t + (c.t - dst.t), c.b - c.t, src.b - src.t, dst.b - dst.t, f.flipV, srcImg.h);
    }
  }

  /** A number is the floor of its own scaled value if and only if scaling moves it by less than a pixel, upwards. */
  lemma OwnFloor(v: int, l: int, mul: int, div: int)
    requires 0 < div && Floored(v, l, mul, div, false)
    ensures v == l <==> 0 <= l * (mul - div) < div
  {
    assert l * (mul - div) == l * mul - l * div && (v + 1) * div == v * div + div && (l + 1) * div == l * div + div;
    if v < l { LargerInt(div, v + 1, l); }
    if v > l { LargerInt(div, l + 1, v); }
  }

  /** A stretch onto the whole of its destination part, without rotation and flips, reads as much of the source as it
      was asked for, and in the right place if and only if scaling does not move the origin. */
  lemma PartReadIff(f: Flags, dstImg: Size, srcImg: Size, dst: Rect, src: Rect, scissor: Rect)
    requires Blittable(dstImg) && Blittable(srcImg) && Part(dst, dstImg) && Part(src, srcImg)
    requires Intersect(scissor, dst) == dst && !f.flipH && !f.flipV && !f.rot90
    ensures Divisible(f, dst, src)
    ensures var q := Rects(f, false, dstImg, srcImg, dst, src, scissor);
      var w, h, sw, sh := dst.r - dst.l, dst.b - dst.t, src.r - src.l, src.b - src.t;
      && q.srcX.len == sw && q.srcY.len == sh
      && (q.srcX.at == src.l <==> 0 <= src.l * (sw - w) < w)
      && (q.srcY.at == src.t <==> 0 <= src.t * (sh - h) < h)
  {
    hide Rects, Floored, U32;
    StretchReads(f, dstImg, srcImg, dst, src, scissor);
    var q := Rects(f, false, dstImg, srcImg, dst, src, scissor);
    WholeAxis(q.srcX.len, src.r - src.l, dst.r - dst.l, false);
    WholeAxis(q.srcY.len, src.b - src.t, dst.b - dst.t, false);
    OwnFloor(q.srcX.at, src.l, src.r - src.l, dst.r - dst.l);
    OwnFloor(q.srcY.at, src.t, src.b - src.t, dst.b - dst.t);
  }

  /** The axes of a rotated stretch take each other's origin: without scaling and flips the part read is the part asked
      for if and only if that part starts as far down as it starts to the right. */
  lemma RotatedPartIff(dstImg: Size, srcImg: Size, dst: Rect, src: Rect, scissor: Rect)
    requires Blittable(dstImg) && Blittable(srcImg) && Part(dst, dstImg) && Part(src, srcImg)
    requires Intersect(scissor, dst) == dst && src.r - src.l == dst.b - dst.t && src.b - src.t == dst.r - dst.l
    ensures Divisible(Flags(true, false, false), dst, src)
    ensures var q := Rects(Flags(true, false, false), false, dstImg, srcImg, dst, src, scissor);
      q.srcX == Span(src.l, src.r - src.l) && q.srcY == Span(src.t, src.b - src.t) <==> src.l == src.t
  {
    hide Rects, Floored, U32;
    var f := Flags(true, false, false);
    StretchReads(f, dstImg, srcImg, dst, src, scissor);
    var q := Rects(f, false, dstImg, srcImg, dst, src, scissor);
    WholeAxis(q.srcX.len, src.r - src.l, dst.b - dst.t, false);
    WholeAxis(q.srcY.len, src.b - src.t, dst.r - dst.l, false);
    OwnFloor(q.srcX.at, src.t, src.r - src.l, dst.b - dst.t);
    OwnFloor(q.srcY.at, src.l, src.b - src.t, dst.r - dst.l);
  }

  /** Flipping moves an aligned span to an odd start if and only if the image has an odd size. */
  lemma FlippedStart(off: nat, len: nat, div: nat, size: nat)
    requires off + len <= div && 0 < div <= 4096 && size <= 4096
    ensures U32(div) != 0
    ensures SrcSpan(off, len, size, div, true, true, size).at % 2 == size % 2
  {
    hide MulDiv, U32, Aligned;
    U32Small(off);
    U32Small(len);
    U32Small(div);
    ScaledWithin(off, len, size, div);
    var s := Span(MulDiv(off, size, div), MulDiv(len, size, div));
    AlignedWithin(s, size);
    U32Small(size - (Even(s.at) + Even(s.len)));
  }

  // ------------------------------------------------------------- empty clips

  /** Where the aligned span of an inverted clip ends, before it wraps. */
  function WrappedEnd(lo: int, hi: int): int {
    hi - lo % 2 - (hi - lo) % 2
  }

  /** A written axis is inside the destination if and only if the clip is not inverted along it, or the
      YUV clamp happens to cut it back. */
  lemma DstWithinIff(lo: int, hi: int, yuv: bool, size: nat)
    requires 0 <= lo < 0x8000_0000 && -0x8000_0000 <= hi <= size <= 4096 && lo != hi
    ensures Within(DstSpan(lo, hi, yuv, size), size)
            <==> (lo < hi || (yuv && WrappedEnd(lo, hi) < 0 && Even(lo) <= size))
  {
    hide U32;
    U32Small(lo);
    if lo < hi {
      DstWithin(lo, hi, yuv, size);
    } else {
      U32Negative(hi - lo);
      if yuv { InvertedAligned(lo, hi, size); }
    }
  }

  lemma InvertedAligned(lo: int, hi: int, size: nat)
    requires 0 <= lo < 0x8000_0000 && -0x8000_0000 <= hi <= size <= 4096 && hi < lo
    ensures Within(Aligned(Span(lo, 0x1_0000_0000 + hi - lo), size), size)
            <==> (WrappedEnd(lo, hi) < 0 && Even(lo) <= size)
  {
    hide U32;
    var at, len, end := Even(lo), Even(0x1_0000_0000 + hi - lo), WrappedEnd(lo, hi);
    assert at + len == 0x1_0000_0000 + end;
    if end < 0 {
      U32Small(at + len);
      if at <= size { U32Small(size - at); } else { U32Negative(size - at); }
    } else {
      assert U32(0x1_0000_0000 + end) == U32(end) by { U32Period(end); }
      U32Small(end);
    }
  }

  /** The test for empty rectangles lets inverted clips through: a region rectangle to the right of the
      destination is sent to the driver with a width of almost 2^32. */
  lemma OutsideClipSent()
    ensures var q := Rects(Flags(false, false, false), false, Size(320, 480), Size(320, 480),
                           Full(Size(320, 480)), Full(Size(320, 480)), Rect(330, 0, 340, 10));
      q.dstX.len != 0 && q.dstY.len != 0 && q.srcX.len != 0 && q.srcY.len != 0
      && !Inside(q.dstX, q.dstY, Size(320, 480))
  {
  }

  /** For RGB sources a request that is sent writes inside the destination if and only if its clip is not empty. */
  lemma SentInsideIff(f: Flags, dst: Size, src: Size, dstRect: Rect, srcRect: Rect, scissor: Rect)
    requires dst.w <= 4096 && dst.h <= 4096 && Divisible(f, dstRect, srcRect)
    requires var c := Intersect(scissor, dstRect);
      0 <= c.l < 0x8000_0000 && 0 <= c.t < 0x8000_0000 && -0x8000_0000 <= c.r <= dst.w && -0x8000_0000 <= c.b <= dst.h
    requires var q := Rects(f, false, dst, src, dstRect, srcRect, scissor); q.dstX.len != 0 && q.dstY.len != 0
    ensures var q := Rects(f, false, dst, src, dstRect, srcRect, scissor);
      Inside(q.dstX, q.dstY, dst) <==> NonEmpty(Intersect(scissor, dstRect))
  {
    var c := Intersect(scissor, dstRect);
    assert c.l != c.r && c.t != c.b;
    hide SrcSpan, DstSpan;
    DstWithinIff(c.l, c.r, false, dst.w);
    DstWithinIff(c.t, c.b, false, dst.h);
  }
}
