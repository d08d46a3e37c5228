/** What alloc and dealloc guarantee about a well-formed heap. */
module HeapLaws {
  import opened HeapModel

  // ------------------------------------------------------- cutting and joining

  /** No two free blocks meet where a is followed by b. */
  ghost predicate Seam(a: seq<Block>, b: seq<Block>) {
    a == [] || b == [] || !a[|a| - 1].free || !b[0].free
  }

  lemma Join(a: seq<Block>, b: seq<Block>, from: nat, mid: nat, to: nat)
    requires Stretch(a, from, mid) && Stretch(b, mid, to) && Seam(a, b)
    ensures Stretch(a + b, from, to)
  {
  }

  /** Block k and the stretches on either side of it. */
  lemma Cut(bs: seq<Block>, from: nat, to: nat, k: nat)
    requires Stretch(bs, from, to) && k < |bs|
    ensures Stretch(bs[..k], from, bs[k].start)
    ensures Stretch([bs[k]], bs[k].start, End(bs[k]))
    ensures Stretch(bs[k + 1..], End(bs[k]), to)
    ensures Seam(bs[..k], [bs[k]]) && Seam([bs[k]], bs[k + 1..])
  {
    assert k > 0 ==> End(bs[k - 1]) == bs[k].start;
    assert k + 1 < |bs| ==> End(bs[k]) == bs[k + 1].start;
  }

  lemma JoinUnits(a: seq<Block>, b: seq<Block>, u: nat)
    ensures FreeUnit(a + b, u) <==> FreeUnit(a, u) || FreeUnit(b, u)
  {
    if i :| 0 <= i < |a| && a[i].free && Holds(a[i], u) {
      assert (a + b)[i] == a[i];
    }
    if j :| 0 <= j < |b| && b[j].free && Holds(b[j], u) {
      assert (a + b)[|a| + j] == b[j];
    }
  }

  lemma Rejoin(bs: seq<Block>, k: nat)
    requires k < |bs|
    ensures bs[..k] + [bs[k]] + bs[k + 1..] == bs
  {
  }

  lemma RangeAround(bs: seq<Block>, lo: nat, i: nat, hi: nat)
    requires lo <= i < hi <= |bs|
    ensures bs[lo..hi] == bs[lo..i] + [bs[i]] + bs[i + 1..hi]
  {
  }

  lemma {:induction false} Ordered(bs: seq<Block>, from: nat, to: nat, i: nat, j: nat)
    requires Stretch(bs, from, to) && i < j < |bs|
    ensures End(bs[i]) <= bs[j].start
    decreases j - i
  {
    if i + 1 < j {
      Ordered(bs, from, to, i, j - 1);
      assert End(bs[j - 1]) == bs[j].start;
    }
  }

  /** Units of a stretch lie inside it. */
  lemma Inside(bs: seq<Block>, from: nat, to: nat, i: nat)
    requires Stretch(bs, from, to) && i < |bs|
    ensures from <= bs[i].start && End(bs[i]) <= to
  {
    if i > 0 { Ordered(bs, from, to, 0, i); }
    if i < |bs| - 1 { Ordered(bs, from, to, i, |bs| - 1); }
  }

  lemma UnitsInside(bs: seq<Block>, from: nat, to: nat, u: nat)
    requires Stretch(bs, from, to) && FreeUnit(bs, u)
    ensures from <= u < to
  {
    var i :| 0 <= i < |bs| && bs[i].free && Holds(bs[i], u);
    Inside(bs, from, to, i);
  }

  // ------------------------------------------------------------- completeness

  /** A free run never straddles two blocks of a well-formed heap. */
  lemma {:induction false} RunInOneBlock(bs: seq<Block>, from: nat, to: nat, s: nat, n: nat, i: nat)
    requires Stretch(bs, from, to) && 0 < n && (forall u: nat :: s <= u < s + n ==> FreeUnit(bs, u))
    requires i < |bs| && bs[i].free && Holds(bs[i], s)
    ensures s + n <= End(bs[i])
  {
    if n > 1 {
      RunInOneBlock(bs, from, to, s, n - 1, i);
      assert FreeUnit(bs, s + n - 1);
      var j :| 0 <= j < |bs| && bs[j].free && Holds(bs[j], s + n - 1);
      SameBlock(bs, from, to, i, j, s + n - 2);
    }
  }

  /** Adjacent units in free blocks are in the same free block. */
  lemma SameBlock(bs: seq<Block>, from: nat, to: nat, i: nat, j: nat, u: nat)
    requires Stretch(bs, from, to) && i < |bs| && j < |bs| && bs[i].free && bs[j].free
    requires Holds(bs[i], u) && Holds(bs[j], u + 1)
    ensures i == j
  {
    if i < j {
      Ordered(bs, from, to, i, j);
      if i + 1 < j {
        Ordered(bs, from, to, i + 1, j);
      }
    } else if j < i {
      Ordered(bs, from, to, j, i);
    }
  }

  /** Allocation fails exactly when the bitmap has no page-aligned free run of that many units. */
  lemma AllocComplete(bs: seq<Block>, total: nat, need: nat)
    requires WellFormed(bs, total) && need > 0
    ensures BestHost(bs, need) >= 0 <==> exists s :: FreeRun(bs, s, need)
  {
    if BestHost(bs, need) >= 0 {
      var k := BestHost(bs, need);
      var s := Carved(bs[k], need).start;
      ExtraAligns(bs[k].start);
      forall u: nat | s <= u < s + need
        ensures FreeUnit(bs, u)
      {
        assert Holds(bs[k], u);
      }
      assert FreeRun(bs, s, need);
    }
    if s :| FreeRun(bs, s, need) {
      assert FreeUnit(bs, s);
      var i :| 0 <= i < |bs| && bs[i].free && Holds(bs[i], s);
      RunInOneBlock(bs, 0, total, s, need, i);
      ExtraAligns(bs[i].start);
      assert Fits(bs[i], need);
    }
  }

  // ------------------------------------------------------- effect of alloc

  function Carving(b: Block, need: nat): seq<Block>
    requires Fits(b, need)
  {
    Head(b, need) + [Carved(b, need)] + Tail(b, need)
  }

  lemma CarvingStretch(b: Block, need: nat)
    requires Fits(b, need) && need > 0
    ensures Stretch(Carving(b, need), b.start, End(b))
  {
    ExtraAligns(b.start);
  }

  lemma PlaceSplice(bs: seq<Block>, k: nat, need: nat)
    requires k < |bs| && Fits(bs[k], need)
    ensures Place(bs, k, need) == bs[..k] + Carving(bs[k], need) + bs[k + 1..]
    ensures PlacedAt(bs, k, need) < |Place(bs, k, need)|
    ensures Place(bs, k, need)[PlacedAt(bs, k, need)] == Carved(bs[k], need)
  {
  }

  lemma PlaceWellFormed(bs: seq<Block>, total: nat, k: nat, need: nat)
    requires WellFormed(bs, total) && k < |bs| && Fits(bs[k], need) && need > 0
    ensures WellFormed(Place(bs, k, need), total)
  {
    Cut(bs, 0, total, k);
    CarvingStretch(bs[k], need);
    PlaceSplice(bs, k, need);
    Join(bs[..k], Carving(bs[k], need), 0, bs[k].start, End(bs[k]));
    Join(bs[..k] + Carving(bs[k], need), bs[k + 1..], 0, End(bs[k]), total);
  }

  /** Alloc takes exactly the carved units out of the bitmap, and they were all free. */
  lemma PlaceBitmap(bs: seq<Block>, total: nat, k: nat, need: nat, u: nat)
    requires WellFormed(bs, total) && k < |bs| && Fits(bs[k], need)
    ensures FreeUnit(Place(bs, k, need), u) <==> FreeUnit(bs, u) && !Holds(Carved(bs[k], need), u)
    ensures Holds(Carved(bs[k], need), u) ==> FreeUnit(bs, u)
  {
    var mid := Carving(bs[k], need);
    PlaceSplice(bs, k, need);
    SpliceUnits(bs, total, k, k + 1, mid, u);
    assert FreeUnit(mid, u) <==> Holds(bs[k], u) && !Holds(Carved(bs[k], need), u) by {
      CarvingUnits(bs[k], need, u);
    }
    OneUnit(bs[k], u);
    assert bs[k..k + 1] == [bs[k]];
    Cut(bs, 0, total, k);
    if FreeUnit(bs[..k], u) { UnitsInside(bs[..k], 0, bs[k].start, u); }
    if FreeUnit(bs[k + 1..], u) { UnitsInside(bs[k + 1..], End(bs[k]), total, u); }
  }

  lemma OneUnit(b: Block, u: nat)
    ensures FreeUnit([b], u) <==> b.free && Holds(b, u)
  {
    assert [b][0] == b;
  }

  lemma CarvingUnits(b: Block, need: nat, u: nat)
    requires Fits(b, need)
    ensures FreeUnit(Carving(b, need), u) <==> Holds(b, u) && !Holds(Carved(b, need), u)
  {
    JoinUnits(Head(b, need) + [Carved(b, need)], Tail(b, need), u);
    JoinUnits(Head(b, need), [Carved(b, need)], u);
    OneUnit(Carved(b, need), u);
    if Head(b, need) != [] { OneUnit(Head(b, need)[0], u); }
    if Tail(b, need) != [] { OneUnit(Tail(b, need)[0], u); }
  }

  /** Replacing blocks lo to hi - 1 changes the bitmap only where they differ. */
  lemma SpliceUnits(bs: seq<Block>, total: nat, lo: nat, hi: nat, mid: seq<Block>, u: nat)
    requires WellFormed(bs, total) && lo <= hi <= |bs|
    ensures FreeUnit(bs, u) <==> FreeUnit(bs[..lo], u) || FreeUnit(bs[lo..hi], u) || FreeUnit(bs[hi..], u)
    ensures FreeUnit(bs[..lo] + mid + bs[hi..], u) <==>
      FreeUnit(bs[..lo], u) || FreeUnit(mid, u) || FreeUnit(bs[hi..], u)
  {
    JoinUnits(bs[..lo] + mid, bs[hi..], u);
    JoinUnits(bs[..lo], mid, u);
    assert bs == bs[..lo] + bs[lo..hi] + bs[hi..];
    JoinUnits(bs[..lo] + bs[lo..hi], bs[hi..], u);
    JoinUnits(bs[..lo], bs[lo..hi], u);
  }

  // ----------------------------------------------------- effect of dealloc

  /** On a well-formed heap the merging loop of dealloc fuses the freed block with its free neighbours. */
  lemma ReleaseIsCoalesced(bs: seq<Block>, total: nat, i: nat)
    requires WellFormed(bs, total) && i < |bs| && !bs[i].free
    ensures Release(bs, i) == Coalesced(bs, i)
  {
    assert i + 2 < |bs| && bs[i + 1].free ==> !bs[i + 2].free;
    if i > 0 && bs[i - 1].free {
      ReleaseBelow(bs, i);
    } else {
      ReleaseAlone(bs, i);
    }
  }

  lemma ReleaseBelow(bs: seq<Block>, i: nat)
    requires 0 < i < |bs| && bs[i - 1].free
    requires i + 2 < |bs| && bs[i + 1].free ==> !bs[i + 2].free
    ensures Release(bs, i) == Coalesced(bs, i)
  {
    var freed := bs[i := bs[i].(free := true)];
    var next := MergeDown(freed, i);
    assert MergesDown(freed, i);
    MergeDownParts(freed, i);
    assert freed[..i - 1] == bs[..i - 1] && freed[i + 1..] == bs[i + 1..];
    assert i < |next| ==> next[i..][0] == bs[i + 1..][0];
    if i < |next| && next[i].free {
      assert i + 1 < |next| ==> next[i..][1] == bs[i + 1..][1];
      MergeAbove(next, i);
      assert next[i + 1..] == next[i..][1..] == bs[i + 1..][1..] == bs[i + 2..];
    }
  }

  lemma ReleaseAlone(bs: seq<Block>, i: nat)
    requires i < |bs| && (i > 0 ==> !bs[i - 1].free) && bs[i].size > 0
    requires i + 2 < |bs| && bs[i + 1].free ==> !bs[i + 2].free
    ensures Release(bs, i) == Coalesced(bs, i)
  {
    var freed := bs[i := bs[i].(free := true)];
    if i + 1 < |bs| && bs[i + 1].free {
      MergeAbove(freed, i + 1);
      assert freed[..i] == bs[..i] && freed[i + 2..] == bs[i + 2..];
    } else {
      assert freed == bs[..i] + [freed[i]] + bs[i + 1..];
    }
  }

  lemma MergeDownParts(bs: seq<Block>, i: nat)
    requires 0 < i < |bs|
    ensures var m := MergeDown(bs, i);
      && |m| == |bs| - 1 && m[..i - 1] == bs[..i - 1] && m[i..] == bs[i + 1..]
      && m[i - 1] == bs[i - 1].(size := bs[i - 1].size + bs[i].size)
  {
  }

  /** The loop stops after one merge when the block above is not free. */
  lemma MergeAbove(bs: seq<Block>, i: nat)
    requires 0 < i < |bs| && bs[i - 1].free
    requires i + 1 < |bs| ==> !bs[i + 1].free
    ensures MergeFrom(bs, i) == MergeDown(bs, i)
  {
    assert i + 1 < |bs| ==> MergeDown(bs, i)[i] == bs[i + 1];
  }

  /** Blocks lo to hi - 1 may be replaced by one free block when no free block touches them. */
  lemma OneFree(f: Block)
    requires f.free && f.size > 0
    ensures Stretch([f], f.start, End(f))
  {
  }

  lemma FuseRange(bs: seq<Block>, total: nat, lo: nat, hi: nat, f: Block)
    requires WellFormed(bs, total) && lo < hi <= |bs|
    requires f.free && f.start == bs[lo].start && End(f) == End(bs[hi - 1]) && f.size > 0
    requires lo > 0 ==> !bs[lo - 1].free
    requires hi < |bs| ==> !bs[hi].free
    ensures WellFormed(bs[..lo] + [f] + bs[hi..], total)
  {
    hide Stretch;
    Cut(bs, 0, total, lo);
    Cut(bs, 0, total, hi - 1);
    OneFree(f);
    Join(bs[..lo], [f], 0, f.start, End(f));
    Join(bs[..lo] + [f], bs[hi..], 0, End(f), total);
  }

  lemma CoalescedWellFormed(bs: seq<Block>, total: nat, i: nat)
    requires WellFormed(bs, total) && i < |bs| && !bs[i].free
    ensures WellFormed(Coalesced(bs, i), total)
  {
    Neighbours(bs, total, i);
    FuseRange(bs, total, Low(bs, i), High(bs, i), Fused(bs, i));
  }

  lemma Neighbours(bs: seq<Block>, total: nat, i: nat)
    requires WellFormed(bs, total) && i < |bs| && !bs[i].free
    ensures var lo, hi, f := Low(bs, i), High(bs, i), Fused(bs, i);
      && f.start == bs[lo].start && End(f) == End(bs[hi - 1]) && f.size > 0
      && (lo > 0 ==> !bs[lo - 1].free) && (hi < |bs| ==> !bs[hi].free)
  {
    assert i > 0 ==> End(bs[i - 1]) == bs[i].start;
    assert i + 1 < |bs| ==> End(bs[i]) == bs[i + 1].start;
  }

  lemma ReleaseWellFormed(bs: seq<Block>, total: nat, i: nat)
    requires WellFormed(bs, total) && i < |bs| && !bs[i].free
    ensures WellFormed(Release(bs, i), total)
  {
    ReleaseIsCoalesced(bs, total, i);
    CoalescedWellFormed(bs, total, i);
  }

  /** Dealloc returns exactly the units of the freed block to the bitmap. */
  lemma ReleaseBitmap(bs: seq<Block>, total: nat, i: nat, u: nat)
    requires WellFormed(bs, total) && i < |bs| && !bs[i].free
    ensures FreeUnit(Release(bs, i), u) <==> FreeUnit(bs, u) || Holds(bs[i], u)
  {
    ReleaseIsCoalesced(bs, total, i);
    SpliceUnits(bs, total, Low(bs, i), High(bs, i), [Fused(bs, i)], u);
    OneUnit(Fused(bs, i), u);
    FusedUnits(bs, total, i, u);
  }

  lemma FusedUnits(bs: seq<Block>, total: nat, i: nat, u: nat)
    requires WellFormed(bs, total) && i < |bs| && !bs[i].free
    ensures Holds(Fused(bs, i), u) <==> FreeUnit(bs[Low(bs, i)..High(bs, i)], u) || Holds(bs[i], u)
  {
    var lo, hi := Low(bs, i), High(bs, i);
    var below, above := bs[lo..i], bs[i + 1..hi];
    RangeAround(bs, lo, i, hi);
    JoinUnits(below + [bs[i]], above, u);
    JoinUnits(below, [bs[i]], u);
    OneUnit(bs[i], u);
    Neighbours(bs, total, i);
    if below == [bs[lo]] { OneUnit(bs[lo], u); }
    if above == [bs[hi - 1]] { OneUnit(bs[hi - 1], u); }
    assert i > lo ==> End(bs[i - 1]) == bs[i].start;
    assert i + 1 < hi ==> End(bs[i]) == bs[i + 1].start;
  }

  /** Freeing the block just handed out restores the very same chunk list. */
  lemma AllocFreeRoundTrip(bs: seq<Block>, total: nat, k: nat, need: nat)
    requires WellFormed(bs, total) && k < |bs| && Fits(bs[k], need) && need > 0
    ensures PlacedAt(bs, k, need) < |Place(bs, k, need)|
    ensures Release(Place(bs, k, need), PlacedAt(bs, k, need)) == bs
  {
    var p, j := Place(bs, k, need), PlacedAt(bs, k, need);
    PlaceSplice(bs, k, need);
    PlaceWellFormed(bs, total, k, need);
    ReleaseIsCoalesced(p, total, j);
    assert k > 0 ==> !bs[k - 1].free;
    assert k + 1 < |bs| ==> !bs[k + 1].free;
    Refuse(bs, k, need);
  }

  lemma MergeOnce(bs: seq<Block>, i: nat)
    requires i < |bs|
    ensures MergeFrom(bs, i) ==
      if MergesDown(bs, i) then
        var next := MergeDown(bs, i);
        if i < |next| && next[i].free then MergeFrom(next, i) else next
      else if i + 1 < |bs| && bs[i + 1].free then MergeFrom(bs, i + 1)
      else bs
  {
  }

  lemma MergeJoin(pre: seq<Block>, x: Block, y: Block, post: seq<Block>)
    ensures |pre| + 1 < |pre + [x] + [y] + post|
    ensures MergeDown(pre + [x] + [y] + post, |pre| + 1) == pre + [x.(size := x.size + y.size)] + post
  {
    var q := pre + [x] + [y] + post;
    assert q[..|pre|] == pre && q[|pre| + 2..] == post && q[|pre|] == x && q[|pre| + 1] == y;
  }

  /** One turn of the loop at y, above x, that merges them. */
  lemma MergeTurn(pre: seq<Block>, x: Block, y: Block, post: seq<Block>)
    requires x.free || y.size == 0
    ensures |pre| + 1 < |pre + [x] + [y] + post|
    ensures var next := pre + [x.(size := x.size + y.size)] + post;
      MergeFrom(pre + [x] + [y] + post, |pre| + 1) ==
      if post != [] && post[0].free then MergeFrom(next, |pre| + 1) else next
  {
    hide MergeFrom, MergeDown;
    MergeJoin(pre, x, y, post);
    MergeOnce(pre + [x] + [y] + post, |pre| + 1);
    var next := pre + [x.(size := x.size + y.size)] + post;
    if post != [] { assert next[|pre| + 1] == post[0]; }
  }

  /** A block of no units above a used one goes into it, and the loop stops at the free block above. */
  lemma ZeroAboveUsed(pre: seq<Block>, u: Block, zero: Block, b: Block, post: seq<Block>)
    requires !u.free && zero.size == 0 && b.free && b.size > 0 && (post != [] ==> !post[0].free)
    ensures MergeFrom(pre + [u] + [zero] + ([b] + post), |pre| + 1) == pre + [u] + ([b] + post)
  {
    hide MergeFrom, MergeDown, MergesDown;
    var later := [b] + post;
    assert later != [] && later[0] == b;
    assert u.(size := u.size + zero.size) == u;
    MergeTurn(pre, u, zero, later);
    MergeStops(pre, u, b, post);
  }

  lemma MergeStops(pre: seq<Block>, u: Block, b: Block, post: seq<Block>)
    requires !u.free && b.size > 0 && (post != [] ==> !post[0].free)
    ensures MergeFrom(pre + [u] + ([b] + post), |pre| + 1) == pre + [u] + ([b] + post)
  {
    hide MergeFrom, MergeDown;
    var bs := pre + [u] + ([b] + post);
    assert bs[|pre|] == u && bs[|pre| + 1] == b;
    assert |pre| + 2 < |bs| ==> bs[|pre| + 2] == post[0];
    MergeOnce(bs, |pre| + 1);
  }

  /** At the start of the heap the block above goes into it. */
  lemma ZeroAtStart(zero: Block, b: Block, post: seq<Block>)
    requires zero.free && zero.size == 0 && zero.start == b.start && b.free && (post != [] ==> !post[0].free)
    ensures MergeFrom([zero] + ([b] + post), 0) == [b] + post
  {
    hide MergeFrom, MergeDown;
    assert [zero] + ([b] + post) == [] + [zero] + [b] + post;
    MergeOnce([zero] + ([b] + post), 0);
    MergeTurn([], zero, b, post);
    assert [] + [b] + post == [b] + post;
  }

  /** Above a free head it goes into that, and so does the tail. */
  lemma HeadAndTail(pre: seq<Block>, head: Block, zero: Block, t: Block, post: seq<Block>)
    requires head.free && zero.size == 0 && t.free && (post != [] ==> !post[0].free)
    ensures MergeFrom(pre + [head] + [zero] + ([t] + post), |pre| + 1) ==
      pre + [head.(size := head.size + t.size)] + post
  {
    hide MergeFrom, MergeDown, MergesDown;
    HeadTakesZero(pre, head, zero, t, post);
    MergeTurn(pre, head, t, post);
  }

  lemma HeadTakesZero(pre: seq<Block>, head: Block, zero: Block, t: Block, post: seq<Block>)
    requires head.free && zero.size == 0 && t.free
    ensures MergeFrom(pre + [head] + [zero] + ([t] + post), |pre| + 1) ==
      MergeFrom(pre + [head] + [t] + post, |pre| + 1)
  {
    hide MergeFrom, MergeDown, MergesDown;
    var later := [t] + post;
    assert later != [] && later[0] == t;
    assert head.(size := head.size + zero.size) == head;
    MergeTurn(pre, head, zero, later);
    Regroup(pre + [head], t, post);
  }

  lemma Regroup(pre: seq<Block>, t: Block, post: seq<Block>)
    ensures pre + ([t] + post) == pre + [t] + post
  {
  }

  /** Freeing a block of no units, which a size that wraps is given, restores the list too: it goes into the block
      below even if that is used, and at the start of the heap the block above goes into it. */
  lemma ZeroRoundTrip(bs: seq<Block>, total: nat, k: nat)
    requires WellFormed(bs, total) && k < |bs| && Fits(bs[k], 0)
    ensures PlacedAt(bs, k, 0) < |Place(bs, k, 0)|
    ensures Release(Place(bs, k, 0), PlacedAt(bs, k, 0)) == bs
  {
    hide WellFormed, MergeFrom, Place, PlacedAt, Extra, Head, Tail, Fits;
    var b, pre, post := bs[k], bs[..k], bs[k + 1..];
    HostAlone(bs, total, k);
    ZeroPlaced(bs, k);
    Rejoin(bs, k);
    var zero := Carved(b, 0).(free := true);
    if Extra(b.start) > 0 {
      HeadOfZero(b);
      var head := Head(b, 0)[0];
      if Tail(b, 0) == [] {
        assert Tail(b, 0) + post == post;
        HeadOnly(pre, head, zero, post);
      } else {
        assert Tail(b, 0) + post == [Tail(b, 0)[0]] + post;
        HeadAndTail(pre, head, zero, Tail(b, 0)[0], post);
      }
    } else if k == 0 {
      assert pre + [zero] + ([b] + post) == [zero] + ([b] + post) && pre + [b] + post == [b] + post;
      ZeroAtStart(zero, b, post);
    } else {
      var low := bs[..k - 1];
      assert pre == low + [bs[k - 1]];
      ZeroAboveUsed(low, bs[k - 1], zero, b, post);
      assert low + [bs[k - 1]] + ([b] + post) == pre + [b] + post;
    }
  }

  lemma HeadOnly(pre: seq<Block>, head: Block, zero: Block, post: seq<Block>)
    requires head.free && zero.size == 0 && (post != [] ==> !post[0].free)
    ensures MergeFrom(pre + [head] + [zero] + post, |pre| + 1) == pre + [head] + post
  {
    hide MergeFrom, MergeDown, MergesDown;
    assert head.(size := head.size + zero.size) == head;
    MergeTurn(pre, head, zero, post);
  }

  /** A free block has used neighbours. */
  lemma HostAlone(bs: seq<Block>, total: nat, k: nat)
    requires WellFormed(bs, total) && k < |bs| && Fits(bs[k], 0)
    ensures bs[k].free && bs[k].size > 0 && (k > 0 ==> !bs[k - 1].free) && (k + 1 < |bs| ==> !bs[k + 1].free)
  {
  }

  lemma HeadOfZero(b: Block)
    requires Fits(b, 0) && b.size > 0 && Extra(b.start) > 0
    ensures var head, tail := Head(b, 0), Tail(b, 0);
      && |head| == 1 && head[0].free && |tail| <= 1 && (tail != [] ==> tail[0].free)
      && b == head[0].(size := head[0].size + if tail == [] then 0 else tail[0].size)
  {
    hide Extra;
  }

  lemma ZeroPlaced(bs: seq<Block>, k: nat)
    requires k < |bs| && Fits(bs[k], 0) && bs[k].size > 0
    ensures var b, j := bs[k], PlacedAt(bs, k, 0);
      var zero, q := Carved(b, 0).(free := true), Place(bs, k, 0);
      j < |q| && q[j].(free := true) == zero &&
      if Extra(b.start) > 0 then
        && j == k + 1 && |Head(b, 0)| == 1
        && q[j := zero] == bs[..k] + [Head(b, 0)[0]] + [zero] + (Tail(b, 0) + bs[k + 1..])
      else j == k && zero.start == b.start && q[j := zero] == bs[..k] + [zero] + ([b] + bs[k + 1..])
  {
    hide Extra;
    PlaceSplice(bs, k, 0);
  }

  lemma Refuse(bs: seq<Block>, k: nat, need: nat)
    requires k < |bs| && Fits(bs[k], need) && need > 0
    requires k > 0 ==> !bs[k - 1].free
    requires k + 1 < |bs| ==> !bs[k + 1].free
    ensures PlacedAt(bs, k, need) < |Place(bs, k, need)|
    ensures Coalesced(Place(bs, k, need), PlacedAt(bs, k, need)) == bs
  {
    hide Extra, Coalesced, Head, Tail, Carved, Fits;
    var b := bs[k];
    PartsOf(b, need);
    FuseBetween(bs[..k], Head(b, need), Carved(b, need), Tail(b, need), bs[k + 1..]);
    Rejoin(bs, k);
  }

  /** The parts a host is carved into make it up. */
  lemma PartsOf(b: Block, need: nat)
    requires Fits(b, need) && need > 0
    ensures var head, c, tail := Head(b, need), Carved(b, need), Tail(b, need);
      && |head| <= 1 && (head != [] ==> head[0].free) && |tail| <= 1 && (tail != [] ==> tail[0].free)
      && FusedParts(head, c, tail) == b
  {
    hide Extra;
  }

  /** A block fused with the free blocks on its sides. */
  function FusedParts(head: seq<Block>, c: Block, tail: seq<Block>): Block {
    var size := (if head == [] then 0 else head[0].size) + c.size + (if tail == [] then 0 else tail[0].size);
    Block(if head == [] then c.start else head[0].start, size, true)
  }

  /** Coalescing swallows at most one free block on each side. */
  lemma FuseBetween(pre: seq<Block>, head: seq<Block>, c: Block, tail: seq<Block>, post: seq<Block>)
    requires |head| <= 1 && (head != [] ==> head[0].free)
    requires |tail| <= 1 && (tail != [] ==> tail[0].free)
    requires pre != [] ==> !pre[|pre| - 1].free
    requires post != [] ==> !post[0].free
    ensures Coalesced(pre + head + [c] + tail + post, |pre| + |head|) == pre + [FusedParts(head, c, tail)] + post
  {
    hide Coalesced, FusedParts;
    var p, j := pre + head + [c] + tail + post, |pre| + |head|;
    assert p[j] == c;
    assert j > 0 ==> p[j - 1] == if head == [] then pre[|pre| - 1] else head[0];
    assert j + 1 < |p| ==> p[j + 1] == if tail == [] then post[0] else tail[0];
    FuseAt(p, j, head, tail);
    assert p[..|pre|] == pre && p[j + 1 + |tail|..] == post;
  }

  lemma FuseAt(p: seq<Block>, j: nat, head: seq<Block>, tail: seq<Block>)
    requires j < |p| && |head| <= 1 && |tail| <= 1
    requires if head == [] then j > 0 ==> !p[j - 1].free else j > 0 && p[j - 1] == head[0] && head[0].free
    requires if tail == [] then j + 1 < |p| ==> !p[j + 1].free else j + 1 < |p| && p[j + 1] == tail[0] && tail[0].free
    ensures Coalesced(p, j) == p[..j - |head|] + [FusedParts(head, p[j], tail)] + p[j + 1 + |tail|..]
  {
  }
}
