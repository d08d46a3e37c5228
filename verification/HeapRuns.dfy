/** Whole runs of the allocator: any sequence of allocations and frees of live offsets. */
module HeapRuns {
  import opened HeapModel
  import opened HeapLaws

  /** The chunk list and, for every block handed out, its start unit and the bytes asked for. */
  datatype Heap = Heap(blocks: seq<Block>, live: map<nat, nat>)

  datatype Op = Alloc(size: nat) | Free(offset: nat)

  function Fresh(total: nat): Heap {
    Heap([Block(0, total, true)], map[])
  }

  function DoAlloc(h: Heap, size: nat): Heap {
    if size == 0 then h else
      var need := Units(size);
      var k := BestHost(h.blocks, need);
      if k < 0 then h else
        Heap(Place(h.blocks, k, need), h.live[Carved(h.blocks[k], need).start := size])
  }

  function DoFree(h: Heap, offset: nat): Heap {
    var i := Find(h.blocks, UnitOf(offset));
    if i == |h.blocks| then h else
      Heap(Release(h.blocks, i), h.live - {UnitOf(offset)})
  }

  function Apply(h: Heap, op: Op): Heap {
    match op
    case Alloc(size) => DoAlloc(h, size)
    case Free(offset) => DoFree(h, offset)
  }

  /** What callers owe: only offsets of live blocks are freed, and the size does not wrap when rounded. */
  predicate Legal(h: Heap, op: Op) {
    match op
    case Alloc(size) => size + 31 < SIZE_MOD
    case Free(offset) => UnitOf(offset) in h.live
  }

  predicate LegalRun(h: Heap, ops: seq<Op>)
    decreases ops
  {
    ops == [] || (Legal(h, ops[0]) && LegalRun(Apply(h, ops[0]), ops[1..]))
  }

  function Run(h: Heap, ops: seq<Op>): Heap
    decreases ops
  {
    if ops == [] then h else Run(Apply(h, ops[0]), ops[1..])
  }

  /** The used blocks are exactly the live ones, each just large enough for its request. */
  ghost predicate Tracks(bs: seq<Block>, live: map<nat, nat>) {
    && (forall b :: b in bs && !b.free ==> b.start in live && b.size == Units(live[b.start]))
    && (forall b :: b in bs && !b.free ==> live[b.start] + 32 > 32 * b.size >= live[b.start] > 0)
    && (forall s :: s in live ==> exists b :: b in bs && !b.free && b.start == s)
  }

  ghost predicate Inv(h: Heap, total: nat) {
    WellFormed(h.blocks, total) && Tracks(h.blocks, h.live)
  }

  lemma FreshInv(total: nat)
    requires total > 0
    ensures Inv(Fresh(total), total)
  {
  }

  // ---------------------------------------------------------- one operation

  lemma StartsDiffer(bs: seq<Block>, total: nat, i: nat, j: nat)
    requires WellFormed(bs, total) && i < |bs| && j < |bs| && i != j
    ensures bs[i].start != bs[j].start
  {
    if i < j { Ordered(bs, 0, total, i, j); } else { Ordered(bs, 0, total, j, i); }
  }

  lemma FindUsed(bs: seq<Block>, total: nat, i: nat)
    requires WellFormed(bs, total) && i < |bs|
    ensures Find(bs, bs[i].start) == i
  {
    var j := Find(bs, bs[i].start);
    if j != i {
      StartsDiffer(bs, total, i, j);
    }
  }

  lemma PlaceUsed(bs: seq<Block>, k: nat, need: nat, b: Block)
    requires k < |bs| && Fits(bs[k], need) && !b.free
    ensures b in Place(bs, k, need) <==> b in bs || b == Carved(bs[k], need)
  {
    Rejoin(bs, k);
    assert b in bs <==> b in bs[..k] || b == bs[k] || b in bs[k + 1..];
  }

  lemma ReleaseUsed(bs: seq<Block>, total: nat, i: nat, b: Block)
    requires WellFormed(bs, total) && i < |bs| && !bs[i].free && !b.free
    ensures b in Release(bs, i) <==> b in bs && b != bs[i]
  {
    hide Release, WellFormed;
    ReleaseIsCoalesced(bs, total, i);
    var lo, hi := Low(bs, i), High(bs, i);
    assert b in Coalesced(bs, i) <==> b in bs[..lo] || b in bs[hi..];
    if b in bs[..lo] {
      var j :| 0 <= j < lo && bs[j] == b;
      StartsDiffer(bs, total, i, j);
    }
    if b in bs[hi..] {
      var j :| hi <= j < |bs| && bs[j] == b;
      StartsDiffer(bs, total, i, j);
    }
    if b in bs && b != bs[i] {
      var j :| 0 <= j < |bs| && bs[j] == b;
      assert j < lo || hi <= j;
      if j < lo { assert b == bs[..lo][j]; } else { assert b == bs[hi..][j - hi]; }
    }
  }

  /** Units of a fitting host are not the start of a used block. */
  lemma HostNotLive(h: Heap, total: nat, k: nat, need: nat)
    requires Inv(h, total) && k < |h.blocks| && Fits(h.blocks[k], need) && need > 0
    ensures Carved(h.blocks[k], need).start !in h.live
  {
    var s := Carved(h.blocks[k], need).start;
    if s in h.live {
      var b :| b in h.blocks && !b.free && b.start == s;
      var j :| 0 <= j < |h.blocks| && h.blocks[j] == b;
      if j < k { Ordered(h.blocks, 0, total, j, k); } else { Ordered(h.blocks, 0, total, k, j); }
    }
  }

  lemma TracksPlaced(bs: seq<Block>, live: map<nat, nat>, bs': seq<Block>, c: Block, size: nat)
    requires Tracks(bs, live) && !c.free && c.start !in live && c.size == Units(size)
    requires 0 < size && size + 31 < SIZE_MOD
    requires forall b: Block :: !b.free ==> (b in bs' <==> b in bs || b == c)
    ensures Tracks(bs', live[c.start := size])
  {
    assert c in bs';
    forall s | s in live
      ensures exists b :: b in bs' && !b.free && b.start == s
    {
      var b :| b in bs && !b.free && b.start == s;
      assert b in bs';
    }
  }

  lemma AllocKeeps(h: Heap, total: nat, size: nat)
    requires Inv(h, total) && size + 31 < SIZE_MOD
    ensures Inv(DoAlloc(h, size), total)
  {
    var need := Units(size);
    var k := BestHost(h.blocks, need);
    if size > 0 && k >= 0 {
      PlaceWellFormed(h.blocks, total, k, need);
      HostNotLive(h, total, k, need);
      forall b: Block | !b.free {
        PlaceUsed(h.blocks, k, need, b);
      }
      TracksPlaced(h.blocks, h.live, Place(h.blocks, k, need), Carved(h.blocks[k], need), size);
    }
  }

  /** What a request of size bytes comes to, when n is the least number of 32-byte units that holds them: it fails if
      and only if the bitmap has no free run of n units on a page boundary, and otherwise takes such a run. */
  ghost predicate Outcome(bs: seq<Block>, after: seq<Block>, size: nat, n: nat, at: int) {
    if at < 0 then after == bs && !exists s :: FreeRun(bs, s, n)
    else
      && 32 * at % 4096 == 0 && FreeRun(bs, at, n)
      && forall u: nat :: FreeUnit(after, u) <==> FreeUnit(bs, u) && !(at <= u < at + n)
  }

  /** n is the least number of units for size bytes, and counting them does not wrap. */
  ghost predicate Least(size: nat, n: nat) {
    0 < size && size + 31 < 0x1_0000_0000 && 32 * (n - 1) < size <= 32 * n
  }

  lemma PlacedBySize(bs: seq<Block>, total: nat, size: nat, n: nat)
    requires WellFormed(bs, total) && Least(size, n)
    ensures var k := BestHost(bs, Units(size));
      if k < 0 then Outcome(bs, bs, size, n, -1)
      else Outcome(bs, Place(bs, k, Units(size)), size, n, Carved(bs[k], Units(size)).start)
  {
    hide Place, FreeUnit;
    assert Units(size) == n;
    AllocComplete(bs, total, n);
    var k := BestHost(bs, n);
    if k >= 0 {
      var s := Carved(bs[k], n).start;
      ExtraAligns(bs[k].start);
      forall u: nat
        ensures FreeUnit(Place(bs, k, n), u) <==> FreeUnit(bs, u) && !(s <= u < s + n)
        ensures s <= u < s + n ==> FreeUnit(bs, u)
      {
        PlaceBitmap(bs, total, k, n, u);
      }
    }
  }

  /** Allocation by the size asked for. */
  lemma AllocBySize(h: Heap, total: nat, size: nat, n: nat) returns (at: int)
    requires Inv(h, total) && Least(size, n)
    ensures Outcome(h.blocks, DoAlloc(h, size).blocks, size, n, at)
    ensures DoAlloc(h, size).live == if at < 0 then h.live else h.live[at as nat := size]
  {
    hide Place, Outcome;
    PlacedBySize(h.blocks, total, size, n);
    var k := BestHost(h.blocks, Units(size));
    at := if k < 0 then -1 else Carved(h.blocks[k], Units(size)).start;
  }

  lemma LiveIndex(h: Heap, total: nat, unit: nat) returns (i: nat)
    requires Inv(h, total) && unit in h.live
    ensures i == Find(h.blocks, unit) && i < |h.blocks| && !h.blocks[i].free && h.blocks[i].start == unit
  {
    var b :| b in h.blocks && !b.free && b.start == unit;
    i :| 0 <= i < |h.blocks| && h.blocks[i] == b;
    FindUsed(h.blocks, total, i);
  }

  lemma FreeKeeps(h: Heap, total: nat, offset: nat)
    requires Inv(h, total) && UnitOf(offset) in h.live
    ensures Inv(DoFree(h, offset), total)
    ensures DoFree(h, offset).live == h.live - {UnitOf(offset)}
  {
    var i := LiveIndex(h, total, UnitOf(offset));
    var h' := DoFree(h, offset);
    ReleaseWellFormed(h.blocks, total, i);
    forall b: Block | !b.free
      ensures b in h'.blocks <==> b in h.blocks && b != h.blocks[i]
    {
      ReleaseUsed(h.blocks, total, i, b);
    }
    forall b | b in h'.blocks && !b.free
      ensures b.start in h'.live
    {
      var j :| 0 <= j < |h.blocks| && h.blocks[j] == b;
      StartsDiffer(h.blocks, total, i, j);
    }
  }

  // -------------------------------------------------------------- whole runs

  /** Every legal run keeps the heap well formed and its used blocks equal to the live ones. */
  lemma {:induction false} RunKeeps(h: Heap, total: nat, ops: seq<Op>)
    requires Inv(h, total) && LegalRun(h, ops)
    ensures Inv(Run(h, ops), total)
    decreases ops
  {
    if ops != [] {
      match ops[0] {
        case Alloc(size) => AllocKeeps(h, total, size);
        case Free(offset) => FreeKeeps(h, total, offset);
      }
      RunKeeps(Apply(h, ops[0]), total, ops[1..]);
    }
  }

  /** Freeing the block just allocated restores the heap, chunk list and all. */
  lemma AllocThenFree(h: Heap, total: nat, size: nat)
    requires Inv(h, total) && 0 < size && size + 31 < SIZE_MOD && BestHost(h.blocks, Units(size)) >= 0
    ensures var c := Carved(h.blocks[BestHost(h.blocks, Units(size))], Units(size));
      DoFree(DoAlloc(h, size), Bytes(c.start)) == h
  {
    hide Place, Release, Find, Extra, Tracks, Units;
    var need := Units(size);
    var k := BestHost(h.blocks, need);
    var c := Carved(h.blocks[k], need);
    UnitsWrap(size);
    HostNotLive(h, total, k, need);
    AllocFreeRoundTrip(h.blocks, total, k, need);
    PlaceWellFormed(h.blocks, total, k, need);
    PlaceSplice(h.blocks, k, need);
    FindUsed(Place(h.blocks, k, need), total, PlacedAt(h.blocks, k, need));
    assert h.live[c.start := size] - {c.start} == h.live;
  }

  /** Live blocks are page aligned, inside the heap, pairwise disjoint and as large as asked for, with less than a
      unit to spare. */
  lemma LiveSafe(h: Heap, total: nat, s: nat, t: nat)
    requires Inv(h, total) && s in h.live
    ensures PageAligned(s) && s + Units(h.live[s]) <= total
    ensures h.live[s] <= 32 * Units(h.live[s]) < h.live[s] + 32
    ensures t in h.live && s < t ==> s + Units(h.live[s]) <= t
  {
    var i := LiveIndex(h, total, s);
    Inside(h.blocks, 0, total, i);
    if t in h.live && s < t {
      var j := LiveIndex(h, total, t);
      if j < i { Ordered(h.blocks, 0, total, j, i); }
      if i < j { Ordered(h.blocks, 0, total, i, j); }
    }
  }

  /** No unit of a live block is free. */
  lemma LiveNotFree(h: Heap, total: nat, s: nat, u: nat)
    requires Inv(h, total) && s in h.live && s <= u < s + Units(h.live[s])
    ensures !FreeUnit(h.blocks, u)
  {
    var i := LiveIndex(h, total, s);
    assert h.blocks[i] in h.blocks;
    forall j | 0 <= j < |h.blocks| && h.blocks[j].free
      ensures !Holds(h.blocks[j], u)
    {
      if j < i { Ordered(h.blocks, 0, total, j, i); } else { Ordered(h.blocks, 0, total, i, j); }
    }
  }

  /** So are the live blocks of any run from a fresh heap. */
  lemma RunSafe(total: nat, ops: seq<Op>, s: nat, t: nat)
    requires total > 0 && LegalRun(Fresh(total), ops) && s in Run(Fresh(total), ops).live
    ensures var live := Run(Fresh(total), ops).live;
      && PageAligned(s) && s + Units(live[s]) <= total && live[s] <= 32 * Units(live[s]) < live[s] + 32
      && (t in live && s < t ==> s + Units(live[s]) <= t)
  {
    hide Inv, Run, LegalRun;
    FreshInv(total);
    RunKeeps(Fresh(total), total, ops);
    LiveSafe(Run(Fresh(total), ops), total, s, t);
  }

  lemma UsedAmongTwo(bs: seq<Block>, total: nat)
    requires WellFormed(bs, total) && |bs| > 1
    ensures exists b :: b in bs && !b.free
  {
    assert !bs[0].free || !bs[1].free;
    assert bs[0] in bs && bs[1] in bs;
  }

  /** A well-formed heap with no used block is a single free block. */
  lemma AllFree(bs: seq<Block>, total: nat)
    requires WellFormed(bs, total) && forall b :: b in bs ==> b.free
    ensures bs == [Block(0, total, true)]
  {
    if |bs| > 1 {
      UsedAmongTwo(bs, total);
      assert false;
    }
    assert bs[0] in bs;
  }

  function Frees(offsets: seq<nat>): seq<Op> {
    seq(|offsets|, i requires 0 <= i < |offsets| => Free(offsets[i]))
  }

  /** offsets lists every live block once. */
  ghost predicate Lists(offsets: seq<nat>, live: map<nat, nat>) {
    && (forall i :: 0 <= i < |offsets| ==> UnitOf(offsets[i]) in live)
    && (forall i, j :: 0 <= i < j < |offsets| ==> UnitOf(offsets[i]) != UnitOf(offsets[j]))
    && (forall s :: s in live ==> exists i :: 0 <= i < |offsets| && UnitOf(offsets[i]) == s)
  }

  lemma ListsRest(offsets: seq<nat>, live: map<nat, nat>)
    requires Lists(offsets, live) && offsets != []
    ensures UnitOf(offsets[0]) in live
    ensures Lists(offsets[1..], live - {UnitOf(offsets[0])})
  {
    var rest := offsets[1..];
    forall s | s in live && s != UnitOf(offsets[0])
      ensures exists i :: 0 <= i < |rest| && UnitOf(rest[i]) == s
    {
      var i :| 0 <= i < |offsets| && UnitOf(offsets[i]) == s;
      assert rest[i - 1] == offsets[i];
    }
  }

  lemma NothingLive(h: Heap, total: nat)
    requires Inv(h, total) && Lists([], h.live)
    ensures h == Fresh(total)
  {
    AllFree(h.blocks, total);
    assert h.live == map[];
  }

  /** Freeing all live blocks, in any order, leaves the initial chunk list. */
  lemma {:induction false} FreeAllRestores(h: Heap, total: nat, offsets: seq<nat>)
    requires Inv(h, total) && Lists(offsets, h.live)
    ensures LegalRun(h, Frees(offsets))
    ensures Run(h, Frees(offsets)) == Fresh(total)
    decreases |offsets|
  {
    hide Inv, Lists, DoFree;
    if offsets == [] {
      NothingLive(h, total);
    } else {
      ListsRest(offsets, h.live);
      FreeKeeps(h, total, offsets[0]);
      FreeAllRestores(DoFree(h, offsets[0]), total, offsets[1..]);
      assert Frees(offsets)[1..] == Frees(offsets[1..]);
    }
  }

  // ------------------------------------------------------- where sizes wrap

  /** A successful allocation keeps the heap well formed, and is as large as asked
      for, exactly when rounding the size up to a unit does not wrap. */
  lemma AllocSoundIff(bs: seq<Block>, total: nat, size: nat)
    requires WellFormed(bs, total) && 0 < size < SIZE_MOD
    requires BestHost(bs, Units(size)) >= 0
    ensures WellFormed(Place(bs, BestHost(bs, Units(size)), Units(size)), total) <==> size + 31 < SIZE_MOD
    ensures 32 * (Units(size) - 1) < size <= 32 * Units(size) <==> size + 31 < SIZE_MOD
  {
    var need := Units(size);
    var k := BestHost(bs, need);
    UnitsWrap(size);
    if size + 31 < SIZE_MOD {
      PlaceWellFormed(bs, total, k, need);
    } else {
      EmptyBlockBreaks(bs, k, total);
    }
  }

  lemma UnitsWrap(size: nat)
    requires 0 < size < SIZE_MOD
    ensures if size + 31 < 0x1_0000_0000 then 32 * (Units(size) - 1) < size <= 32 * Units(size) else Units(size) == 0
  {
  }

  lemma EmptyBlockBreaks(bs: seq<Block>, k: nat, total: nat)
    requires k < |bs| && Fits(bs[k], 0)
    ensures !WellFormed(Place(bs, k, 0), total)
  {
    PlaceSplice(bs, k, 0);
    assert Place(bs, k, 0)[PlacedAt(bs, k, 0)].size == 0;
  }

  /** Freeing the offset that a request whose size wraps has returned restores the chunk list. */
  lemma WrappedUndone(bs: seq<Block>, total: nat, size: nat)
    requires WellFormed(bs, total) && SIZE_MOD - 31 <= size < SIZE_MOD
    requires BestHost(bs, Units(size)) >= 0
    ensures var k := BestHost(bs, Units(size));
      var after, s := Place(bs, k, Units(size)), Carved(bs[k], Units(size)).start;
      var i := Find(after, s);
      i < |after| && Release(after, i) == bs
  {
    hide Release, Extra;
    UnitsWrap(size);
    var k := BestHost(bs, 0);
    var after, s := Place(bs, k, 0), Carved(bs[k], 0).start;
    ZeroRoundTrip(bs, total, k);
    FindPlaced(bs, total, k);
  }

  lemma FindPlaced(bs: seq<Block>, total: nat, k: nat)
    requires WellFormed(bs, total) && k < |bs| && Fits(bs[k], 0)
    ensures Find(Place(bs, k, 0), Carved(bs[k], 0).start) == PlacedAt(bs, k, 0) < |Place(bs, k, 0)|
  {
    hide Find, Extra;
    var after, j, s := Place(bs, k, 0), PlacedAt(bs, k, 0), Carved(bs[k], 0).start;
    assert after[j].start == s;
    forall i | 0 <= i < j
      ensures after[i].start != s
    {
      if i < k {
        assert after[i] == bs[i];
        Ordered(bs, 0, total, i, k);
      }
    }
  }

  /** A request of SIZE_MAX bytes succeeds on a fresh heap and reserves nothing. */
  lemma WrappedRequestSucceeds(total: nat)
    requires total > 0
    ensures BestHost(Fresh(total).blocks, Units(SIZE_MOD - 1)) == 0
    ensures DoAlloc(Fresh(total), SIZE_MOD - 1).blocks == [Block(0, 0, false), Block(0, total, true)]
  {
    assert Extra(0) == 0;
    assert BestHost([], 0) == -1;
  }
}
