/** Buffers cut out of one pmem device.  Calls of alloc_pmem_buffer and free_pmem_buffer
    interleave between their device operations, whose outcomes are arbitrary. */
module Pmem {
  import opened HeapModel
  import opened HeapLaws
  import HeapRuns

  /** Setup: range reserved, sub-heap being created.  Out: in the caller's hands.
      Unmapping: free_pmem_buffer entered.  Stranded: the unmap failed. */
  datatype Phase = Setup | Out | Unmapping | Stranded

  datatype Buffer = Buffer(unit: nat, size: nat, phase: Phase)

  datatype Pool = Pool(heap: HeapRuns.Heap, buffers: map<nat, Buffer>)

  datatype Event =
    | Reserve(id: nat, size: nat)
    | SetupDone(id: nat, ok: bool)
    | Free(id: nat)
    | UnmapDone(id: nat, ok: bool)

  function Fresh(total: nat): Pool {
    Pool(HeapRuns.Fresh(total), map[])
  }

  function Step(p: Pool, e: Event): Pool {
    match e
    case Reserve(id, size) =>
      var k := BestHost(p.heap.blocks, Units(size));
      if size == 0 then p.(buffers := p.buffers[id := Buffer(0, 0, Setup)])
      else if k < 0 then p
      else Pool(HeapRuns.DoAlloc(p.heap, size),
                p.buffers[id := Buffer(Carved(p.heap.blocks[k], Units(size)).start, size, Setup)])
    case SetupDone(id, ok) =>
      if id !in p.buffers then p
      else if ok then Enter(p, id, Out)
      else GiveBack(p, id)
    case Free(id) =>
      if id !in p.buffers then p else Enter(p, id, Unmapping)
    case UnmapDone(id, ok) =>
      if id !in p.buffers then p
      else if ok then GiveBack(p, id)
      else Enter(p, id, Stranded)
  }

  function Enter(p: Pool, id: nat, phase: Phase): Pool
    requires id in p.buffers
  {
    p.(buffers := p.buffers[id := p.buffers[id].(phase := phase)])
  }

  function GiveBack(p: Pool, id: nat): Pool
    requires id in p.buffers
  {
    Pool(HeapRuns.DoFree(p.heap, Bytes(p.buffers[id].unit)), p.buffers - {id})
  }

  /** Calls come in order, and sizes do not wrap. */
  predicate Legal(p: Pool, e: Event) {
    match e
    case Reserve(id, size) => id !in p.buffers && size + 31 < SIZE_MOD
    case SetupDone(id, _) => id in p.buffers && p.buffers[id].phase.Setup?
    case Free(id) => id in p.buffers && p.buffers[id].phase.Out?
    case UnmapDone(id, _) => id in p.buffers && p.buffers[id].phase.Unmapping?
  }

  predicate LegalRun(p: Pool, events: seq<Event>)
    decreases events
  {
    events == [] || (Legal(p, events[0]) && LegalRun(Step(p, events[0]), events[1..]))
  }

  function Run(p: Pool, events: seq<Event>): Pool
    decreases events
  {
    if events == [] then p else Run(Step(p, events[0]), events[1..])
  }

  /** Every buffer that exists, stranded ones included, has a live block of its own, unless it is empty. */
  ghost predicate Matches(buffers: map<nat, Buffer>, live: map<nat, nat>) {
    && (forall id :: id in buffers && buffers[id].size > 0 ==>
          buffers[id].unit in live && live[buffers[id].unit] == buffers[id].size)
    && (forall id :: id in buffers && buffers[id].size == 0 ==> buffers[id].unit == 0)
    && (forall a, b :: a in buffers && b in buffers && a != b && buffers[a].size > 0 && buffers[b].size > 0 ==>
          buffers[a].unit != buffers[b].unit)
    && (forall u :: u in live ==> Owned(buffers, u))
  }

  /** Some buffer that is not empty starts at unit u. */
  ghost predicate Owned(buffers: map<nat, Buffer>, u: nat) {
    exists id :: id in buffers && buffers[id].size > 0 && buffers[id].unit == u
  }

  ghost predicate Inv(p: Pool, total: nat) {
    HeapRuns.Inv(p.heap, total) && Matches(p.buffers, p.heap.live)
  }

  // ---------------------------------------------------------- every step keeps it

  lemma MatchesAdded(buffers: map<nat, Buffer>, live: map<nat, nat>, id: nat, b: Buffer)
    requires Matches(buffers, live) && id !in buffers && b.unit !in live && b.size > 0
    ensures Matches(buffers[id := b], live[b.unit := b.size])
  {
    var more := buffers[id := b];
    forall u | u in live[b.unit := b.size]
      ensures Owned(more, u)
    {
      if u == b.unit {
        assert more[id] == b;
      } else {
        var x :| x in buffers && buffers[x].size > 0 && buffers[x].unit == u;
        assert more[x] == buffers[x];
      }
    }
  }

  lemma MatchesEmpty(buffers: map<nat, Buffer>, live: map<nat, nat>, id: nat, b: Buffer)
    requires Matches(buffers, live) && id !in buffers && b.unit == 0 && b.size == 0
    ensures Matches(buffers[id := b], live)
  {
    var more := buffers[id := b];
    forall u | u in live
      ensures Owned(more, u)
    {
      var x :| x in buffers && buffers[x].size > 0 && buffers[x].unit == u;
      assert more[x] == buffers[x];
    }
  }

  lemma MatchesRemoved(buffers: map<nat, Buffer>, live: map<nat, nat>, id: nat)
    requires Matches(buffers, live) && id in buffers
    ensures Matches(buffers - {id}, if buffers[id].size > 0 then live - {buffers[id].unit} else live)
  {
    var unit, rest := buffers[id].unit, if buffers[id].size > 0 then live - {buffers[id].unit} else live;
    forall u | u in rest
      ensures Owned(buffers - {id}, u)
    {
      var x :| x in buffers && buffers[x].size > 0 && buffers[x].unit == u;
      assert x in buffers - {id};
    }
  }

  lemma OwnedStays(buffers: map<nat, Buffer>, id: nat, phase: Phase, u: nat)
    requires id in buffers && Owned(buffers, u)
    ensures Owned(buffers[id := buffers[id].(phase := phase)], u)
  {
    var x :| x in buffers && buffers[x].size > 0 && buffers[x].unit == u;
    assert x in buffers[id := buffers[id].(phase := phase)];
  }

  lemma MatchesEntered(buffers: map<nat, Buffer>, live: map<nat, nat>, id: nat, phase: Phase)
    requires Matches(buffers, live) && id in buffers
    ensures Matches(buffers[id := buffers[id].(phase := phase)], live)
  {
    hide Owned;
    forall u | u in live
      ensures Owned(buffers[id := buffers[id].(phase := phase)], u)
    {
      OwnedStays(buffers, id, phase, u);
    }
  }

  lemma EnterKeeps(p: Pool, total: nat, id: nat, phase: Phase)
    requires Inv(p, total) && id in p.buffers
    ensures Inv(Enter(p, id, phase), total)
  {
    hide HeapRuns.Inv, Matches;
    MatchesEntered(p.buffers, p.heap.live, id, phase);
  }

  lemma GiveBackKeeps(p: Pool, total: nat, id: nat)
    requires Inv(p, total) && id in p.buffers && p.buffers[id].size > 0
    ensures Inv(GiveBack(p, id), total)
    ensures GiveBack(p, id).heap.live == p.heap.live - {p.buffers[id].unit}
  {
    hide HeapRuns.Inv, HeapRuns.DoFree;
    HeapRuns.FreeKeeps(p.heap, total, Bytes(p.buffers[id].unit));
    MatchesRemoved(p.buffers, p.heap.live, id);
  }

  lemma ReserveKeeps(p: Pool, total: nat, id: nat, size: nat)
    requires Inv(p, total) && id !in p.buffers && size + 31 < SIZE_MOD
    ensures Inv(Step(p, Reserve(id, size)), total)
  {
    hide HeapRuns.Inv, Place, Matches;
    if size == 0 {
      MatchesEmpty(p.buffers, p.heap.live, id, Buffer(0, 0, Setup));
    } else {
      var k := BestHost(p.heap.blocks, Units(size));
      HeapRuns.AllocKeeps(p.heap, total, size);
      if k >= 0 {
        HeapRuns.UnitsWrap(size);
        HeapRuns.HostNotLive(p.heap, total, k, Units(size));
        MatchesAdded(p.buffers, p.heap.live, id, Step(p, Reserve(id, size)).buffers[id]);
      }
    }
  }

  /** A request of zero bytes always gives an empty buffer; any other gives one if and only if there is a free run of
      the least number of units that holds it, and then takes such a run. */
  lemma ReserveGives(p: Pool, total: nat, id: nat, size: nat, n: nat)
    requires Inv(p, total) && id !in p.buffers
    ensures size == 0 ==> Step(p, Reserve(id, size)) == p.(buffers := p.buffers[id := Buffer(0, 0, Setup)])
    ensures HeapRuns.Least(size, n) ==> var q := Step(p, Reserve(id, size));
      && (id in q.buffers <==> exists s :: FreeRun(p.heap.blocks, s, n))
      && (id !in q.buffers ==> q == p)
      && (id in q.buffers ==>
           && q.buffers == p.buffers[id := Buffer(q.buffers[id].unit, size, Setup)]
           && HeapRuns.Outcome(p.heap.blocks, q.heap.blocks, size, n, q.buffers[id].unit))
  {
    hide Place, HeapRuns.Tracks, Matches, Stretch, FreeUnit;
    if HeapRuns.Least(size, n) { HeapRuns.PlacedBySize(p.heap.blocks, total, size, n); }
  }

  // --------------------------------------------------------- empty buffers

  /** The event gives a buffer back to the heap. */
  predicate GivesBack(e: Event) {
    (e.SetupDone? && !e.ok) || (e.UnmapDone? && e.ok)
  }

  /** An empty buffer has offset 0 without a block; giving it back frees the block of the buffer that starts there. */
  predicate Misfree(p: Pool, e: Event)
    requires Legal(p, e)
  {
    GivesBack(e) && p.buffers[e.id].size == 0 && 0 in p.heap.live
  }

  lemma FreeFirstStays(bs: seq<Block>, total: nat)
    requires WellFormed(bs, total) && bs[0].free
    ensures Release(bs, 0) == bs
  {
    assert bs[0 := bs[0].(free := true)] == bs;
  }

  lemma FreeZero(h: HeapRuns.Heap, total: nat)
    requires HeapRuns.Inv(h, total)
    ensures 0 !in h.live ==> HeapRuns.DoFree(h, 0) == h
    ensures 0 !in HeapRuns.DoFree(h, 0).live
  {
    hide Release;
    assert Find(h.blocks, 0) == 0;
    if 0 !in h.live {
      assert h.blocks[0] in h.blocks;
      FreeFirstStays(h.blocks, total);
    }
  }

  lemma EmptyBackBreaks(p: Pool, total: nat, id: nat)
    requires Inv(p, total) && id in p.buffers && p.buffers[id].size == 0 && 0 in p.heap.live
    ensures !Inv(GiveBack(p, id), total)
  {
    hide HeapRuns.Inv, HeapRuns.DoFree;
    var q := GiveBack(p, id);
    FreeZero(p.heap, total);
    var x :| x in p.buffers && p.buffers[x].size > 0 && p.buffers[x].unit == 0;
    assert x in q.buffers && q.buffers[x] == p.buffers[x];
  }

  lemma EmptyBack(p: Pool, total: nat, id: nat)
    requires Inv(p, total) && id in p.buffers && p.buffers[id].size == 0
    ensures 0 !in p.heap.live ==> GiveBack(p, id).heap == p.heap && Inv(GiveBack(p, id), total)
    ensures 0 in p.heap.live ==> !Inv(GiveBack(p, id), total)
  {
    hide HeapRuns.Inv, HeapRuns.DoFree, Matches;
    if 0 in p.heap.live {
      EmptyBackBreaks(p, total, id);
    } else {
      AtZero(p, total, id);
      FreeZero(p.heap, total);
      MatchesRemoved(p.buffers, p.heap.live, id);
    }
  }

  lemma AtZero(p: Pool, total: nat, id: nat)
    requires Inv(p, total) && id in p.buffers && p.buffers[id].size == 0
    ensures p.buffers[id].unit == 0
  {
    hide HeapRuns.Inv;
  }

  /** A step keeps the pool in order if and only if it does not give back an empty buffer while a buffer starts
      at offset 0. */
  lemma StepKeepsIff(p: Pool, total: nat, e: Event)
    requires Inv(p, total) && Legal(p, e)
    ensures Inv(Step(p, e), total) <==> !Misfree(p, e)
  {
    hide Inv;
    if GivesBack(e) {
      if p.buffers[e.id].size == 0 { EmptyBack(p, total, e.id); } else { GiveBackKeeps(p, total, e.id); }
    } else {
      match e {
        case Reserve(id, size) => ReserveKeeps(p, total, id, size);
        case SetupDone(id, _) => EnterKeeps(p, total, id, Out);
        case Free(id) => EnterKeeps(p, total, id, Unmapping);
        case UnmapDone(id, _) => EnterKeeps(p, total, id, Stranded);
      }
    }
  }

  // -------------------------------------------------------------- whole runs

  /** No step of the run gives back an empty buffer while a buffer starts at offset 0. */
  predicate NoMisfree(p: Pool, events: seq<Event>)
    requires LegalRun(p, events)
    decreases events
  {
    events == [] || (!Misfree(p, events[0]) && NoMisfree(Step(p, events[0]), events[1..]))
  }

  /** All states of the run are in order. */
  ghost predicate AllInv(p: Pool, total: nat, events: seq<Event>)
    decreases events
  {
    Inv(p, total) && (events == [] || AllInv(Step(p, events[0]), total, events[1..]))
  }

  lemma {:induction false} RunKeepsIff(p: Pool, total: nat, events: seq<Event>)
    requires Inv(p, total) && LegalRun(p, events)
    ensures AllInv(p, total, events) <==> NoMisfree(p, events)
    ensures NoMisfree(p, events) ==> Inv(Run(p, events), total)
    decreases events
  {
    hide Inv, Step, Legal, Misfree;
    if events != [] {
      StepKeepsIff(p, total, events[0]);
      if !Misfree(p, events[0]) {
        RunKeepsIff(Step(p, events[0]), total, events[1..]);
      } else {
        assert !AllInv(Step(p, events[0]), total, events[1..]);
      }
    }
  }

  lemma FreshInv(total: nat)
    requires total > 0
    ensures Inv(Fresh(total), total)
  {
    HeapRuns.FreshInv(total);
  }

  /** Whatever the device answers, existing buffers lie page aligned inside the heap, are as
      large as asked for and do not overlap; that includes those whose unmap failed. */
  lemma BuffersDisjoint(total: nat, events: seq<Event>, a: nat, b: nat)
    requires total > 0 && LegalRun(Fresh(total), events) && NoMisfree(Fresh(total), events)
    requires var now := Run(Fresh(total), events); a in now.buffers && b in now.buffers
    ensures var now := Run(Fresh(total), events); var x, y := now.buffers[a], now.buffers[b];
      && PageAligned(x.unit) && x.unit + Units(x.size) <= total && x.size <= 32 * Units(x.size) < x.size + 32
      && (a != b ==> x.unit + Units(x.size) <= y.unit || y.unit + Units(y.size) <= x.unit)
  {
    hide Run, LegalRun, NoMisfree, HeapRuns.Inv;
    FreshInv(total);
    RunKeepsIff(Fresh(total), total, events);
    var now := Run(Fresh(total), events);
    var x, y := now.buffers[a], now.buffers[b];
    if x.size > 0 { HeapRuns.LiveSafe(now.heap, total, x.unit, y.unit); }
    if y.size > 0 { HeapRuns.LiveSafe(now.heap, total, y.unit, x.unit); }
  }

  /** The units of a buffer are not free, and belong to no other buffer. */
  lemma BufferAlone(p: Pool, total: nat, id: nat, u: nat)
    requires Inv(p, total) && id in p.buffers
    requires p.buffers[id].unit <= u < p.buffers[id].unit + Units(p.buffers[id].size)
    ensures !FreeUnit(p.heap.blocks, u)
    ensures forall x :: x in p.buffers && x != id ==>
      !(p.buffers[x].unit <= u < p.buffers[x].unit + Units(p.buffers[x].size))
  {
    hide HeapRuns.Inv, FreeUnit;
    var b := p.buffers[id];
    HeapRuns.LiveNotFree(p.heap, total, b.unit, u);
    forall x | x in p.buffers && x != id
      ensures !(p.buffers[x].unit <= u < p.buffers[x].unit + Units(p.buffers[x].size))
    {
      var y := p.buffers[x];
      if y.size > 0 {
        HeapRuns.LiveSafe(p.heap, total, b.unit, y.unit);
        HeapRuns.LiveSafe(p.heap, total, y.unit, b.unit);
      }
    }
  }

  lemma {:induction false} StrandedStays(p: Pool, events: seq<Event>, id: nat)
    requires LegalRun(p, events) && id in p.buffers && p.buffers[id].phase.Stranded?
    ensures id in Run(p, events).buffers && Run(p, events).buffers[id] == p.buffers[id]
    decreases events
  {
    if events != [] {
      StrandedStays(Step(p, events[0]), events[1..], id);
    }
  }

  /** A buffer whose unmap failed keeps its range for ever: as long as no empty buffer is given back over another,
      its units are never free again and never in another buffer. */
  lemma StrandedForever(p: Pool, total: nat, events: seq<Event>, id: nat, u: nat)
    requires LegalRun(p, events) && id in p.buffers && p.buffers[id].phase.Stranded?
    ensures id in Run(p, events).buffers && Run(p, events).buffers[id] == p.buffers[id]
    ensures var b, now := p.buffers[id], Run(p, events);
      Inv(p, total) && NoMisfree(p, events) && b.unit <= u < b.unit + Units(b.size) ==>
        && !FreeUnit(now.heap.blocks, u)
        && forall x :: x in now.buffers && x != id ==>
             !(now.buffers[x].unit <= u < now.buffers[x].unit + Units(now.buffers[x].size))
  {
    hide Inv, Run, LegalRun, NoMisfree, FreeUnit;
    StrandedStays(p, events, id);
    var b := p.buffers[id];
    if Inv(p, total) && NoMisfree(p, events) && b.unit <= u < b.unit + Units(b.size) {
      RunKeepsIff(p, total, events);
      BufferAlone(Run(p, events), total, id, u);
    }
  }

  /** A sub-heap setup that fails right away leaves no trace. */
  lemma FailedSetupUndoes(p: Pool, total: nat, id: nat, size: nat)
    requires Inv(p, total) && id !in p.buffers && 0 < size && size + 31 < SIZE_MOD
    requires BestHost(p.heap.blocks, Units(size)) >= 0
    ensures Step(Step(p, Reserve(id, size)), SetupDone(id, false)) == p
  {
    hide Place, Release, Find, HeapRuns.Inv, Units;
    var need := Units(size);
    var k := BestHost(p.heap.blocks, need);
    HeapRuns.UnitsWrap(size);
    HeapRuns.HostNotLive(p.heap, total, k, need);
    HeapRuns.AllocThenFree(p.heap, total, size);
    var mid := Step(p, Reserve(id, size));
    assert mid.buffers - {id} == p.buffers;
  }

  /** A buffer given back, even long after, returns exactly its own units and leaves other buffers alone. */
  lemma GivenBackExactly(p: Pool, total: nat, id: nat, u: nat)
    requires Inv(p, total) && id in p.buffers && (p.buffers[id].size > 0 || 0 !in p.heap.live)
    ensures var b := p.buffers[id];
      FreeUnit(GiveBack(p, id).heap.blocks, u) <==>
      FreeUnit(p.heap.blocks, u) || b.unit <= u < b.unit + Units(b.size)
    ensures forall x :: x in p.buffers && x != id ==>
      x in GiveBack(p, id).buffers && GiveBack(p, id).buffers[x] == p.buffers[x]
  {
    hide Release, FreeUnit;
    if p.buffers[id].size == 0 {
      EmptyBack(p, total, id);
    } else {
      var i := HeapRuns.LiveIndex(p.heap, total, p.buffers[id].unit);
      ReleaseBitmap(p.heap.blocks, total, i, u);
    }
  }

  // ------------------------------------------------------------- size zero

  /** A request of zero bytes, whose setup fails, or which is set up, freed and unmapped: either way the pool
      survives if and only if no buffer starts at offset 0. */
  lemma ZeroSizeSafeIff(p: Pool, total: nat, id: nat)
    requires Inv(p, total) && id !in p.buffers
    ensures var q := Step(p, Reserve(id, 0));
      && Inv(q, total)
      && (Inv(Step(q, SetupDone(id, false)), total) <==> 0 !in p.heap.live)
      && (Inv(Step(Step(Step(q, SetupDone(id, true)), Free(id)), UnmapDone(id, true)), total) <==> 0 !in p.heap.live)
  {
    hide Inv;
    var q := Step(p, Reserve(id, 0));
    StepKeepsIff(p, total, Reserve(id, 0));
    StepKeepsIff(q, total, SetupDone(id, false));
    var out := Step(q, SetupDone(id, true));
    StepKeepsIff(q, total, SetupDone(id, true));
    StepKeepsIff(out, total, Free(id));
    StepKeepsIff(Step(out, Free(id)), total, UnmapDone(id, true));
  }

  const ZeroSizeRun := [Reserve(1, 4096), SetupDone(1, true), Reserve(2, 0), SetupDone(2, false), Reserve(3, 4096)]

  /** Two live buffers at the same offset, after a zero-sized request failed in between. */
  lemma ZeroSizeOverlap(total: nat)
    requires total >= 128
    ensures LegalRun(Fresh(total), ZeroSizeRun)
    ensures var p := Run(Fresh(total), ZeroSizeRun);
      1 in p.buffers && 3 in p.buffers && p.buffers[1].unit == p.buffers[3].unit == 0
  {
    hide Place, Release, BestHost, Find, Units;
    var p0, es := Fresh(total), ZeroSizeRun;
    FirstFit(total);
    FreshInv(total);
    HeapRuns.AllocThenFree(p0.heap, total, 4096);
    var p1 := Step(p0, Reserve(1, 4096));
    var p2 := Step(p1, SetupDone(1, true));
    var p3 := Step(p2, Reserve(2, 0));
    var p4 := Step(p3, SetupDone(2, false));
    assert p4.heap.blocks == p0.heap.blocks;
    assert es[1..] == [SetupDone(1, true), Reserve(2, 0), SetupDone(2, false), Reserve(3, 4096)];
    assert es[1..][1..] == [Reserve(2, 0), SetupDone(2, false), Reserve(3, 4096)];
    assert es[1..][1..][1..] == [SetupDone(2, false), Reserve(3, 4096)];
    assert es[1..][1..][1..][1..] == [Reserve(3, 4096)];
    LastStep(p4, Reserve(3, 4096));
  }

  lemma LastStep(p: Pool, e: Event)
    ensures Run(p, [e]) == Step(p, e) && LegalRun(p, [e]) == Legal(p, e)
  {
    assert [e][1..] == [];
  }

  lemma FirstFit(total: nat)
    requires total >= 128
    ensures Units(4096) == 128 && BestHost([Block(0, total, true)], 128) == 0
    ensures Carved(Block(0, total, true), 128).start == 0
  {
    var bs := [Block(0, total, true)];
    assert Extra(0) == 0;
    assert Fits(bs[0], 128);
  }
}

/** One call at a time, on the real chunk list. */
module PmemBuffers {
  import opened HeapModel
  import opened HeapLaws
  import opened BestFit
  import HeapRuns
  import Pmem

  /** The chunks after an allocation of size bytes, and the offset it returns. */
  ghost function Taken(bs: seq<Block>, size: nat): seq<Block> {
    var k := BestHost(bs, Units(size));
    if size == 0 || k < 0 then bs else Place(bs, k, Units(size))
  }

  ghost function OffsetFor(bs: seq<Block>, size: nat): int {
    var k := BestHost(bs, Units(size));
    if size == 0 then 0 else if k < 0 then -ENOMEM else Signed(Bytes(Carved(bs[k], Units(size)).start))
  }

  /** The chunks after the block at an offset is freed, if there is one. */
  ghost function Given(bs: seq<Block>, offset: nat): seq<Block> {
    var i := Find(bs, UnitOf(offset));
    if i < |bs| then Release(bs, i) else bs
  }

  /** A heap in order, small enough for int offsets, and a size that neither is zero nor wraps. */
  ghost predicate Proper(bs: seq<Block>, bytes: nat, size: nat) {
    WellFormed(bs, UnitOf(bytes)) && bytes <= 0x8000_0000 && 0 < size && size + 31 < SIZE_MOD
  }

  /** alloc_pmem_buffer on the chunk list is a Reserve step and, if that gives a buffer, a SetupDone step. */
  lemma AllocIsSteps(p: Pmem.Pool, total: nat, id: nat, size: nat)
    requires Pmem.Inv(p, total) && total <= 0x400_0000 && id !in p.buffers && size + 31 < SIZE_MOD
    ensures var bs, q := p.heap.blocks, Pmem.Step(p, Pmem.Reserve(id, size));
      && q.heap.blocks == Taken(bs, size)
      && (id in q.buffers <==> OffsetFor(bs, size) >= 0)
      && (id in q.buffers ==>
           && OffsetFor(bs, size) == 32 * q.buffers[id].unit
           && Pmem.Step(q, Pmem.SetupDone(id, true)).heap == q.heap
           && Pmem.Step(q, Pmem.SetupDone(id, true)).buffers[id] == q.buffers[id].(phase := Pmem.Out)
           && Pmem.Step(q, Pmem.SetupDone(id, false)).heap.blocks == Given(q.heap.blocks, OffsetFor(bs, size))
           && id !in Pmem.Step(q, Pmem.SetupDone(id, false)).buffers)
  {
    hide Place, Release, Find, WellFormed, Stretch, BestHost, Extra, HeapRuns.Tracks, Pmem.Matches;
    var bs, k := p.heap.blocks, BestHost(p.heap.blocks, Units(size));
    if size > 0 && k >= 0 { InsideHeap(bs, total, k, Units(size)); }
  }

  lemma InsideHeap(bs: seq<Block>, total: nat, k: nat, need: nat)
    requires WellFormed(bs, total) && total <= 0x400_0000 && k < |bs| && Fits(bs[k], need) && need > 0
    ensures 0 <= Signed(Bytes(Carved(bs[k], need).start)) == 32 * Carved(bs[k], need).start < 0x8000_0000
  {
    hide Stretch, Extra;
    Inside(bs, 0, total, k);
  }

  /** free_pmem_buffer is a Free step and an UnmapDone step; only a successful unmap changes the chunks. */
  lemma FreeIsSteps(p: Pmem.Pool, id: nat, ok: bool)
    requires id in p.buffers
    ensures var q := Pmem.Step(Pmem.Step(p, Pmem.Free(id)), Pmem.UnmapDone(id, ok));
      if ok then q.heap.blocks == Given(p.heap.blocks, 32 * p.buffers[id].unit) && q.buffers == p.buffers - {id}
      else q.heap == p.heap && q.buffers == p.buffers[id := p.buffers[id].(phase := Pmem.Stranded)]
  {
    hide Release, Find;
    var b := p.buffers[id];
    assert p.buffers[id := b.(phase := Pmem.Unmapping)] - {id} == p.buffers - {id};
  }

  /** PmemUserspaceAllocator after a clean initialisation.  Results of the device operations are
      parameters; each is 0 or negative, and errno is positive after a failure. */
  class BufferAllocator {
    const heap: Allocator

    constructor (heap: Allocator)
      ensures this.heap == heap
    {
      this.heap := heap;
    }

    /** The offset is an int: what the heap hands out past 2 GiB is taken for an error and stays reserved. */
    method AllocBuffer(size: nat, openFd: int, connected: int, mapped: int, errno: int)
      returns (err: int, offset: int, fd: int)
      requires heap.Valid() && 0 < heap.heapSize && size < SIZE_MOD
      requires connected <= 0 && mapped <= 0 && errno > 0
      modifies heap`blocks, heap.list, heap.list.repr
      ensures heap.Valid() && fresh(heap.list.repr - old(heap.list.repr))
      ensures var at := OffsetFor(old(heap.blocks), size); var taken := Taken(old(heap.blocks), size);
        && (err == 0 <==> at >= 0 && openFd >= 0 && connected == 0 && mapped == 0)
        && (err == 0 ==> offset == at && fd == openFd && heap.blocks == taken)
        && (err != 0 ==> err < 0 && heap.blocks == if at < 0 then taken else Given(taken, at))
      ensures Proper(old(heap.blocks), heap.heapSize, size) ==> WellFormed(heap.blocks, UnitOf(heap.heapSize))
      ensures Proper(old(heap.blocks), heap.heapSize, size) && err != 0 ==> heap.blocks == old(heap.blocks)
    {
      hide Place, Release, ChunkList.Linked, Allocator.Holding, Allocator.Valid, Units, Extra, Stretch;
      ghost var bs, k := heap.blocks, BestHost(heap.blocks, Units(size));
      fd := -1;
      offset := heap.Allocate(size);
      if Proper(bs, heap.heapSize, size) {
        HeapRuns.UnitsWrap(size);
        if k >= 0 { Reserved(bs, heap.heapSize, k, Units(size)); }
      }
      if offset < 0 { return -ENOMEM, offset, fd; }
      fd := openFd;
      err := if fd < 0 then fd else 0;
      if err == 0 { err := connected; }
      if err == 0 { err := mapped; }
      if err < 0 {
        err := -errno;
        var _ := heap.Deallocate(offset);
        fd := -1;
      }
    }

    /** The outer err is shadowed where the unmap result is stored, so 0 is returned in any case. */
    method FreeBuffer(offset: nat, fd: int, unmapped: int) returns (err: int)
      requires heap.Valid() && 0 < heap.heapSize && offset < SIZE_MOD && unmapped <= 0
      modifies heap`blocks, heap.list, heap.list.repr
      ensures heap.Valid() && heap.list.repr == old(heap.list.repr)
      ensures err == 0
      ensures heap.blocks == if fd >= 0 && unmapped == 0 then Given(old(heap.blocks), offset) else old(heap.blocks)
    {
      hide Release, ChunkList.Linked, Allocator.Holding, Allocator.Valid;
      err := 0;
      if fd >= 0 && unmapped == 0 {
        var _ := heap.Deallocate(offset);
      }
    }
  }

  /** The offset of a carved block is a non-negative ssize_t and leads dealloc to that block. */
  lemma Reserved(bs: seq<Block>, bytes: nat, k: nat, need: nat)
    requires WellFormed(bs, UnitOf(bytes)) && bytes <= 0x8000_0000 && k < |bs| && Fits(bs[k], need) && need > 0
    ensures var c := Carved(bs[k], need);
      && 0 <= Signed(Bytes(c.start)) == Bytes(c.start) < 0x8000_0000
      && WellFormed(Place(bs, k, need), UnitOf(bytes))
      && Find(Place(bs, k, need), c.start) == PlacedAt(bs, k, need) < |Place(bs, k, need)|
      && Release(Place(bs, k, need), PlacedAt(bs, k, need)) == bs
  {
    hide Place, Release, Extra, Stretch;
    var total := UnitOf(bytes);
    Inside(bs, 0, total, k);
    PlaceWellFormed(bs, total, k, need);
    PlaceSplice(bs, k, need);
    AllocFreeRoundTrip(bs, total, k, need);
    HeapRuns.FindUsed(Place(bs, k, need), total, PlacedAt(bs, k, need));
  }
}
