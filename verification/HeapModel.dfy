/** The chunk list of the best-fit pmem allocator as a value: a sequence of
    blocks measured in 32-byte units.  The imperative allocator in
    BestFit.dfy is proved against the functions defined here. */
module HeapModel {

  // Sizes: size_t is 32 bits wide, a unit is 32 bytes (kMemoryAlign) and a page
  // is 4096 bytes, which makes 128 units.  The numbers are written out where they
  // divide, so that the arithmetic stays linear.

  /** One more than the largest size_t. */
  const SIZE_MOD: nat := 0x1_0000_0000

  predicate PageAligned(unit: nat) {
    unit % 128 == 0
  }

  function Bytes(units: nat): nat {
    units * 32
  }

  function UnitOf(offset: nat): nat {
    offset / 32
  }

  datatype Block = Block(start: nat, size: nat, free: bool)

  function End(b: Block): nat {
    b.start + b.size
  }

  /** Units to skip from start to reach a page boundary: -start & 127. */
  function Extra(start: nat): nat {
    var s: int := start;
    (-s) % 128
  }

  /** It leads to a page boundary, and to the closest one. */
  lemma ExtraAligns(start: nat)
    ensures PageAligned(start + Extra(start))
    ensures forall s :: start <= s < start + Extra(start) ==> !PageAligned(s)
  {
  }

  /** Units reserved for a request of size bytes: the least number that holds them, unless the addition wraps in
      size_t. */
  function Units(size: nat): (n: nat)
    ensures 0 < size && size + 31 < 0x1_0000_0000 ==> 32 * (n - 1) < size <= 32 * n
  {
    (size + 31) % 0x1_0000_0000 / 32
  }

  predicate Fits(b: Block, need: nat) {
    b.free && b.size >= need + Extra(b.start)
  }

  /** A stretch of heap [from, to): positive blocks tile it in address order,
      no two neighbours are both free, and every used block is page aligned. */
  ghost predicate Stretch(bs: seq<Block>, from: nat, to: nat) {
    && (if bs == [] then from == to else bs[0].start == from && End(bs[|bs| - 1]) == to)
    && (forall i :: 0 <= i < |bs| - 1 ==> End(bs[i]) == bs[i + 1].start)
    && (forall i :: 0 <= i < |bs| ==> bs[i].size > 0)
    && (forall i :: 0 <= i < |bs| - 1 ==> !bs[i].free || !bs[i + 1].free)
    && (forall i :: 0 <= i < |bs| ==> bs[i].free || PageAligned(bs[i].start))
  }

  ghost predicate WellFormed(bs: seq<Block>, total: nat) {
    Stretch(bs, 0, total) && total > 0
  }

  ghost predicate Holds(b: Block, u: nat) {
    b.start <= u < End(b)
  }

  /** The bitmap view of the heap: unit u is free. */
  ghost predicate FreeUnit(bs: seq<Block>, u: nat) {
    exists i :: 0 <= i < |bs| && bs[i].free && Holds(bs[i], u)
  }

  /** A page-aligned run of need free units starting at s. */
  ghost predicate FreeRun(bs: seq<Block>, s: nat, need: nat) {
    PageAligned(s) && forall u: nat :: s <= u < s + need ==> FreeUnit(bs, u)
  }

  // ---------------------------------------------------------------- choosing

  /** First fitting block of minimal size among the first n, or -1: the scan of alloc without its early exit. */
  function HostIn(bs: seq<Block>, need: nat, n: nat): (k: int)
    requires n <= |bs|
    ensures -1 <= k < n
    ensures k >= 0 ==> Fits(bs[k], need)
  {
    if n == 0 then -1 else
      var k := HostIn(bs, need, n - 1);
      if Fits(bs[n - 1], need) && (k < 0 || bs[n - 1].size < bs[k].size) then n - 1 else k
  }

  lemma {:induction false} HostInBest(bs: seq<Block>, need: nat, n: nat)
    requires n <= |bs|
    ensures var k := HostIn(bs, need, n);
      && (k < 0 <==> forall j :: 0 <= j < n ==> !Fits(bs[j], need))
      && (k >= 0 ==> forall j :: 0 <= j < n && Fits(bs[j], need) ==>
           bs[k].size < bs[j].size || (bs[k].size == bs[j].size && k <= j))
  {
    if n > 0 { HostInBest(bs, need, n - 1); }
  }

  function BestHost(bs: seq<Block>, need: nat): (k: int)
    ensures -1 <= k < |bs|
    ensures k < 0 <==> forall j :: 0 <= j < |bs| ==> !Fits(bs[j], need)
    ensures k >= 0 ==> Fits(bs[k], need)
    ensures k >= 0 ==> forall j :: 0 <= j < |bs| && Fits(bs[j], need) ==>
      bs[k].size < bs[j].size || (bs[k].size == bs[j].size && k <= j)
  {
    HostInBest(bs, need, |bs|);
    HostIn(bs, need, |bs|)
  }

  /** Once a block of exactly need units has been met, later blocks cannot displace the choice. */
  lemma ExactFitSettles(bs: seq<Block>, need: nat, i: nat, n: nat)
    requires i < n <= |bs| && Fits(bs[i], need) && bs[i].size == need
    ensures HostIn(bs, need, n) == BestHost(bs, need)
  {
    HostInBest(bs, need, n);
  }

  // ----------------------------------------------------------------- placing

  /** The block handed out of host b. */
  function Carved(b: Block, need: nat): Block {
    Block(b.start + Extra(b.start), need, false)
  }

  function Head(b: Block, need: nat): seq<Block> {
    if b.size > need && Extra(b.start) > 0 then [Block(b.start, Extra(b.start), true)] else []
  }

  function Tail(b: Block, need: nat): seq<Block>
    requires Fits(b, need)
  {
    var rest := b.size - (need + Extra(b.start));
    if b.size > need && rest > 0 then [Block(b.start + Extra(b.start) + need, rest, true)] else []
  }

  /** Replaces host k by its free head, the carved block and its free tail. */
  function Place(bs: seq<Block>, k: nat, need: nat): seq<Block>
    requires k < |bs| && Fits(bs[k], need)
  {
    bs[..k] + Head(bs[k], need) + [Carved(bs[k], need)] + Tail(bs[k], need) + bs[k + 1..]
  }

  function PlacedAt(bs: seq<Block>, k: nat, need: nat): nat
    requires k < |bs|
  {
    k + |Head(bs[k], need)|
  }

  // --------------------------------------------------------------- releasing

  /** The do-while loop of dealloc, started with the cursor on block i. */
  function MergeFrom(bs: seq<Block>, i: nat): seq<Block>
    requires i < |bs|
    decreases |bs| - i
  {
    if MergesDown(bs, i) then
      var next := MergeDown(bs, i);
      if i < |next| && next[i].free then MergeFrom(next, i) else next
    else if i + 1 < |bs| && bs[i + 1].free then MergeFrom(bs, i + 1)
    else bs
  }

  predicate MergesDown(bs: seq<Block>, i: nat)
    requires i < |bs|
  {
    i > 0 && (bs[i - 1].free || bs[i].size == 0)
  }

  function MergeDown(bs: seq<Block>, i: nat): seq<Block>
    requires 0 < i < |bs|
  {
    bs[..i - 1] + [bs[i - 1].(size := bs[i - 1].size + bs[i].size)] + bs[i + 1..]
  }

  function Release(bs: seq<Block>, i: nat): seq<Block>
    requires i < |bs|
  {
    MergeFrom(bs[i := bs[i].(free := true)], i)
  }

  /** First block starting at unit, or |bs|. */
  function Find(bs: seq<Block>, unit: nat): (i: nat)
    ensures i <= |bs|
    ensures i < |bs| ==> bs[i].start == unit
    ensures forall j :: 0 <= j < i ==> bs[j].start != unit
  {
    if bs == [] || bs[0].start == unit then 0 else 1 + Find(bs[1..], unit)
  }

  /** Block i and its free neighbours fused into one free block. */
  function Coalesced(bs: seq<Block>, i: nat): seq<Block>
    requires i < |bs|
  {
    bs[..Low(bs, i)] + [Fused(bs, i)] + bs[High(bs, i)..]
  }

  function Low(bs: seq<Block>, i: nat): nat
    requires i < |bs|
  {
    if i > 0 && bs[i - 1].free then i - 1 else i
  }

  function High(bs: seq<Block>, i: nat): nat
    requires i < |bs|
  {
    if i + 1 < |bs| && bs[i + 1].free then i + 2 else i + 1
  }

  function Fused(bs: seq<Block>, i: nat): Block
    requires i < |bs|
  {
    var below := if i > 0 && bs[i - 1].free then bs[i - 1].size else 0;
    var above := if i + 1 < |bs| && bs[i + 1].free then bs[i + 1].size else 0;
    Block(bs[Low(bs, i)].start, below + bs[i].size + above, true)
  }
}
