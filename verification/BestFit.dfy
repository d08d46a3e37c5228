/** The allocator itself: a doubly linked list of chunks updated in place. */
module BestFit {
  import opened HeapModel
  import opened Seqs
  import HeapRuns

  const EINVAL: int := 22
  const ENOMEM: int := 12
  const ENOENT: int := 2

  /** size_t converted to ssize_t. */
  function Signed(x: nat): (r: int)
    ensures -0x8000_0000 <= r < 0x8000_0000 && (x - r) % 0x1_0000_0000 == 0
  {
    if x % 0x1_0000_0000 < 0x8000_0000 then x % 0x1_0000_0000 else x % 0x1_0000_0000 - 0x1_0000_0000
  }

  /** size rounded up to whole pages, in size_t. */
  function RoundToPage(size: nat): (r: nat)
    ensures size + 4095 < 0x1_0000_0000 ==> r % 4096 == 0 && size <= r < size + 4096
    ensures 0x1_0000_0000 <= size + 4095 < 0x1_0000_0000 + 4096 ==> r == 0
  {
    (size + 4095) % 0x1_0000_0000 / 4096 * 4096
  }

  class Chunk {
    var start: nat
    var size: nat
    var free: bool
    var prev: Chunk?
    var next: Chunk?

    constructor (start: nat, size: nat)
      ensures this.start == start && this.size == size && free && prev == null && next == null
    {
      this.start, this.size, free := start, size, true;
      prev, next := null, null;
    }

    ghost function Value(): Block
      reads `start, `size, `free
    {
      Block(start, size, free)
    }
  }

  /** bs with free blocks of extra units before and rest units after block k, which moves up by extra. */
  ghost function Around(bs: seq<Block>, k: nat, extra: nat, rest: nat): seq<Block>
    requires k < |bs|
  {
    var moved := bs[k].(start := bs[k].start + extra);
    var low := if extra == 0 then bs else Inserted(bs[k := moved], k, Block(bs[k].start, extra, true));
    if rest == 0 then low else Inserted(low, if extra == 0 then k + 1 else k + 2, Block(End(moved), rest, true))
  }

  /** Place as the in-place updates of alloc: shrink the host, then put the free blocks around it. */
  lemma PlaceSteps(bs: seq<Block>, k: nat, need: nat)
    requires k < |bs| && Fits(bs[k], need)
    ensures var b := bs[k];
      var used := bs[k := Block(b.start, need, false)];
      Place(bs, k, need) ==
      if b.size > need then Around(used, k, Extra(b.start), b.size - (need + Extra(b.start))) else used
  {
    hide Extra, Around, Inserted;
    var b := bs[k];
    var used := bs[k := Block(b.start, need, false)];
    if b.size > need {
      AroundSplice(used, k, Extra(b.start), b.size - (need + Extra(b.start)));
      assert used[..k] == bs[..k] && used[k + 1..] == bs[k + 1..];
    } else {
      assert Carved(b, need) == used[k];
      assert used == used[..k] + [used[k]] + used[k + 1..];
      assert used[..k] == bs[..k] && used[k + 1..] == bs[k + 1..];
    }
  }

  lemma AroundSplice(bs: seq<Block>, k: nat, extra: nat, rest: nat)
    requires k < |bs|
    ensures var moved := bs[k].(start := bs[k].start + extra);
      var head := if extra == 0 then [] else [Block(bs[k].start, extra, true)];
      var tail := if rest == 0 then [] else [Block(End(moved), rest, true)];
      Around(bs, k, extra, rest) == bs[..k] + head + [moved] + tail + bs[k + 1..]
  {
    hide Inserted;
    var moved := bs[k].(start := bs[k].start + extra);
    var head := if extra == 0 then [] else [Block(bs[k].start, extra, true)];
    var low := if extra == 0 then bs else Inserted(bs[k := moved], k, head[0]);
    var below := bs[..k] + head + [moved];
    assert low == below + bs[k + 1..] by {
      if extra != 0 {
        InsertedIsSplice(bs[k := moved], k, head[0]);
        assert bs[k := moved][..k] == bs[..k] && bs[k := moved][k..] == [moved] + bs[k + 1..];
      } else {
        assert moved == bs[k] && below == bs[..k + 1];
      }
    }
    if rest != 0 {
      InsertedIsSplice(low, |below|, Block(End(moved), rest, true));
      assert low[..|below|] == below && low[|below|..] == bs[k + 1..];
    }
  }

  /** Neighbours in ns point at each other, except across the gap before chunk gap. */
  ghost predicate Chained(ns: seq<Chunk>, gap: int)
    reads ns`prev, ns`next
  {
    && (forall i {:trigger ns[i].prev} :: 1 <= i < |ns| && i != gap ==> ns[i].prev == ns[i - 1])
    && (forall i {:trigger ns[i].next} :: 0 <= i < |ns| - 1 && i + 1 != gap ==> ns[i].next == ns[i + 1])
    && (ns != [] && gap != 0 ==> ns[0].prev == null)
    && (ns != [] && gap != |ns| ==> ns[|ns| - 1].next == null)
  }

  /** A chunk linked to both sides of the gap closes it. */
  lemma CloseGap(ns: seq<Chunk>, gap: nat, x: Chunk)
    requires gap <= |ns| && Chained(ns, gap)
    requires x.prev == if gap == 0 then null else ns[gap - 1]
    requires x.next == if gap == |ns| then null else ns[gap]
    requires gap > 0 ==> ns[gap - 1].next == x
    requires gap < |ns| ==> ns[gap].prev == x
    ensures Chained(Inserted(ns, gap, x), -1)
  {
    var t := Inserted(ns, gap, x);
    forall i | 1 <= i < |t|
      ensures t[i].prev == t[i - 1]
    {
      if i > gap + 1 { assert ns[i - 1].prev == ns[i - 2]; }
    }
    forall i | 0 <= i < |t| - 1
      ensures t[i].next == t[i + 1]
    {
      if i > gap { assert ns[i - 1].next == ns[i]; }
    }
  }

  /** Neighbours in ns point at each other past chunk k, which they have dropped. */
  ghost predicate ChainedPast(ns: seq<Chunk>, k: nat)
    reads ns`prev, ns`next
    requires k < |ns|
  {
    && (forall i {:trigger ns[i].prev} :: 1 <= i < |ns| && i != k ==>
          ns[i].prev == if i != k + 1 then ns[i - 1] else if k == 0 then null else ns[k - 1])
    && (forall i {:trigger ns[i].next} :: 0 <= i < |ns| - 1 && i != k ==>
          ns[i].next == if i + 1 != k then ns[i + 1] else if k + 1 == |ns| then null else ns[k + 1])
    && (k != 0 ==> ns[0].prev == null)
    && (k != |ns| - 1 ==> ns[|ns| - 1].next == null)
  }

  lemma DropChunk(ns: seq<Chunk>, k: nat)
    requires k < |ns| && ChainedPast(ns, k)
    ensures Chained(Removed(ns, k), -1)
  {
    var t := Removed(ns, k);
    forall i | 1 <= i < |t|
      ensures t[i].prev == t[i - 1]
    {
      if i >= k { assert ns[i + 1].prev == if i == k then ns[k - 1] else ns[i]; }
    }
    forall i | 0 <= i < |t| - 1
      ensures t[i].next == t[i + 1]
    {
      if i >= k { assert ns[i + 1].next == ns[i + 2]; }
    }
  }

  /** Links newNode in above chunk k of a chain. */
  method LinkAfter(node: Chunk, newNode: Chunk, ghost ns: seq<Chunk>, ghost k: nat)
    requires Chained(ns, -1) && Apart(ns, |ns|) && k < |ns| && ns[k] == node && newNode !in ns
    modifies node`next, newNode`prev, newNode`next, (if k + 1 < |ns| then {ns[k + 1]} else {})`prev
    ensures Chained(Inserted(ns, k + 1, newNode), -1)
  {
    hide Inserted, Apart;
    ApartAt(ns, k);
    if k + 1 < |ns| { ApartAt(ns, k + 1); }
    newNode.prev := node;
    newNode.next := node.next;
    if node.next != null { node.next.prev := newNode; }
    node.next := newNode;
    CloseGap(ns, k + 1, newNode);
  }

  /** Links newNode in below chunk k of a chain. */
  method LinkBefore(node: Chunk, newNode: Chunk, ghost ns: seq<Chunk>, ghost k: nat)
    requires Chained(ns, -1) && Apart(ns, |ns|) && k < |ns| && ns[k] == node && newNode !in ns
    modifies node`prev, newNode`prev, newNode`next, (if k > 0 then {ns[k - 1]} else {})`next
    ensures Chained(Inserted(ns, k, newNode), -1)
  {
    hide Inserted, Apart;
    ApartAt(ns, k);
    if k > 0 { ApartAt(ns, k - 1); }
    newNode.prev := node.prev;
    newNode.next := node;
    if node.prev != null { node.prev.next := newNode; }
    node.prev := newNode;
    CloseGap(ns, k, newNode);
  }

  /** Links the neighbours of chunk k of a chain to each other. */
  method UnlinkAt(node: Chunk, ghost ns: seq<Chunk>, ghost k: nat)
    requires Chained(ns, -1) && Apart(ns, |ns|) && k < |ns| && ns[k] == node
    modifies (if k > 0 then {ns[k - 1]} else {})`next, (if k + 1 < |ns| then {ns[k + 1]} else {})`prev
    ensures Chained(Removed(ns, k), -1)
  {
    hide Removed, Apart;
    if k > 0 { ApartAt(ns, k - 1); }
    if k + 1 < |ns| { ApartAt(ns, k + 1); }
    if node.prev != null { node.prev.next := node.next; }
    if node.next != null { node.next.prev := node.prev; }
    DropChunk(ns, k);
  }

  /** LinkedList<chunk_t>: nodes is the list read from first along next. */
  class ChunkList {
    var first: Chunk?
    var last: Chunk?
    ghost var nodes: seq<Chunk>
    ghost var repr: set<Chunk>  // every chunk that is or was in the list

    ghost predicate Linked()
      reads this, repr`prev, repr`next
    {
      && (forall i :: 0 <= i < |nodes| ==> nodes[i] in repr)
      && (nodes == [] ==> first == null && last == null)
      && (nodes != [] ==> first == nodes[0] && last == nodes[|nodes| - 1])
      && Chained(nodes, -1)
      && Apart(nodes, |nodes|)
    }

    constructor ()
      ensures Linked() && nodes == [] && repr == {}
    {
      first, last, nodes, repr := null, null, [], {};
    }

    /** What a cursor on chunk i sees. */
    lemma At(i: nat)
      requires Linked() && i < |nodes|
      ensures nodes[i].prev == if i == 0 then null else nodes[i - 1]
      ensures nodes[i].next == if i + 1 == |nodes| then null else nodes[i + 1]
    {
    }

    lemma Ends()
      requires Linked()
      ensures first == if nodes == [] then null else nodes[0]
    {
    }

    method InsertAfter(node: Chunk, newNode: Chunk, ghost k: nat)
      requires Linked() && k < |nodes| && nodes[k] == node && newNode !in repr
      modifies this, node`next, repr`prev, newNode`prev, newNode`next
      ensures Linked() && repr == old(repr) + {newNode}
      ensures nodes == Inserted(old(nodes), k + 1, newNode)
    {
      hide Inserted, Apart, Chained;
      ghost var ns := nodes;
      At(k);
      if node.next == null { last := newNode; }
      LinkAfter(node, newNode, ns, k);
      ApartInsert(ns, k + 1, newNode);
      nodes, repr := Inserted(ns, k + 1, newNode), repr + {newNode};
    }

    method InsertBefore(node: Chunk, newNode: Chunk, ghost k: nat)
      requires Linked() && k < |nodes| && nodes[k] == node && newNode !in repr
      modifies this, node`prev, repr`next, newNode`prev, newNode`next
      ensures Linked() && repr == old(repr) + {newNode}
      ensures nodes == Inserted(old(nodes), k, newNode)
    {
      hide Inserted, Apart, Chained;
      ghost var ns := nodes;
      At(k);
      if node.prev == null { first := newNode; }
      LinkBefore(node, newNode, ns, k);
      ApartInsert(ns, k, newNode);
      nodes, repr := Inserted(ns, k, newNode), repr + {newNode};
    }

    method InsertHead(newNode: Chunk)
      requires Linked() && newNode !in repr
      modifies this, repr`prev, newNode`prev, newNode`next
      ensures Linked() && repr == old(repr) + {newNode}
      ensures nodes == Inserted(old(nodes), 0, newNode)
    {
      hide Inserted, Apart;
      ApartInsert(nodes, 0, newNode);
      if nodes != [] { ApartAt(nodes, 0); }
      if first == null {
        first, last := newNode, newNode;
        newNode.prev, newNode.next := null, null;
      } else {
        newNode.prev := null;
        newNode.next := first;
        first.prev := newNode;
        first := newNode;
      }
      CloseGap(nodes, 0, newNode);
      nodes, repr := Inserted(nodes, 0, newNode), repr + {newNode};
    }

    method Remove(node: Chunk, ghost k: nat)
      requires Linked() && k < |nodes| && nodes[k] == node
      modifies this, repr`prev, repr`next
      ensures Linked() && repr == old(repr)
      ensures nodes == Removed(old(nodes), k)
    {
      hide Removed, Apart, Chained;
      ghost var ns := nodes;
      At(k);
      if node.prev == null { first := node.next; }
      if node.next == null { last := node.prev; }
      UnlinkAt(node, ns, k);
      ApartRemove(ns, k);
      nodes := Removed(ns, k);
    }
  }

  /** r is what allocate returns for a request that changes the chunks from bs to after: the byte offset of the run it
      has taken, or -ENOMEM. */
  ghost predicate Answers(r: int, bs: seq<Block>, after: seq<Block>, size: nat, n: nat) {
    (r == -12 && HeapRuns.Outcome(bs, after, size, n, -1)) ||
    exists s: nat :: r == Signed(32 * s) && HeapRuns.Outcome(bs, after, size, n, s)
  }

  lemma AnswersBySize(bs: seq<Block>, size: nat)
    ensures var k := BestHost(bs, Units(size));
      forall total, n :: WellFormed(bs, total) && HeapRuns.Least(size, n) ==>
        if k < 0 then Answers(-ENOMEM, bs, bs, size, n)
        else Answers(Signed(Bytes(Carved(bs[k], Units(size)).start)), bs, Place(bs, k, Units(size)), size, n)
  {
    hide Place, HeapRuns.Outcome, WellFormed, Signed, BestHost, HeapRuns.Least;
    forall total: nat, n: nat | WellFormed(bs, total) && HeapRuns.Least(size, n)
      ensures var k := BestHost(bs, Units(size));
        if k < 0 then Answers(-ENOMEM, bs, bs, size, n)
        else Answers(Signed(Bytes(Carved(bs[k], Units(size)).start)), bs, Place(bs, k, Units(size)), size, n)
    {
      HeapRuns.PlacedBySize(bs, total, size, n);
    }
  }

  /** SimpleBestFitAllocator; blocks is the chunk list seen as values. */
  class Allocator {
    const list: ChunkList
    var heapSize: nat
    ghost var blocks: seq<Block>

    ghost predicate Valid()
      reads this, list, list.repr
    {
      list.Linked() && Holding()
    }

    ghost predicate Holding()
      reads this, list, list.repr
    {
      && |blocks| == |list.nodes|
      && (forall i :: 0 <= i < |list.nodes| ==> list.nodes[i] in list.repr)
      && (forall i :: 0 <= i < |blocks| ==> list.nodes[i].Value() == blocks[i])
    }

    lemma Shown()
      requires Valid()
      ensures |list.nodes| == |blocks|
    {
    }

    lemma Shows(k: nat)
      requires Valid() && k < |blocks|
      ensures |list.nodes| == |blocks| && list.nodes[k].Value() == blocks[k] && list.nodes[k] in list.repr
    {
    }

    constructor ()
      ensures Valid() && blocks == [] && heapSize == 0 && fresh(list) && list.repr == {}
    {
      list := new ChunkList();
      heapSize, blocks := 0, [];
    }

    method SetSize(size: nat) returns (r: int)
      requires Valid() && size < SIZE_MOD
      modifies this, list, list.repr
      ensures Valid()
      ensures fresh(list.repr - old(list.repr))
      ensures old(heapSize) != 0 ==> r == -EINVAL && heapSize == old(heapSize) && blocks == old(blocks)
      ensures old(heapSize) == 0 ==> r == Signed(size) && heapSize == RoundToPage(size)
      ensures old(heapSize) == 0 ==> blocks == Inserted(old(blocks), 0, Block(0, UnitOf(heapSize), true))
    {
      hide ChunkList.Linked;
      if heapSize != 0 { return -EINVAL; }
      heapSize := RoundToPage(size);
      var node := new Chunk(0, UnitOf(heapSize));
      list.InsertHead(node);
      blocks := Inserted(blocks, 0, node.Value());
      r := Signed(size);
    }

    method Allocate(size: nat) returns (r: int)
      requires Valid() && size < SIZE_MOD
      modifies `blocks, list, list.repr
      ensures Valid()
      ensures fresh(list.repr - old(list.repr))
      ensures var need := Units(size); var k := BestHost(old(blocks), need);
        if heapSize == 0 then r == -EINVAL && blocks == old(blocks)
        else if size == 0 then r == 0 && blocks == old(blocks)
        else if k < 0 then r == -ENOMEM && blocks == old(blocks)
        else r == Signed(Bytes(Carved(old(blocks)[k], need).start)) && blocks == Place(old(blocks), k, need)
      ensures forall total, n :: heapSize != 0 && WellFormed(old(blocks), total) && HeapRuns.Least(size, n) ==>
        Answers(r, old(blocks), blocks, size, n)
    {
      hide ChunkList.Linked;
      if heapSize == 0 { return -EINVAL; }
      if size == 0 { return 0; }
      var need := Units(size);
      AnswersBySize(blocks, size);
      var host, k := Scan(need);
      if host == null { return -ENOMEM; }
      Carve(host, need, k);
      r := Signed(Bytes(host.start));
    }

    /** The search loop of alloc, with its early exit on an exact fit. */
    method Scan(need: nat) returns (host: Chunk?, ghost k: int)
      requires Valid()
      ensures k == BestHost(blocks, need)
      ensures host == if k < 0 then null else list.nodes[k]
    {
      hide ChunkList.Linked, Extra, Holding;
      list.Ends();
      Shown();
      ghost var i := 0;
      var cur := list.first;
      host, k := null, -1;
      while cur != null
        invariant 0 <= i <= |blocks|
        invariant cur == if i < |blocks| then list.nodes[i] else null
        invariant k == HostIn(blocks, need, i)
        invariant host == if k < 0 then null else list.nodes[k]
        decreases |blocks| - i
      {
        list.At(i);
        Shows(i);
        if k >= 0 { Shows(k); }
        if cur.free && cur.size >= need + Extra(cur.start) {
          if host == null || cur.size < host.size {
            host, k := cur, i;
          }
          if cur.size == need {
            ExactFitSettles(blocks, need, i, i + 1);
            return;
          }
        }
        cur, i := cur.next, i + 1;
      }
    }

    /** Stores new fields in chunk k. */
    method Write(chunk: Chunk, start: nat, size: nat, free: bool, ghost k: nat)
      requires Valid() && k < |blocks| && list.nodes[k] == chunk
      modifies `blocks, chunk`start, chunk`size, chunk`free
      ensures Valid() && blocks == old(blocks)[k := Block(start, size, free)]
      ensures chunk.Value() == Block(start, size, free)
    {
      ApartAt(list.nodes, k);
      chunk.start, chunk.size, chunk.free := start, size, free;
      blocks := blocks[k := chunk.Value()];
    }

    /** Splits the host into free head, used block and free tail. */
    method Carve(host: Chunk, need: nat, ghost k: nat)
      requires Valid() && k < |blocks| && list.nodes[k] == host && Fits(blocks[k], need)
      modifies `blocks, list, list.repr
      ensures Valid()
      ensures fresh(list.repr - old(list.repr))
      ensures blocks == Place(old(blocks), k, need)
      ensures host.start == Carved(old(blocks)[k], need).start
    {
      hide ChunkList.Linked, Valid, Holding, Place, Around, Extra;
      Shows(k);
      ghost var bs := blocks;
      var freeSize := host.size;
      PlaceSteps(bs, k, need);
      Write(host, host.start, need, false, k);
      if freeSize > need {
        var extra := Extra(host.start);
        SplitHost(host, extra, freeSize - (need + extra), k);
      }
    }

    /** Gives the units around a shrunk host back as free chunks. */
    method SplitHost(host: Chunk, extra: nat, rest: nat, ghost k: nat)
      requires Valid() && k < |blocks| && list.nodes[k] == host
      modifies `blocks, list, list.repr
      ensures Valid()
      ensures fresh(list.repr - old(list.repr))
      ensures host.start == old(host.start) + extra
      ensures blocks == Around(old(blocks), k, extra, rest)
    {
      hide ChunkList.Linked, Valid, Holding, Inserted;
      Shows(k);
      ghost var at := k;
      if extra != 0 {
        ghost var _ := SplitBefore(host, extra, k);
        at := k + 1;
      }
      if rest > 0 {
        ghost var _ := SplitAfter(host, rest, at);
      }
    }

    /** Puts a free chunk of extra units before the host, which moves up by as much. */
    method SplitBefore(host: Chunk, extra: nat, ghost k: nat) returns (ghost split: Chunk)
      requires Valid() && k < |blocks| && list.nodes[k] == host
      modifies `blocks, list, list.repr`prev, list.repr`next, host
      ensures Valid()
      ensures fresh(split) && list.repr == old(list.repr) + {split} && list.nodes == Inserted(old(list.nodes), k, split)
      ensures host.Value() == old(host.Value()).(start := old(host.start) + extra)
      ensures blocks == Inserted(old(blocks)[k := host.Value()], k, Block(old(host.start), extra, true))
    {
      hide ChunkList.Linked;
      var node := new Chunk(host.start, extra);
      Write(host, host.start + extra, host.size, host.free, k);
      list.InsertBefore(host, node, k);
      blocks := Inserted(blocks, k, node.Value());
      split := node;
    }

    /** Adds a free chunk of rest units right above the host. */
    method SplitAfter(host: Chunk, rest: nat, ghost k: nat) returns (ghost split: Chunk)
      requires Valid() && k < |blocks| && list.nodes[k] == host
      modifies `blocks, list, list.repr`prev, list.repr`next
      ensures Valid()
      ensures fresh(split) && list.repr == old(list.repr) + {split}
      ensures list.nodes == Inserted(old(list.nodes), k + 1, split)
      ensures blocks == Inserted(old(blocks), k + 1, Block(End(old(blocks)[k]), rest, true))
    {
      hide ChunkList.Linked;
      var node := new Chunk(host.start + host.size, rest);
      list.InsertAfter(host, node, k);
      blocks := Inserted(blocks, k + 1, node.Value());
      split := node;
    }

    method Deallocate(offset: nat) returns (r: int)
      requires Valid() && offset < SIZE_MOD
      modifies `blocks, list, list.repr
      ensures Valid()
      ensures list.repr == old(list.repr)
      ensures var i := Find(old(blocks), UnitOf(offset));
        if heapSize == 0 then r == -EINVAL && blocks == old(blocks)
        else if i == |old(blocks)| then r == -ENOENT && blocks == old(blocks)
        else r == 0 && blocks == Release(old(blocks), i)
    {
      hide ChunkList.Linked;
      if heapSize == 0 { return -EINVAL; }
      var cur, i := Lookup(UnitOf(offset));
      if cur == null { return -ENOENT; }
      Write(cur, cur.start, cur.size, true, i);
      MergeAround(cur, i);
      r := 0;
    }

    method Lookup(unit: nat) returns (cur: Chunk?, ghost i: nat)
      requires Valid()
      ensures i == Find(blocks, unit)
      ensures cur == if i < |blocks| then list.nodes[i] else null
    {
      hide ChunkList.Linked;
      list.Ends();
      cur, i := list.first, 0;
      while cur != null && cur.start != unit
        invariant 0 <= i <= |blocks| && cur == if i < |blocks| then list.nodes[i] else null
        invariant Find(blocks, unit) == i + Find(blocks[i..], unit)
        decreases |blocks| - i
      {
        assert blocks[i..][1..] == blocks[i + 1..];
        list.At(i);
        cur, i := cur.next, i + 1;
      }
    }

    /** The merging loop of dealloc, entered with the cursor on chunk k. */
    method MergeAround(chunk: Chunk, ghost k: nat)
      requires Valid() && k < |blocks| && list.nodes[k] == chunk
      modifies `blocks, list, list.repr
      ensures Valid()
      ensures list.repr == old(list.repr)
      ensures blocks == MergeFrom(old(blocks), k)
    {
      hide ChunkList.Linked;
      var cur: Chunk?, more := chunk, true;
      ghost var i: nat := k;
      while more
        invariant Valid()
        invariant list.repr == old(list.repr)
        invariant more ==> i < |blocks| && cur == list.nodes[i]
        invariant more ==> MergeFrom(blocks, i) == MergeFrom(old(blocks), k)
        invariant !more ==> blocks == MergeFrom(old(blocks), k)
        decreases more, |blocks| - i
      {
        list.At(i);
        var p, n := cur.prev, cur.next;
        if p != null && (p.free || cur.size == 0) {
          Absorb(p, cur, i);
        } else {
          i := i + 1;
        }
        cur := n;
        more := cur != null && cur.free;
      }
    }

    /** Adds chunk k to the chunk below it and unlinks it. */
    method Absorb(p: Chunk, chunk: Chunk, ghost k: nat)
      requires Valid() && 0 < k < |blocks| && list.nodes[k - 1] == p && list.nodes[k] == chunk
      modifies `blocks, list, list.repr
      ensures Valid() && list.nodes == Removed(old(list.nodes), k) && list.repr == old(list.repr)
      ensures blocks == MergeDown(old(blocks), k)
    {
      hide ChunkList.Linked;
      Write(p, p.start, p.size + chunk.size, p.free, k - 1);
      list.Remove(chunk, k);
      blocks := Removed(blocks, k);
    }
  }

  /** Any legal run on the linked list: it stays linked both ways, and its chunks are
      those of the run on values, which HeapRuns.RunKeeps shows to be well formed. */
  method Replay(size: nat, ops: seq<HeapRuns.Op>) returns (a: Allocator)
    requires 0 < RoundToPage(size) && size < SIZE_MOD
    requires HeapRuns.LegalRun(HeapRuns.Fresh(UnitOf(RoundToPage(size))), ops)
    requires forall op :: op in ops && op.Free? ==> op.offset < SIZE_MOD
    ensures a.Valid()
    ensures a.blocks == HeapRuns.Run(HeapRuns.Fresh(UnitOf(RoundToPage(size))), ops).blocks
    ensures WellFormed(a.blocks, UnitOf(RoundToPage(size)))
  {
    hide ChunkList.Linked, Allocator.Valid, Allocator.Holding, Place, Release, HeapRuns.Tracks, Units, BestHost;
    a := new Allocator();
    var _ := a.SetSize(size);
    ghost var start := HeapRuns.Fresh(UnitOf(RoundToPage(size)));
    ghost var h := start;
    assert a.blocks == h.blocks;
    for i := 0 to |ops|
      invariant a.Valid() && fresh(a) && fresh(a.list) && fresh(a.list.repr)
      invariant a.heapSize == RoundToPage(size) && a.blocks == h.blocks
      invariant HeapRuns.LegalRun(h, ops[i..])
      invariant HeapRuns.Run(h, ops[i..]) == HeapRuns.Run(start, ops)
    {
      assert ops[i..][0] == ops[i] && ops[i..][1..] == ops[i + 1..];
      assert ops[i] in ops;
      match ops[i] {
        case Alloc(n) => var _ := a.Allocate(n);
        case Free(offset) => var _ := a.Deallocate(offset);
      }
      h := HeapRuns.Apply(h, ops[i]);
    }
    HeapRuns.FreshInv(UnitOf(RoundToPage(size)));
    HeapRuns.RunKeeps(start, UnitOf(RoundToPage(size)), ops);
  }
}
