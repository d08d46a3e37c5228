/** The RIL shim's heap copies: a header and the strings it points to, packed into one allocation. */
module ShimCopies {
  import opened Words

  const PTR_SIZE := 4
  const SIM_IO_QC_SIZE := 40

  datatype CStr = Null | Str(bytes: seq<int>)

  /** The bytes of a C string hold no terminator. */
  ghost predicate Text(c: CStr) {
    c.Str? ==> forall i :: 0 <= i < |c.bytes| ==> c.bytes[i] != 0
  }

  function StrSize(c: CStr): nat {
    if c.Null? then 0 else |c.bytes| + 1
  }

  // ------------------------------------------------------------------- memory

  /** The bytes of an allocation; addr is where malloc has put it. */
  type Memory = seq<int>

  /** The 32-bit word at an offset, low byte first. */
  function Word(mem: Memory, at: nat): int
    requires at + 4 <= |mem|
  {
    mem[at] + 0x100 * mem[at + 1] + 0x1_0000 * mem[at + 2] + 0x100_0000 * mem[at + 3]
  }

  /** The string that starts at an offset, as a reader of the copy sees it. */
  function ReadAt(mem: Memory, at: nat): seq<int>
    decreases |mem| - at
  {
    if at >= |mem| || mem[at] == 0 then [] else [mem[at]] + ReadAt(mem, at + 1)
  }

  // ------------------------------------------------------------------ packing

  /** The room the first n strings take. */
  function Room(cs: seq<CStr>, n: nat): nat
    requires n <= |cs|
  {
    if n == 0 then 0 else Room(cs, n - 1) + StrSize(cs[n - 1])
  }

  /** The bytes of c and its terminator stand at an offset. */
  ghost predicate Copied(mem: Memory, at: nat, c: CStr) {
    c.Str? ==> at + |c.bytes| < |mem| && mem[at..at + |c.bytes|] == c.bytes && mem[at + |c.bytes|] == 0
  }

  /** The first n strings stand one after another from base on. */
  ghost predicate Packed(mem: Memory, base: nat, cs: seq<CStr>, n: nat)
    requires n <= |cs|
  {
    forall k :: 0 <= k < n ==> Copied(mem, base + Room(cs, k), cs[k])
  }

  /** The pointer to string k as the header holds it. */
  function PtrTo(addr: nat, base: nat, cs: seq<CStr>, k: nat): int
    requires k < |cs|
  {
    if cs[k].Null? then 0 else addr + base + Room(cs, k)
  }

  /** The first n words of the header. */
  ghost predicate Header(mem: Memory, words: seq<int>, n: nat)
    requires n <= |words|
  {
    4 * n <= |mem| && forall k :: 0 <= k < n ==> Word(mem, 4 * k) == words[k]
  }

  lemma {:induction false} RoomGrows(cs: seq<CStr>, k: nat, n: nat)
    requires k < n <= |cs|
    ensures Room(cs, k) + StrSize(cs[k]) <= Room(cs, n)
  {
    if k + 1 < n { RoomGrows(cs, k, n - 1); }
  }

  lemma NothingYet(mem: Memory, base: nat, cs: seq<CStr>, words: seq<int>)
    ensures Room(cs, 0) == 0 && Packed(mem, base, cs, 0) && Header(mem, words, 0)
  {
  }

  lemma RoomNext(cs: seq<CStr>, n: nat)
    requires n < |cs|
    ensures Room(cs, n + 1) == Room(cs, n) + StrSize(cs[n])
  {
  }

  lemma {:induction false} RoomPrefix(cs: seq<CStr>, ds: seq<CStr>, n: nat)
    requires n <= |cs| && n <= |ds| && cs[..n] == ds[..n]
    ensures Room(cs, n) == Room(ds, n)
  {
    if n > 0 {
      assert cs[..n][n - 1] == ds[..n][n - 1];
      assert cs[..n - 1] == cs[..n][..n - 1] == ds[..n - 1];
      RoomPrefix(cs, ds, n - 1);
    }
  }

  lemma {:induction false} ReadsBack(mem: Memory, at: nat, bytes: seq<int>)
    requires Copied(mem, at, Str(bytes)) && Text(Str(bytes))
    ensures ReadAt(mem, at) == bytes
    decreases |bytes|
  {
    if bytes != [] {
      assert mem[at] == mem[at..at + |bytes|][0];
      assert mem[at + 1..at + |bytes|] == mem[at..at + |bytes|][1..] == bytes[1..];
      assert Text(Str(bytes[1..]));
      ReadsBack(mem, at + 1, bytes[1..]);
    }
  }

  /** The copies lie one after another, behind the header and inside the allocation. */
  lemma PackedApart(mem: Memory, addr: nat, base: nat, cs: seq<CStr>, k: nat, l: nat)
    requires |mem| == base + Room(cs, |cs|) && k < l < |cs| && cs[k].Str? && cs[l].Str?
    ensures var p, q := PtrTo(addr, base, cs, k) - addr, PtrTo(addr, base, cs, l) - addr;
      base <= p && p + StrSize(cs[k]) <= q && q + StrSize(cs[l]) <= |mem|
  {
    RoomGrows(cs, k, l);
    RoomGrows(cs, l, |cs|);
  }

  // ------------------------------------------------------------------ writing

  method StoreWord(mem: array<int>, at: nat, v: nat)
    requires at + 4 <= mem.Length && v < 0x1_0000_0000
    modifies mem
    ensures Word(mem[..], at) == v
    ensures forall i :: 0 <= i < mem.Length && !(at <= i < at + 4) ==> mem[i] == old(mem[i])
  {
    var a := v / 0x100;
    var b := a / 0x100;
    mem[at], mem[at + 1], mem[at + 2], mem[at + 3] := v % 0x100, a % 0x100, b % 0x100, b / 0x100;
  }

  /** copyStr: writes the string at the cursor and moves the cursor past its terminator; the result is an
      offset, or -1 for NULL. */
  method CopyStr(mem: array<int>, dst: nat, src: CStr) returns (ret: int, next: nat)
    requires dst + StrSize(src) <= mem.Length
    modifies mem
    ensures ret == (if src.Null? then -1 else dst) && next == dst + StrSize(src) && Copied(mem[..], dst, src)
    ensures forall i :: 0 <= i < mem.Length && !(dst <= i < next) ==> mem[i] == old(mem[i])
  {
    if src.Null? {
      return -1, dst;
    }
    var len := |src.bytes|;
    forall i | dst <= i < dst + len {
      mem[i] := src.bytes[i - dst];
    }
    mem[dst + len] := 0;
    assert mem[..][dst..dst + len] == src.bytes;
    return dst, dst + len + 1;
  }

  /** Strings stay where they are while the header before them and the room behind them are written. */
  lemma PackedStays(was: Memory, mem: Memory, base: nat, cs: seq<CStr>, n: nat)
    requires n <= |cs| && Packed(was, base, cs, n) && |mem| == |was|
    requires forall i :: base <= i < |mem| && i < base + Room(cs, n) ==> mem[i] == was[i]
    ensures Packed(mem, base, cs, n)
  {
    hide Room;
    forall k | 0 <= k < n
      ensures Copied(mem, base + Room(cs, k), cs[k])
    {
      RoomGrows(cs, k, n);
      var at := base + Room(cs, k);
      assert Copied(was, at, cs[k]);
      if cs[k].Str? { assert mem[at..at + |cs[k].bytes|] == was[at..at + |cs[k].bytes|]; }
    }
  }

  lemma HeaderStays(was: Memory, mem: Memory, words: seq<int>, n: nat)
    requires n <= |words| && Header(was, words, n) && |mem| == |was|
    requires forall i :: 0 <= i < 4 * n ==> mem[i] == was[i]
    ensures Header(mem, words, n)
  {
    forall k | 0 <= k < n
      ensures Word(mem, 4 * k) == words[k]
    {
      assert Word(was, 4 * k) == words[k];
    }
  }

  /** What the allocation holds when h words of the header and n of the strings are written. */
  ghost predicate Filled(mem: Memory, base: nat, words: seq<int>, h: nat, cs: seq<CStr>, n: nat)
    requires h <= |words| && n <= |cs|
  {
    Header(mem, words, h) && Packed(mem, base, cs, n)
  }

  /** The next word of the header. */
  method Put(mem: array<int>, base: nat, ghost words: seq<int>, h: nat, ghost cs: seq<CStr>, ghost n: nat, v: nat)
    requires h < |words| && 4 * |words| <= base <= mem.Length && n <= |cs| && words[h] == v < 0x1_0000_0000
    requires Filled(mem[..], base, words, h, cs, n)
    modifies mem
    ensures Filled(mem[..], base, words, h + 1, cs, n)
  {
    hide Word, Packed;
    ghost var was := mem[..];
    StoreWord(mem, 4 * h, v);
    HeaderStays(was, mem[..], words, h);
    PackedStays(was, mem[..], base, cs, n);
  }

  /** The next string, and the pointer to it as the next word of the header. */
  method Append(mem: array<int>, addr: nat, base: nat, ghost words: seq<int>, h: nat, ghost cs: seq<CStr>, ghost n: nat,
                src: CStr, str: nat)
    returns (next: nat)
    requires h < |words| && 4 * |words| <= base && n < |cs| && cs[n] == src && words[h] == PtrTo(addr, base, cs, n)
    requires base + Room(cs, |cs|) <= mem.Length && addr + mem.Length < 0x1_0000_0000
    requires str == base + Room(cs, n) && Filled(mem[..], base, words, h, cs, n)
    modifies mem
    ensures Filled(mem[..], base, words, h + 1, cs, n + 1) && next == base + Room(cs, n + 1)
  {
    hide Copied, Room, Word, Header;
    RoomNext(cs, n);
    RoomGrows(cs, n, |cs|);
    ghost var was := mem[..];
    var ret;
    ret, next := CopyStr(mem, str, src);
    HeaderStays(was, mem[..], words, h);
    PackedStays(was, mem[..], base, cs, n);
    Put(mem, base, words, h, cs, n + 1, if ret < 0 then 0 else addr + ret);
  }

  // ------------------------------------------------------------- the two copies

  /** The pointers stringsWithAid leaves in front of the strings. */
  ghost function Pointers(addr: nat, base: nat, cs: seq<CStr>): (ws: seq<int>)
    ensures |ws| == |cs| && forall k :: 0 <= k < |cs| ==> ws[k] == PtrTo(addr, base, cs, k)
  {
    seq(|cs|, k requires 0 <= k < |cs| => PtrTo(addr, base, cs, k))
  }

  /** stringsWithAid: the caller's strings with the application identifier behind them. addr is what malloc
      returns, 0 if it fails. */
  method StringsWithAid(strings: seq<CStr>, aid: CStr, addr: nat) returns (mem: array?<int>)
    requires addr + PTR_SIZE * (|strings| + 1) + Room(strings + [aid], |strings| + 1) < 0x1_0000_0000
    ensures mem != null <==> addr > 0
    ensures addr > 0 ==>
      var all, base := strings + [aid], PTR_SIZE * (|strings| + 1);
      && fresh(mem) && mem.Length == base + Room(all, |all|)
      && Filled(mem[..], base, Pointers(addr, base, all), |all|, all, |all|)
  {
    hide Copied, Packed, Room, Header, Word, PtrTo;
    ghost var all := strings + [aid];
    var n := |strings|;
    var base := (n + 1) * PTR_SIZE;
    var size := base + StrSize(aid);
    ghost var words := Pointers(addr, base, all);
    NothingYet([], 0, strings, []);
    for i := 0 to n
      invariant size == base + StrSize(aid) + Room(strings, i)
    {
      RoomNext(strings, i);
      size := size + StrSize(strings[i]);
    }
    RoomPrefix(strings, all, n);
    RoomNext(all, n);
    if addr == 0 {
      return null;
    }
    mem := new int[size];
    var str := base;
    NothingYet(mem[..], base, all, words);
    for i := 0 to n
      invariant str == base + Room(all, i) && Filled(mem[..], base, words, i, all, i)
    {
      str := Append(mem, addr, base, words, i, all, i, strings[i], str);
    }
    str := Append(mem, addr, base, words, n, all, n, aid, str);
  }

  datatype SimIo = SimIo(command: int, fileid: int, path: CStr, p1: int, p2: int, p3: int, data: CStr, pin2: CStr)

  function Strings(io: SimIo, aid: CStr): (cs: seq<CStr>)
    ensures |cs| == 4
  {
    [io.path, io.data, io.pin2, aid]
  }

  /** The vendor's layout: ten words, the leading one 0, with pointers to the four strings among them. */
  ghost function Layout(io: SimIo, aid: CStr, addr: nat): (ws: seq<int>)
    ensures |ws| == 10
  {
    var cs := Strings(io, aid);
    var ptr := k requires 0 <= k < 4 => PtrTo(addr, SIM_IO_QC_SIZE, cs, k);
    [0, U32(io.command), U32(io.fileid), ptr(0), U32(io.p1), U32(io.p2), U32(io.p3), ptr(1), ptr(2), ptr(3)]
  }

  /** simIoToQc: the vendor's layout of a SIM access, with its four strings behind it. */
  method SimIoToQc(io: SimIo, aid: CStr, addr: nat) returns (mem: array?<int>)
    requires addr + SIM_IO_QC_SIZE + Room(Strings(io, aid), 4) < 0x1_0000_0000
    ensures mem != null <==> addr > 0
    ensures addr > 0 ==>
      && fresh(mem) && mem.Length == SIM_IO_QC_SIZE + Room(Strings(io, aid), 4)
      && Filled(mem[..], SIM_IO_QC_SIZE, Layout(io, aid, addr), 10, Strings(io, aid), 4)
  {
    hide Copied, Packed, Room, Header, Word, PtrTo, Filled;
    ghost var cs, words := Strings(io, aid), Layout(io, aid, addr);
    FourStrings(cs);
    if addr == 0 {
      return null;
    }
    mem := new int[SIM_IO_QC_SIZE + StrSize(io.path) + StrSize(io.data) + StrSize(io.pin2) + StrSize(aid)];
    var base, str := SIM_IO_QC_SIZE, SIM_IO_QC_SIZE;
    NoneFilled(mem[..], base, cs, words);
    Put(mem, base, words, 0, cs, 0, 0);
    Put(mem, base, words, 1, cs, 0, U32(io.command));
    Put(mem, base, words, 2, cs, 0, U32(io.fileid));
    str := Append(mem, addr, base, words, 3, cs, 0, io.path, str);
    Put(mem, base, words, 4, cs, 1, U32(io.p1));
    Put(mem, base, words, 5, cs, 1, U32(io.p2));
    Put(mem, base, words, 6, cs, 1, U32(io.p3));
    str := Append(mem, addr, base, words, 7, cs, 1, io.data, str);
    str := Append(mem, addr, base, words, 8, cs, 2, io.pin2, str);
    str := Append(mem, addr, base, words, 9, cs, 3, aid, str);
  }

  lemma FourStrings(cs: seq<CStr>)
    requires |cs| == 4
    ensures Room(cs, 4) == StrSize(cs[0]) + StrSize(cs[1]) + StrSize(cs[2]) + StrSize(cs[3])
  {
    RoomNext(cs, 0);
    RoomNext(cs, 1);
    RoomNext(cs, 2);
    RoomNext(cs, 3);
  }

  lemma NoneFilled(mem: Memory, base: nat, cs: seq<CStr>, words: seq<int>)
    ensures Room(cs, 0) == 0 && Filled(mem, base, words, 0, cs, 0)
  {
  }

  // ------------------------------------------------------------- reading a copy

  /** Following word h of the header, which points to string k, gives the string back; absent strings have NULL. */
  lemma PackedReadsBack(mem: Memory, addr: nat, base: nat, words: seq<int>, h: nat, cs: seq<CStr>, k: nat)
    requires Filled(mem, base, words, |words|, cs, |cs|) && h < |words| && k < |cs| && addr > 0 && Text(cs[k])
    requires words[h] == PtrTo(addr, base, cs, k)
    ensures cs[k].Null? <==> Word(mem, 4 * h) == 0
    ensures cs[k].Str? ==> Word(mem, 4 * h) >= addr && ReadAt(mem, Word(mem, 4 * h) - addr) == cs[k].bytes
  {
    hide Room, ReadAt, Word;
    assert Word(mem, 4 * h) == words[h];
    assert Copied(mem, base + Room(cs, k), cs[k]);
    if cs[k].Str? { ReadsBack(mem, base + Room(cs, k), cs[k].bytes); }
  }

  /** What the vendor's library finds behind a pointer of the copy. */
  function Follow(mem: Memory, addr: nat, ptr: int): CStr {
    if ptr < addr || ptr == 0 then Null else Str(ReadAt(mem, ptr - addr))
  }

  /** Read through its own pointers, the copy of stringsWithAid holds the strings with the identifier behind them. */
  lemma StringsReadBack(mem: Memory, addr: nat, cs: seq<CStr>, k: nat)
    requires addr > 0 && k < |cs| && Text(cs[k])
    requires Filled(mem, PTR_SIZE * |cs|, Pointers(addr, PTR_SIZE * |cs|, cs), |cs|, cs, |cs|)
    ensures Follow(mem, addr, Word(mem, 4 * k)) == cs[k]
  {
    hide Filled, ReadAt, Word;
    PackedReadsBack(mem, addr, PTR_SIZE * |cs|, Pointers(addr, PTR_SIZE * |cs|, cs), k, cs, k);
  }

  lemma WordAt(mem: Memory, words: seq<int>, h: nat, at: nat)
    requires Header(mem, words, |words|) && h < |words| && at == 4 * h
    ensures Word(mem, at) == words[h]
  {
    hide Word;
    assert Word(mem, 4 * h) == words[h];
  }

  /** Read through its own pointers, the copy of simIoToQc is the SIM access it was made from. */
  lemma SimIoReadsBack(mem: Memory, addr: nat, io: SimIo, aid: CStr)
    requires addr > 0 && forall k :: 0 <= k < 4 ==> Text(Strings(io, aid)[k])
    requires Filled(mem, SIM_IO_QC_SIZE, Layout(io, aid, addr), 10, Strings(io, aid), 4)
    ensures |mem| >= SIM_IO_QC_SIZE && Word(mem, 0) == 0
    ensures Word(mem, 4) == U32(io.command) && Word(mem, 8) == U32(io.fileid)
    ensures Word(mem, 16) == U32(io.p1) && Word(mem, 20) == U32(io.p2) && Word(mem, 24) == U32(io.p3)
    ensures Follow(mem, addr, Word(mem, 12)) == io.path && Follow(mem, addr, Word(mem, 28)) == io.data
    ensures Follow(mem, addr, Word(mem, 32)) == io.pin2 && Follow(mem, addr, Word(mem, 36)) == aid
  {
    hide Packed, ReadAt, Word, Room, PtrTo, Text, U32;
    var words, cs := Layout(io, aid, addr), Strings(io, aid);
    WordAt(mem, words, 0, 0);
    WordAt(mem, words, 1, 4);
    WordAt(mem, words, 2, 8);
    WordAt(mem, words, 4, 16);
    WordAt(mem, words, 5, 20);
    WordAt(mem, words, 6, 24);
    PackedReadsBack(mem, addr, SIM_IO_QC_SIZE, words, 3, cs, 0);
    PackedReadsBack(mem, addr, SIM_IO_QC_SIZE, words, 7, cs, 1);
    PackedReadsBack(mem, addr, SIM_IO_QC_SIZE, words, 8, cs, 2);
    PackedReadsBack(mem, addr, SIM_IO_QC_SIZE, words, 9, cs, 3);
  }
}
