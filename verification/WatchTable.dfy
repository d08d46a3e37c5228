/** The descriptor watches of the RIL event loop: an eight-slot table beside select's descriptor set. */
module WatchTable {
  import opened Seqs
  import opened RilRings

  const MAX_FD_EVENTS := 8

  /** A ril_event that watches a descriptor; link is the part of it that the lists are linked through. */
  class Watch {
    const fd: nat
    const persist: bool
    const link: RilEvent
    var index: int

    constructor (fd: nat, persist: bool)
      ensures this.fd == fd && this.persist == persist && index == -1 && fresh(link)
    {
      this.fd, this.persist, index := fd, persist, -1;
      link := new RilEvent();
    }
  }

  type Slots = seq<Watch?>

  /** The first empty slot, or the length of the table. */
  function FirstFree(s: Slots): (k: nat)
    ensures k <= |s| && (k < |s| ==> s[k] == null)
    ensures forall i :: 0 <= i < k ==> s[i] != null
  {
    if s == [] || s[0] == null then 0 else 1 + FirstFree(s[1..])
  }

  /** One of the first j slots watches f. */
  ghost predicate Watches(s: Slots, f: int, j: nat)
    requires j <= |s|
  {
    exists i :: 0 <= i < j && s[i] != null && s[i].fd == f
  }

  ghost predicate DistinctFds(s: Slots) {
    forall i, j :: 0 <= i < j < |s| && s[i] != null && s[j] != null ==> s[i].fd != s[j].fd
  }

  /** fds is the set of watched descriptors. */
  ghost predicate FdsOf(s: Slots, fds: set<int>) {
    && (forall i :: 0 <= i < |s| && s[i] != null ==> s[i].fd in fds)
    && (forall f :: f in fds ==> Watches(s, f, |s|))
  }

  /** Select's first argument: one more than the greatest watched descriptor, at most 1 when there is none. */
  ghost predicate Bound(s: Slots, nfds: int) {
    && 0 <= nfds
    && (forall i :: 0 <= i < |s| && s[i] != null ==> s[i].fd < nfds)
    && (nfds > 1 ==> Watches(s, nfds - 1, |s|))
  }

  /** The table, select's descriptor set and select's bound agree. */
  ghost predicate Agree(s: Slots, fds: set<int>, nfds: int) {
    DistinctFds(s) && FdsOf(s, fds) && Bound(s, nfds)
  }

  lemma AgreeAdded(s: Slots, fds: set<int>, nfds: int, k: nat, ev: Watch)
    requires Agree(s, fds, nfds) && k < |s| && s[k] == null && ev.fd !in fds
    ensures Agree(s[k := ev], fds + {ev.fd}, if ev.fd >= nfds then ev.fd + 1 else nfds)
  {
    var t := s[k := ev];
    assert t[k].fd == ev.fd;
    forall f | f in fds
      ensures Watches(t, f, |t|)
    {
      var i :| 0 <= i < |s| && s[i] != null && s[i].fd == f;
      assert t[i] == s[i];
    }
  }

  lemma AgreeRemoved(s: Slots, fds: set<int>, nfds: int, k: nat, n: int)
    requires Agree(s, fds, nfds) && k < |s| && s[k] != null && Bound(s[k := null], n)
    ensures Agree(s[k := null], fds - {s[k].fd as int}, n)
  {
    var t := s[k := null];
    forall f | f in fds && f != s[k].fd
      ensures Watches(t, f, |t|)
    {
      var i :| 0 <= i < |s| && s[i] != null && s[i].fd == f;
      assert t[i] == s[i];
    }
  }

  /** Removing a watch below the bound leaves the bound right. */
  lemma BoundStays(s: Slots, nfds: int, k: nat)
    requires Bound(s, nfds) && k < |s| && s[k] != null && s[k].fd + 1 != nfds
    ensures Bound(s[k := null], nfds)
  {
    var t := s[k := null];
    if nfds > 1 {
      var i :| 0 <= i < |s| && s[i] != null && s[i].fd == nfds - 1;
      assert t[i] == s[i];
    }
  }

  // ------------------------------------------------- what a wake-up dispatches

  predicate Ready(s: Slots, rfds: set<int>, j: nat)
    requires j < |s|
  {
    s[j] != null && s[j].fd in rfds
  }

  /** How many of the first j slots are ready. */
  function Count(s: Slots, rfds: set<int>, j: nat): (c: nat)
    requires j <= |s|
  {
    if j == 0 then 0 else Count(s, rfds, j - 1) + if Ready(s, rfds, j - 1) then 1 else 0
  }

  /** Slot j is served when select reported n descriptors. */
  predicate Hit(s: Slots, rfds: set<int>, n: int, j: nat)
    requires j < |s|
  {
    Ready(s, rfds, j) && Count(s, rfds, j) < n
  }

  /** The watches served among the first j slots, in slot order. */
  function Served(s: Slots, rfds: set<int>, n: int, j: nat): (q: seq<Watch>)
    requires j <= |s|
  {
    if j == 0 then [] else Served(s, rfds, n, j - 1) + if Hit(s, rfds, n, j - 1) then [s[j - 1]] else []
  }

  /** What is left in a slot: a watch that is served and not persistent leaves the table. */
  function Left(s: Slots, rfds: set<int>, n: int, j: nat): Watch?
    requires j < |s|
  {
    if Hit(s, rfds, n, j) && !s[j].persist then null else s[j]
  }

  lemma {:induction false} CountGrows(s: Slots, rfds: set<int>, i: nat, j: nat)
    requires i <= j <= |s|
    ensures Count(s, rfds, i) <= Count(s, rfds, j)
  {
    if i < j { CountGrows(s, rfds, i, j - 1); }
  }

  /** Once n watches are served no later slot is. */
  lemma {:induction false} ServedStops(s: Slots, rfds: set<int>, n: int, i: nat, j: nat)
    requires i <= j <= |s| && Count(s, rfds, i) >= n
    ensures Served(s, rfds, n, j) == Served(s, rfds, n, i)
  {
    if i < j {
      CountGrows(s, rfds, i, j - 1);
      ServedStops(s, rfds, n, i, j - 1);
    }
  }

  /** The ready descriptors found in the first j slots. */
  ghost function Seen(s: Slots, rfds: set<int>, j: nat): (fds: set<int>)
    requires j <= |s|
  {
    if j == 0 then {} else Seen(s, rfds, j - 1) + if Ready(s, rfds, j - 1) then {s[j - 1].fd} else {}
  }

  lemma {:induction false} SeenCounts(s: Slots, rfds: set<int>, j: nat)
    requires j <= |s| && DistinctFds(s)
    ensures Seen(s, rfds, j) <= rfds && |Seen(s, rfds, j)| == Count(s, rfds, j)
    ensures forall f :: f in Seen(s, rfds, j) ==> Watches(s, f, j)
  {
    if j > 0 {
      SeenCounts(s, rfds, j - 1);
      if Ready(s, rfds, j - 1) {
        assert s[j - 1].fd !in Seen(s, rfds, j - 1);
      }
    }
  }

  /** With the count select reports, every ready watch is served: none starves behind a lower slot. */
  lemma AllReadyServed(s: Slots, rfds: set<int>, n: int, j: nat)
    requires DistinctFds(s) && |rfds| <= n && j < |s|
    ensures Hit(s, rfds, n, j) <==> Ready(s, rfds, j)
  {
    if Ready(s, rfds, j) {
      SeenCounts(s, rfds, j + 1);
      SubsetSize(Seen(s, rfds, j + 1), rfds);
    }
  }

  /** With a smaller count the first n ready watches are served and the others wait. */
  lemma {:induction false} ServedIsCut(s: Slots, rfds: set<int>, n: int, j: nat)
    requires j <= |s|
    ensures |Served(s, rfds, n, j)| == if n <= 0 then 0 else if Count(s, rfds, j) < n then Count(s, rfds, j) else n
  {
    if j > 0 { ServedIsCut(s, rfds, n, j - 1); }
  }

  // ---------------------------------------------------------------- whole runs

  /** The table with select's arguments, and every watch ever queued, in order. */
  datatype State = State(slots: Slots, fds: set<int>, nfds: int, queued: seq<Watch>)

  datatype Event =
    | Add(w: Watch)                   // ril_event_add
    | Del(w: Watch)                   // ril_event_del of a watched event
    | Wake(rfds: set<int>, n: int)    // processReadReadies: select found n descriptors, those in rfds

  const Start := State([null, null, null, null, null, null, null, null], {}, 0, [])

  /** The greatest watched descriptor in the first n slots, counting from 0. */
  function Top(s: Slots, n: nat): (top: int)
    requires n <= |s|
    ensures 0 <= top && forall i :: 0 <= i < n && s[i] != null ==> s[i].fd <= top
    ensures top > 0 ==> Watches(s, top, n)
  {
    if n == 0 then 0 else
      var top := Top(s, n - 1);
      if s[n - 1] != null && s[n - 1].fd > top then s[n - 1].fd else top
  }

  function Added(s: State, w: Watch): State {
    var k := FirstFree(s.slots);
    if k == |s.slots| then s
    else s.(slots := s.slots[k := w], fds := s.fds + {w.fd}, nfds := if w.fd >= s.nfds then w.fd + 1 else s.nfds)
  }

  function RemovedAt(s: State, k: nat): State
    requires k < |s.slots| && s.slots[k] != null
  {
    var slots, fd := s.slots[k := null], s.slots[k].fd;
    s.(slots := slots, fds := s.fds - {fd}, nfds := if fd + 1 == s.nfds then Top(slots, |slots|) + 1 else s.nfds)
  }

  /** A watch that is ready is queued, and leaves the table if it is not persistent. */
  function ServedAt(s: State, k: nat): State
    requires k < |s.slots| && s.slots[k] != null
  {
    var q := s.(queued := s.queued + [s.slots[k]]);
    if s.slots[k].persist then q else RemovedAt(q, k)
  }

  /** The loop of processReadReadies from slot i on, with n descriptors to go. */
  function Serve(s: State, rfds: set<int>, n: int, i: nat): State
    decreases |s.slots| - i
  {
    if i >= |s.slots| || n <= 0 then s
    else if Ready(s.slots, rfds, i) then Serve(ServedAt(s, i), rfds, n - 1, i + 1)
    else Serve(s, rfds, n, i + 1)
  }

  /** The slot of a watch, or the length of the table. */
  function Where(s: Slots, w: Watch): (k: nat)
    ensures k <= |s| && (k < |s| ==> s[k] == w)
    ensures k == |s| <==> w !in s
  {
    if s == [] || s[0] == w then 0 else 1 + Where(s[1..], w)
  }

  /** Descriptors are watched once at a time, and events are deleted while they are watched. */
  predicate Legal(s: State, e: Event) {
    match e
    case Add(w) => w.fd !in s.fds
    case Del(w) => w in s.slots
    case Wake(_, _) => true
  }

  function Step(s: State, e: Event): State
    requires Legal(s, e)
  {
    match e
    case Add(w) => Added(s, w)
    case Del(w) => RemovedAt(s, Where(s.slots, w))
    case Wake(rfds, n) => Serve(s, rfds, n, 0)
  }

  predicate LegalRun(s: State, es: seq<Event>)
    decreases es
  {
    es == [] || (Legal(s, es[0]) && LegalRun(Step(s, es[0]), es[1..]))
  }

  function Run(s: State, es: seq<Event>): State
    requires LegalRun(s, es)
    decreases es
  {
    if es == [] then s else Run(Step(s, es[0]), es[1..])
  }

  ghost predicate Inv(s: State) {
    |s.slots| == MAX_FD_EVENTS && Agree(s.slots, s.fds, s.nfds)
  }

  lemma AddedKeeps(s: State, w: Watch)
    requires Inv(s) && w.fd !in s.fds
    ensures Inv(Added(s, w))
  {
    hide Agree;
    var k := FirstFree(s.slots);
    if k < |s.slots| { AgreeAdded(s.slots, s.fds, s.nfds, k, w); }
  }

  lemma RemovedKeeps(s: State, k: nat)
    requires Inv(s) && k < |s.slots| && s.slots[k] != null
    ensures Inv(RemovedAt(s, k))
  {
    hide FdsOf, DistinctFds, Top;
    var slots := s.slots[k := null];
    var r := RemovedAt(s, k);
    if s.slots[k].fd + 1 != s.nfds { BoundStays(s.slots, s.nfds, k); }
    AgreeRemoved(s.slots, s.fds, s.nfds, k, r.nfds);
  }

  lemma {:induction false} ServeKeeps(s: State, rfds: set<int>, n: int, i: nat)
    requires Inv(s)
    ensures Inv(Serve(s, rfds, n, i))
    decreases |s.slots| - i
  {
    hide Agree, RemovedAt;
    if i < |s.slots| && n > 0 {
      if Ready(s.slots, rfds, i) {
        var q := s.(queued := s.queued + [s.slots[i]]);
        if !s.slots[i].persist { RemovedKeeps(q, i); }
        ServeKeeps(ServedAt(s, i), rfds, n - 1, i + 1);
      } else {
        ServeKeeps(s, rfds, n, i + 1);
      }
    }
  }

  lemma {:induction false} RunAgrees(s: State, es: seq<Event>)
    requires Inv(s) && LegalRun(s, es)
    ensures Inv(Run(s, es))
    decreases es
  {
    hide Inv;
    if es != [] {
      StepKeeps(s, es[0]);
      RunAgrees(Step(s, es[0]), es[1..]);
    }
  }

  lemma StepKeeps(s: State, e: Event)
    requires Inv(s) && Legal(s, e)
    ensures Inv(Step(s, e))
  {
    hide Inv, Serve, Added, RemovedAt;
    match e {
      case Add(w) => AddedKeeps(s, w);
      case Del(w) => assert |s.slots| == MAX_FD_EVENTS by { Eight(s); } RemovedKeeps(s, Where(s.slots, w));
      case Wake(rfds, n) => ServeKeeps(s, rfds, n, 0);
    }
  }

  lemma Eight(s: State)
    requires Inv(s)
    ensures |s.slots| == MAX_FD_EVENTS
  {
  }

  lemma StartInv()
    ensures Inv(Start)
  {
  }

  /** Over every run of additions, deletions and wake-ups: the select set holds exactly the watched descriptors,
      no two watches share one, and select's bound is one more than the greatest. */
  lemma TableAgrees(es: seq<Event>)
    requires LegalRun(Start, es)
    ensures var s := Run(Start, es);
      && |s.slots| == MAX_FD_EVENTS && DistinctFds(s.slots) && FdsOf(s.slots, s.fds)
      && (forall i :: 0 <= i < |s.slots| && s.slots[i] != null ==> s.slots[i].fd < s.nfds)
      && ((exists i :: 0 <= i < |s.slots| && s.slots[i] != null) ==> Watches(s.slots, s.nfds - 1, |s.slots|))
  {
    hide Run, LegalRun;
    StartInv();
    RunAgrees(Start, es);
  }

  /** Adding puts the watch into the table if there is room, deleting takes out that watch, and a wake-up takes out
      the watches it serves that are not persistent; no other watch comes or goes. */
  lemma WatchedAfter(s: State, e: Event, v: Watch)
    requires Inv(s) && Legal(s, e)
    ensures var after := Step(s, e);
      match e
      case Add(w) => v in after.slots <==> v in s.slots || (v == w && null in s.slots)
      case Del(w) => v in after.slots <==> v in s.slots && v != w
      case Wake(rfds, n) =>
        v in after.slots <==> v in s.slots && (v.persist || v !in Served(s.slots, rfds, n, |s.slots|))
  {
    hide Serve, Served, Agree, Top;
    match e {
      case Add(w) => PlacedAt(s, w, v);
      case Del(w) => TakenOut(s, w, v);
      case Wake(rfds, n) => WokenSlots(s, rfds, n, v);
    }
  }

  lemma PlacedAt(s: State, w: Watch, v: Watch)
    ensures v in Added(s, w).slots <==> v in s.slots || (v == w && null in s.slots)
  {
    var k, after := FirstFree(s.slots), Added(s, w);
    if v in s.slots {
      var i :| 0 <= i < |s.slots| && s.slots[i] == v;
      assert after.slots[i] == v;
    }
    if k < |s.slots| { assert after.slots[k] == w; }
  }

  lemma TakenOut(s: State, w: Watch, v: Watch)
    requires Inv(s) && w in s.slots
    ensures v in RemovedAt(s, Where(s.slots, w)).slots <==> v in s.slots && v != w
  {
    hide FdsOf, Bound, Top;
    var k := Where(s.slots, w);
    Gone(s.slots, k, w);
    var after := RemovedAt(s, k);
    if v in s.slots && v != w {
      var i :| 0 <= i < |s.slots| && s.slots[i] == v;
      assert after.slots[i] == v;
    }
  }

  lemma WokenLeft(s: State, rfds: set<int>, n: int)
    ensures var after := Serve(s, rfds, n, 0);
      |after.slots| == |s.slots| && forall j :: 0 <= j < |s.slots| ==> after.slots[j] == Left(s.slots, rfds, n, j)
  {
    hide Serve;
    ServeMeans(s, s.slots, rfds, n, 0, s.queued);
  }

  lemma WokenSlots(s: State, rfds: set<int>, n: int, v: Watch)
    requires Inv(s)
    ensures var after := Serve(s, rfds, n, 0);
      v in after.slots <==> v in s.slots && (v.persist || v !in Served(s.slots, rfds, n, |s.slots|))
  {
    hide Serve, Served, FdsOf, Bound, Count;
    WokenLeft(s, rfds, n);
    ServedIff(s.slots, rfds, n, |s.slots|, v);
    var after := Serve(s, rfds, n, 0);
    if v in s.slots {
      var i :| 0 <= i < |s.slots| && s.slots[i] == v;
      assert after.slots[i] == Left(s.slots, rfds, n, i);
      Gone(s.slots, i, v);
      forall j | 0 <= j < |s.slots| && j != i ensures s.slots[j] != v { assert s.slots[i := null][j] == s.slots[j]; }
    }
  }

  // ------------------------------------------------------ what a wake-up queues

  /** slots is the table a wake-up found; the loop has come to slot i. */
  ghost predicate Halfway(s: State, slots: Slots, rfds: set<int>, total: int, i: nat, before: seq<Watch>) {
    && |slots| == |s.slots| && i <= |slots|
    && (forall j :: i <= j < |slots| ==> s.slots[j] == slots[j])
    && (forall j :: 0 <= j < i ==> s.slots[j] == Left(slots, rfds, total, j))
    && s.queued == before + Served(slots, rfds, total, i)
  }

  /** The loop serves the first ready watches in slot order, and the ones that are not persistent leave. */
  lemma {:induction false} ServeMeans(s: State, slots: Slots, rfds: set<int>, total: int, i: nat, before: seq<Watch>)
    requires Halfway(s, slots, rfds, total, i, before)
    ensures Halfway(Serve(s, rfds, total - Count(slots, rfds, i), i), slots, rfds, total, |slots|, before)
    decreases |slots| - i
  {
    hide RemovedAt;
    var n := total - Count(slots, rfds, i);
    if i < |slots| {
      if n <= 0 {
        ServedStops(slots, rfds, total, i, |slots|);
        forall j | i <= j < |slots|
          ensures s.slots[j] == Left(slots, rfds, total, j)
        {
          CountGrows(slots, rfds, i, j);
        }
      } else if Ready(slots, rfds, i) {
        var t := ServedAt(s, i);
        RemovedSlots(s, i);
        assert t.queued == before + (Served(slots, rfds, total, i) + [slots[i]]);
        ServeMeans(t, slots, rfds, total, i + 1, before);
      } else {
        assert before + (Served(slots, rfds, total, i) + []) == s.queued;
        ServeMeans(s, slots, rfds, total, i + 1, before);
      }
    }
  }

  lemma RemovedSlots(s: State, k: nat)
    requires k < |s.slots| && s.slots[k] != null
    ensures var t := ServedAt(s, k);
      && t.slots == (if s.slots[k].persist then s.slots else s.slots[k := null])
      && t.queued == s.queued + [s.slots[k]]
  {
  }

  /** With the count select reports, a wake-up queues every watch that is ready, in its own round. */
  lemma WakeQueuesAll(s: State, rfds: set<int>, n: int, w: Watch)
    requires Inv(s) && |rfds| <= n && w in s.slots
    ensures var q := Step(s, Wake(rfds, n)).queued;
      && |q| >= |s.queued| && q[..|s.queued|] == s.queued
      && (w in q[|s.queued|..] <==> w.fd in rfds)
  {
    hide Serve;
    var all := |s.slots|;
    ServeMeans(s, s.slots, rfds, n, 0, s.queued);
    var q := Step(s, Wake(rfds, n)).queued;
    assert q == s.queued + Served(s.slots, rfds, n, all);
    assert q[|s.queued|..] == Served(s.slots, rfds, n, all);
    var k :| 0 <= k < all && s.slots[k] == w;
    AllReadyServed(s.slots, rfds, n, k);
    ServedIff(s.slots, rfds, n, all, w);
  }

  lemma {:induction false} ServedIff(slots: Slots, rfds: set<int>, n: int, j: nat, w: Watch)
    requires j <= |slots|
    ensures w in Served(slots, rfds, n, j) <==> exists i :: 0 <= i < j && slots[i] == w && Hit(slots, rfds, n, i)
  {
    if j > 0 { ServedIff(slots, rfds, n, j - 1, w); }
  }

  // --------------------------------------------------- at most once per addition

  /** How often a watch has been queued, plus one while it is in the table. */
  ghost function Weight(s: State, w: Watch): nat {
    multiset(s.queued)[w] + if w in s.slots then 1 else 0
  }

  lemma ServedWeight(s: State, k: nat, w: Watch)
    requires Inv(s) && k < |s.slots| && s.slots[k] != null && !w.persist
    ensures Weight(ServedAt(s, k), w) == Weight(s, w)
  {
    hide RemovedAt;
    RemovedSlots(s, k);
    var t := ServedAt(s, k);
    assert multiset(t.queued) == multiset(s.queued) + multiset{s.slots[k]};
    if w == s.slots[k] {
      Gone(s.slots, k, w);
    } else if w in s.slots {
      var i :| 0 <= i < |s.slots| && s.slots[i] == w;
      assert t.slots[i] == w;
    }
  }

  lemma Gone(slots: Slots, k: nat, w: Watch)
    requires DistinctFds(slots) && k < |slots| && slots[k] == w
    ensures w !in slots[k := null]
  {
    forall i | 0 <= i < |slots| && i != k
      ensures slots[i] != w
    {
      if i < k { assert slots[i] != null ==> slots[i].fd != slots[k].fd; }
      else { assert slots[i] != null ==> slots[k].fd != slots[i].fd; }
    }
  }

  lemma {:induction false} ServeWeight(s: State, rfds: set<int>, n: int, i: nat, w: Watch)
    requires Inv(s) && !w.persist
    ensures Weight(Serve(s, rfds, n, i), w) == Weight(s, w)
    decreases |s.slots| - i
  {
    hide Agree, RemovedAt, Weight;
    if i < |s.slots| && n > 0 {
      if Ready(s.slots, rfds, i) {
        ServedWeight(s, i, w);
        var q := s.(queued := s.queued + [s.slots[i]]);
        if !s.slots[i].persist { RemovedKeeps(q, i); }
        ServeWeight(ServedAt(s, i), rfds, n - 1, i + 1, w);
      } else {
        ServeWeight(s, rfds, n, i + 1, w);
      }
    }
  }

  lemma StepWeight(s: State, e: Event, w: Watch)
    requires Inv(s) && Legal(s, e) && !w.persist
    ensures Weight(Step(s, e), w) <= Weight(s, w) + if e == Add(w) then 1 else 0
  {
    hide Serve, Agree;
    match e {
      case Add(v) =>
      case Del(v) =>
      case Wake(rfds, n) => ServeWeight(s, rfds, n, 0, w);
    }
  }

  /** How often a run adds a watch. */
  ghost function Adds(es: seq<Event>, w: Watch): nat {
    if es == [] then 0 else (if es[0] == Add(w) then 1 else 0) + Adds(es[1..], w)
  }

  /** On every run a watch that is not persistent is queued no more often than it was added. */
  lemma {:induction false} QueuedAtMostAdded(s: State, es: seq<Event>, w: Watch)
    requires Inv(s) && LegalRun(s, es) && !w.persist
    ensures Weight(Run(s, es), w) <= Weight(s, w) + Adds(es, w)
    ensures s == Start ==> multiset(Run(s, es).queued)[w] <= Adds(es, w)
    decreases es
  {
    hide Inv, Step, Legal;
    if es != [] {
      StepKeeps(s, es[0]);
      StepWeight(s, es[0], w);
      QueuedAtMostAdded(Step(s, es[0]), es[1..], w);
    }
  }

  // ------------------------------------------------------- the table in memory

  function Links(ws: seq<Watch>): (ls: seq<RilEvent>)
    ensures |ls| == |ws| && forall i :: 0 <= i < |ws| ==> ls[i] == ws[i].link
  {
    seq(|ws|, i requires 0 <= i < |ws| => ws[i].link)
  }

  lemma LinksAppended(ws: seq<Watch>, w: Watch)
    ensures Links(ws + [w]) == Links(ws) + [w.link]
  {
  }

  class Table {
    const slots: array<Watch?>
    var readFds: set<int>
    var nfds: int
    var locked: bool               // the list mutex
    ghost var queued: seq<Watch>   // what has ever been put on the pending list

    ghost function Abs(): State
      reads this, slots
    {
      State(slots[..], readFds, nfds, queued)
    }

    /** Every watched event knows its slot, and the table agrees with select's arguments. */
    ghost predicate Valid()
      reads this, slots, slots[..]
    {
      && slots.Length == MAX_FD_EVENTS && Inv(Abs())
      && (forall i :: 0 <= i < slots.Length && slots[i] != null ==> slots[i].index == i)
    }

    constructor ()
      ensures Valid() && !locked && Abs() == Start && fresh(slots)
    {
      slots := new Watch?[MAX_FD_EVENTS](_ => null);
      readFds, nfds, queued, locked := {}, 0, [], false;
      new;
      assert slots[..] == Start.slots;
    }

    /** ril_event_add: the first empty slot takes the watch; a full table drops it without a word. The table stays
        valid if and only if it is full or the descriptor was not watched yet. */
    method Add(ev: Watch)
      requires slots.Length == MAX_FD_EVENTS && !locked
      modifies this`readFds, this`nfds, this`locked, slots, ev`index
      ensures Abs() == Added(old(Abs()), ev) && !locked
      ensures ev.index == if old(null in slots[..]) then FirstFree(old(slots[..])) else old(ev.index)
      ensures old(Valid()) ==> (Valid() <==> old(null !in slots[..]) || ev.fd !in old(readFds))
    {
      hide Agree;
      ghost var s := Abs();
      locked := true;
      for i := 0 to MAX_FD_EVENTS
        invariant forall j :: 0 <= j < i ==> slots[j] != null
        invariant Abs() == s && ev.index == old(ev.index) && locked
        invariant forall j :: 0 <= j < MAX_FD_EVENTS && slots[j] != null ==> slots[j].index == old(slots[j].index)
      {
        if slots[i] == null {
          slots[i] := ev;
          ev.index := i;
          readFds := readFds + {ev.fd};
          if ev.fd >= nfds { nfds := ev.fd + 1; }
          assert slots[..] == s.slots[i := ev] && FirstFree(s.slots) == i;
          AddedIff(s, ev);
          break;
        }
      }
      locked := false;
    }

    /** The search for the greatest watched descriptor. */
    method Greatest() returns (n: int)
      requires slots.Length == MAX_FD_EVENTS
      ensures n == Top(slots[..], MAX_FD_EVENTS)
    {
      n := 0;
      for i := 0 to MAX_FD_EVENTS
        invariant n == Top(slots[..], i)
      {
        var rev := slots[i];
        if rev != null && rev.fd > n {
          n := rev.fd;
        }
      }
    }

    /** removeWatch: the slot, the index, the descriptor and the bound go together. */
    method RemoveWatch(ev: Watch, index: nat)
      requires Valid() && index < MAX_FD_EVENTS && slots[index] == ev
      modifies this`readFds, this`nfds, slots, ev`index
      ensures Valid() && ev.index == -1 && Abs() == RemovedAt(old(Abs()), index)
    {
      hide Agree;
      ghost var s := Abs();
      slots[index] := null;
      ev.index := -1;
      readFds := readFds - {ev.fd};
      assert slots[..] == s.slots[index := null];
      if ev.fd + 1 == nfds {
        var n := Greatest();
        nfds := n + 1;
      }
      RemovedKeeps(s, index);
    }

    /** ril_event_del: an event that holds no slot makes the call return with the mutex still taken. */
    method Del(ev: Watch)
      requires Valid() && !locked && (0 <= ev.index < MAX_FD_EVENTS ==> slots[ev.index] == ev)
      modifies this`readFds, this`nfds, this`locked, slots, ev`index
      ensures Valid()
      ensures locked <==> !(0 <= old(ev.index) < MAX_FD_EVENTS)
      ensures if locked then Abs() == old(Abs()) && ev.index == old(ev.index)
        else Abs() == RemovedAt(old(Abs()), old(ev.index)) && ev.index == -1
    {
      hide Agree;
      locked := true;
      if ev.index < 0 || ev.index >= MAX_FD_EVENTS {
        return;
      }
      RemoveWatch(ev, ev.index);
      locked := false;
    }

    /** The watches of the table are on neither list, and are linked through different events. */
    ghost predicate Unlisted(lists: EventLists)
      reads this, slots, lists
    {
      && (forall i :: 0 <= i < slots.Length && slots[i] != null ==>
            slots[i].link !in lists.timers && slots[i].link !in lists.pending)
      && forall i, j :: 0 <= i < j < slots.Length && slots[i] != null && slots[j] != null ==>
           slots[i].link != slots[j].link
    }

    ghost function AllLinks(): set<RilEvent>
      reads this, slots
    {
      set i | 0 <= i < slots.Length && slots[i] != null :: slots[i].link
    }

    /** The body of the loop for a slot that is ready. */
    method ServeSlot(rev: Watch, i: nat, lists: EventLists)
      requires Valid() && i < MAX_FD_EVENTS && slots[i] == rev
      requires lists.Valid() && rev.link !in lists.timers && rev.link !in lists.pending
      modifies this`readFds, this`nfds, this`queued, slots, rev`index
      modifies lists`pending, lists.pending`next, lists.pending`prev, rev.link`next, rev.link`prev
      ensures Valid() && Abs() == ServedAt(old(Abs()), i)
      ensures lists.Valid() && lists.pending == old(lists.pending) + [rev.link]
      ensures !rev.persist ==> rev.index == -1
    {
      hide Agree, RemovedAt, EventLists.Valid;
      lists.Queue(rev.link);
      queued := queued + [rev];
      if !rev.persist {
        RemoveWatch(rev, i);
      }
    }

    /** processReadReadies: select found n descriptors, those in rfds, ready to read. */
    method ProcessReadReadies(rfds: set<int>, n: int, lists: EventLists)
      requires Valid() && !locked && lists.Valid() && Unlisted(lists)
      modifies this, slots, slots[..]`index
      modifies lists`pending, lists.pending`next, lists.pending`prev, AllLinks()`next, AllLinks()`prev
      ensures Valid() && !locked && Abs() == Serve(old(Abs()), rfds, n, 0)
      ensures lists.Valid() && lists.timers == old(lists.timers)
      ensures old(queued) <= queued && lists.pending == old(lists.pending) + Links(queued[|old(queued)|..])
      ensures forall j :: 0 <= j < MAX_FD_EVENTS && old(slots[j]) != null && slots[j] == null ==>
        old(slots[j]).index == -1
    {
      hide Inv, RemovedAt, ServedAt, EventLists.Valid, Serve;
      ghost var s, links := Abs(), AllLinks();
      ghost var more: seq<Watch> := [];
      locked := true;
      var i, left := 0, n;
      while i < MAX_FD_EVENTS && left > 0
        invariant 0 <= i <= MAX_FD_EVENTS && slots.Length == MAX_FD_EVENTS && Valid() && locked
        invariant Serve(Abs(), rfds, left, i) == Serve(s, rfds, n, 0)
        invariant forall j :: i <= j < MAX_FD_EVENTS ==> slots[j] == s.slots[j]
        invariant forall j :: 0 <= j < i && s.slots[j] != null && slots[j] == null ==> s.slots[j].index == -1
        invariant lists.Valid() && lists.timers == old(lists.timers)
        invariant queued == s.queued + more && lists.pending == old(lists.pending) + Links(more)
        invariant forall j :: i <= j < MAX_FD_EVENTS && s.slots[j] != null ==> s.slots[j].link !in lists.pending
        invariant forall j :: 0 <= j < |lists.pending| ==>
          lists.pending[j] in old(lists.pending) || lists.pending[j] in links
      {
        var rev := slots[i];
        ServeUnfold(Abs(), rfds, left, i);
        if rev != null && rev.fd in rfds {
          ghost var now := Abs();
          assert rev == s.slots[i] && rev.link in links;
          ServeSlot(rev, i, lists);
          RemovedSlots(now, i);
          LinksAppended(more, rev);
          more := more + [rev];
          left := left - 1;
        }
        i := i + 1;
      }
      ServeUnfold(Abs(), rfds, left, i);
      assert queued[|s.queued|..] == more;
      locked := false;
    }
  }

  lemma ServeUnfold(s: State, rfds: set<int>, n: int, i: nat)
    ensures Serve(s, rfds, n, i) ==
      if i >= |s.slots| || n <= 0 then s
      else if Ready(s.slots, rfds, i) then Serve(ServedAt(s, i), rfds, n - 1, i + 1)
      else Serve(s, rfds, n, i + 1)
  {
  }

  /** Watching a descriptor twice is what the select set cannot show. */
  lemma AddedIff(s: State, w: Watch)
    requires |s.slots| == MAX_FD_EVENTS && null in s.slots
    ensures Inv(s) ==> (Inv(Added(s, w)) <==> w.fd !in s.fds)
    ensures Inv(s) && w.fd !in s.fds ==> w !in s.slots
  {
    if Inv(s) {
      if w.fd in s.fds {
        var k, t := FirstFree(s.slots), Added(s, w);
        assert Watches(s.slots, w.fd, |s.slots|);
        var i :| 0 <= i < |s.slots| && s.slots[i] != null && s.slots[i].fd == w.fd;
        assert t.slots[i] == s.slots[i] && t.slots[k] == w;
        assert !DistinctFds(t.slots);
      } else {
        AddedKeeps(s, w);
      }
    }
  }

  // ------------------------------------------------------- for the whole loop

  lemma {:induction false} RunAppended(s: State, es: seq<Event>, e: Event)
    requires LegalRun(s, es) && Legal(Run(s, es), e)
    ensures LegalRun(s, es + [e]) && Run(s, es + [e]) == Step(Run(s, es), e)
    decreases es
  {
    hide Step, Legal;
    var all := es + [e];
    if es == [] {
      assert all == [e] && all[1..] == [];
    } else {
      assert all[0] == es[0] && all[1..] == es[1..] + [e];
      RunAppended(Step(s, es[0]), es[1..], e);
    }
  }

  /** What a wake-up puts behind the queue. */
  lemma WakeQueues(s: State, rfds: set<int>, n: int)
    ensures Step(s, Wake(rfds, n)).queued == s.queued + Served(s.slots, rfds, n, |s.slots|)
  {
    hide Serve;
    ServeMeans(s, s.slots, rfds, n, 0, s.queued);
  }

  /** A wake-up leaves persistent watches in the table. */
  lemma WakeLeaves(s: State, rfds: set<int>, n: int, w: Watch)
    requires w in s.slots && w.persist
    ensures w in Step(s, Wake(rfds, n)).slots
  {
    hide Serve;
    ServeMeans(s, s.slots, rfds, n, 0, s.queued);
    var j :| 0 <= j < |s.slots| && s.slots[j] == w;
    assert Step(s, Wake(rfds, n)).slots[j] == w;
  }

  /** Watches linked through different events. */
  ghost predicate Separate(ws: set<Watch>) {
    forall v, w :: v in ws && w in ws && v != w ==> v.link != w.link
  }

  lemma SlotOf(t: Table, w: Watch)
    requires t.Valid() && w in t.slots[..]
    ensures 0 <= w.index < MAX_FD_EVENTS && t.slots[w.index] == w && Where(t.slots[..], w) == w.index
  {
    var k := Where(t.slots[..], w);
    assert t.slots[..][k] == w && t.slots[k] == w;
  }

  ghost function LinksOf(ws: set<Watch>): set<RilEvent> {
    set w | w in ws :: w.link
  }

  ghost predicate Among(slots: Slots, ws: set<Watch>) {
    forall j :: 0 <= j < |slots| && slots[j] != null ==> slots[j] in ws
  }

  lemma StepAmong(s: State, e: Event, ws: set<Watch>)
    requires Among(s.slots, ws) && Legal(s, e) && (!e.Wake? ==> e.w in ws)
    ensures Among(Step(s, e).slots, ws)
  {
    hide Serve;
    if e.Wake? { ServeMeans(s, s.slots, e.rfds, e.n, 0, s.queued); }
  }

  lemma ServedAmong(slots: Slots, rfds: set<int>, n: int, ws: set<Watch>)
    requires Among(slots, ws)
    ensures forall w :: w in Served(slots, rfds, n, |slots|) ==> w in ws
  {
    hide Served;
    forall w | w in Served(slots, rfds, n, |slots|)
      ensures w in ws
    {
      ServedIff(slots, rfds, n, |slots|, w);
    }
  }
}
