/** The circular lists of the RIL event loop, linked through the events themselves. */
module RilRings {
  import opened Seqs

  class RilEvent {
    var next: RilEvent?
    var prev: RilEvent?
    var timeout: int  // deadline in microseconds

    constructor ()
      ensures next == null && prev == null
    {
      next, prev, timeout := null, null, 0;
    }
  }

  /** ring[0] is the list head; next leads through ring and back to the head, prev the other way. */
  ghost predicate Ring(ring: seq<RilEvent>)
    reads ring`next, ring`prev
  {
    && |ring| > 0
    && Linked(ring, 0)
    && ring[|ring| - 1].next == ring[0] && ring[0].prev == ring[|ring| - 1]
  }

  /** Neighbours point at each other, except across the gap before element gap. */
  ghost predicate Linked(ring: seq<RilEvent>, gap: nat)
    reads ring`next, ring`prev
  {
    && (forall i {:trigger ring[i].next} :: 0 <= i < |ring| - 1 && i + 1 != gap ==> ring[i].next == ring[i + 1])
    && (forall i {:trigger ring[i].prev} :: 1 <= i < |ring| && i != gap ==> ring[i].prev == ring[i - 1])
  }

  /** The element that position k of a ring would be inserted before. */
  ghost function At(ring: seq<RilEvent>, k: nat): RilEvent
    requires 1 <= k <= |ring|
  {
    if k < |ring| then ring[k] else ring[0]
  }

  lemma RingAt(ring: seq<RilEvent>, k: nat)
    requires Ring(ring) && 1 <= k <= |ring|
    ensures At(ring, k).prev == ring[k - 1] && ring[k - 1].next == At(ring, k)
    ensures ring[0].next == if |ring| > 1 then ring[1] else ring[0]
  {
  }

  /** An event linked to both sides of a gap closes it. */
  lemma CloseGap(ring: seq<RilEvent>, k: nat, ev: RilEvent)
    requires 1 <= k <= |ring| && Linked(ring, k)
    requires ev.prev == ring[k - 1] && ring[k - 1].next == ev && ev.next == At(ring, k) && At(ring, k).prev == ev
    requires k < |ring| ==> ring[|ring| - 1].next == ring[0] && ring[0].prev == ring[|ring| - 1]
    ensures Ring(Inserted(ring, k, ev))
  {
    var r := Inserted(ring, k, ev);
    forall i | 0 <= i < |r| - 1
      ensures r[i].next == r[i + 1]
    {
      if i > k { assert ring[i - 1].next == ring[i]; }
    }
    forall i | 1 <= i < |r|
      ensures r[i].prev == r[i - 1]
    {
      if i > k + 1 { assert ring[i - 1].prev == ring[i - 2]; }
    }
  }

  method AddToList(ev: RilEvent, list: RilEvent, ghost ring: seq<RilEvent>, ghost k: nat)
    requires Ring(ring) && Apart(ring, |ring|) && ev !in ring
    requires 1 <= k <= |ring| && list == At(ring, k)
    requires list.prev != null
    modifies ev`next, ev`prev, list`prev, list.prev`next
    ensures Ring(Inserted(ring, k, ev)) && Apart(Inserted(ring, k, ev), |ring| + 1)
  {
    hide Inserted, Apart;
    RingAt(ring, k);
    ApartAt(ring, k - 1);
    ApartAt(ring, if k < |ring| then k else 0);
    ev.next := list;
    ev.prev := list.prev;
    ev.prev.next := ev;
    list.prev := ev;
    ApartInsert(ring, k, ev);
    CloseGap(ring, k, ev);
  }

  method RemoveFromList(ev: RilEvent, ghost ring: seq<RilEvent>, ghost k: nat)
    requires Ring(ring) && Apart(ring, |ring|) && 1 <= k < |ring| && ev == ring[k]
    requires ev.next != null && ev.prev != null
    modifies ev`next, ev`prev, ev.next`prev, ev.prev`next
    ensures Ring(Removed(ring, k)) && Apart(Removed(ring, k), |ring| - 1)
    ensures ev.next == null && ev.prev == null
  {
    hide Removed, Apart;
    RingAt(ring, k);
    RingAt(ring, k + 1);
    ApartAt(ring, k - 1);
    ApartAt(ring, k);
    ApartAt(ring, if k + 1 < |ring| then k + 1 else 0);
    ev.next.prev := ev.prev;
    ev.prev.next := ev.next;
    ev.next := null;
    ev.prev := null;
    ApartRemove(ring, k);
  }

  // -------------------------------------------------------------- time values

  datatype TimeVal = TimeVal(sec: int, usec: int)

  predicate Normal(t: TimeVal) {
    0 <= t.usec < 1_000_000
  }

  function Micros(t: TimeVal): int {
    t.sec * 1_000_000 + t.usec
  }

  function TimerAdd(a: TimeVal, b: TimeVal): TimeVal {
    var usec := a.usec + b.usec;
    if usec >= 1_000_000 then TimeVal(a.sec + b.sec + 1, usec - 1_000_000) else TimeVal(a.sec + b.sec, usec)
  }

  predicate TimerLess(a: TimeVal, b: TimeVal) {
    if a.sec == b.sec then a.usec < b.usec else a.sec < b.sec
  }

  /** On normal time values the timer macros add and compare microseconds. */
  lemma TimersAreMicros(a: TimeVal, b: TimeVal)
    requires Normal(a) && Normal(b)
    ensures Normal(TimerAdd(a, b)) && Micros(TimerAdd(a, b)) == Micros(a) + Micros(b)
    ensures TimerLess(a, b) <==> Micros(a) < Micros(b)
  {
  }

  // -------------------------------------------------- timer and pending lists

  ghost predicate Disjoint(a: seq<RilEvent>, b: seq<RilEvent>) {
    forall e :: e in a ==> e !in b
  }

  /** Moving an event from one list to the end of another keeps the two apart. */
  lemma DisjointMoved(a: seq<RilEvent>, b: seq<RilEvent>, k: nat)
    requires Disjoint(a, b) && Apart(a, |a|) && k < |a|
    ensures Disjoint(Removed(a, k), Inserted(b, |b|, a[k]))
  {
    hide Apart, Removed, Inserted;
    RemovedIn(a, k);
    InsertedIn(b, |b|, a[k]);
  }

  lemma Across(a: seq<RilEvent>, b: seq<RilEvent>, i: nat)
    requires Disjoint(a, b) && i < |a|
    ensures a[i] !in b
  {
  }

  lemma DisjointInserted(a: seq<RilEvent>, b: seq<RilEvent>, k: nat, ev: RilEvent)
    requires Disjoint(a, b) && k <= |a| && ev !in b
    ensures Disjoint(Inserted(a, k, ev), b)
  {
    hide Inserted;
    InsertedIn(a, k, ev);
  }

  ghost predicate Sorted(ring: seq<RilEvent>)
    reads ring`timeout
  {
    forall i, j :: 1 <= i < j < |ring| ==> ring[i].timeout <= ring[j].timeout
  }

  lemma SortedInserted(ring: seq<RilEvent>, k: nat, ev: RilEvent)
    requires Sorted(ring) && 1 <= k <= |ring|
    requires forall i :: 1 <= i < k ==> ring[i].timeout < ev.timeout
    requires k < |ring| ==> ring[k].timeout >= ev.timeout
    ensures Sorted(Inserted(ring, k, ev))
  {
  }

  lemma SortedRemoved(ring: seq<RilEvent>, k: nat)
    requires Sorted(ring) && 1 <= k < |ring|
    ensures Sorted(Removed(ring, k))
  {
  }

  /** In a sorted list the expired timers are those before the first one that is not. */
  lemma ExpiredAreFront(ring: seq<RilEvent>, k: nat, now: int)
    requires Sorted(ring) && k < |ring|
    requires k > 0 ==> ring[k].timeout < now
    requires k + 1 < |ring| ==> ring[k + 1].timeout >= now
    ensures forall i :: 1 <= i < |ring| ==> (ring[i].timeout < now <==> i <= k)
  {
  }

  /** k elements behind the head have moved from one list to the end of another. */
  ghost predicate Moving<T>(from: seq<T>, to: seq<T>, k: nat, rest: seq<T>, moved: seq<T>) {
    k < |from| && rest == [from[0]] + from[1 + k..] && moved == to + from[1..1 + k]
  }

  lemma MoveStart<T>(from: seq<T>, to: seq<T>)
    requires from != []
    ensures Moving(from, to, 0, from, to)
  {
  }

  lemma MoveAt<T>(from: seq<T>, to: seq<T>, k: nat, rest: seq<T>, moved: seq<T>)
    requires Moving(from, to, k, rest, moved)
    ensures |rest| == |from| - k && |moved| == |to| + k && rest[0] == from[0] && (|rest| > 1 ==> rest[1] == from[k + 1])
    ensures forall j :: 0 <= j < |rest| ==> rest[j] in from
    ensures forall j :: 0 <= j < |moved| ==> moved[j] in to || moved[j] in from
  {
  }

  lemma MoveDone<T>(from: seq<T>, to: seq<T>, k: nat, rest: seq<T>, moved: seq<T>)
    requires Moving(from, to, k, rest, moved)
    ensures k < |from| && rest == [from[0]] + from[1 + k..] && moved == to + from[1..1 + k]
  {
  }

  lemma MoveStep<T>(from: seq<T>, to: seq<T>, k: nat, rest: seq<T>, moved: seq<T>)
    requires Moving(from, to, k, rest, moved) && k + 1 < |from|
    ensures Moving(from, to, k + 1, [rest[0]] + rest[2..], moved + [from[k + 1]])
    ensures Removed(rest, 1) == [rest[0]] + rest[2..]
    ensures Inserted(moved, |moved|, from[k + 1]) == moved + [from[k + 1]]
  {
    RemovedIsSplice(rest, 1);
    InsertedIsSplice(moved, |moved|, from[1 + k]);
  }

  class EventLists {
    const timerList: RilEvent
    const pendingList: RilEvent
    ghost var timers: seq<RilEvent>   // timerList and the events linked to it
    ghost var pending: seq<RilEvent>  // pendingList and the events linked to it

    ghost predicate Valid()
      reads this, timers, pending
    {
      && |timers| > 0 && timers[0] == timerList && Ring(timers) && Apart(timers, |timers|)
      && |pending| > 0 && pending[0] == pendingList && Ring(pending) && Apart(pending, |pending|)
      && Disjoint(timers, pending)
      && Sorted(timers)
    }

    constructor ()
      ensures Valid() && timers == [timerList] && pending == [pendingList] && fresh(timerList) && fresh(pendingList)
    {
      var t := new RilEvent();
      var p := new RilEvent();
      timerList, pendingList := t, p;
      timers, pending := [t], [p];
      new;
      t.next, t.prev := t, t;
      p.next, p.prev := p, p;
    }

    /** The search of ril_timer_add: the first timer that is not due earlier, or the list head. */
    method FindSlot(timeout: int) returns (list: RilEvent, ghost k: nat)
      requires Valid()
      ensures 1 <= k <= |timers| && list == At(timers, k) && list.prev == timers[k - 1]
      ensures forall i :: 1 <= i < k ==> timers[i].timeout < timeout
      ensures k < |timers| ==> timers[k].timeout >= timeout
    {
      hide Ring, Apart, Disjoint, Sorted;
      ApartAt(timers, 0);
      RingAt(timers, 1);
      list, k := timerList.next, 1;
      while list.timeout < timeout && list != timerList
        invariant 1 <= k <= |timers| && list == At(timers, k)
        invariant forall i :: 1 <= i < k ==> timers[i].timeout < timeout
        decreases |timers| - k
      {
        RingAt(timers, k + 1);
        list, k := list.next, k + 1;
      }
      RingAt(timers, k);
    }

    /** ril_timer_add: k is where the timer goes. */
    method AddTimer(ev: RilEvent, now: int, delay: int) returns (ghost k: nat)
      requires Valid() && ev !in timers && ev !in pending
      modifies this`timers, ev, timers`next, timers`prev
      ensures Valid() && ev.timeout == now + delay
      ensures 1 <= k <= |old(timers)| && timers == Inserted(old(timers), k, ev)
      ensures forall i :: 1 <= i < k ==> old(timers)[i].timeout < ev.timeout
      ensures k < |old(timers)| ==> old(timers)[k].timeout >= ev.timeout
    {
      hide Inserted, Apart, Ring, Sorted, Disjoint;
      ghost var ring, rest := timers, pending;
      ev.timeout := now + delay;
      var list;
      list, k := FindSlot(ev.timeout);
      Across(ring, rest, if k < |ring| then k else 0);
      Across(ring, rest, k - 1);
      AddToList(ev, list, ring, k);
      assert Ring(rest);
      SortedInserted(ring, k, ev);
      DisjointInserted(ring, rest, k, ev);
      timers := Inserted(ring, k, ev);
    }

    /** One turn of the loop in processTimeouts: the first timer moves to the end of the pending list. */
    method Expire(tev: RilEvent)
      requires Valid() && |timers| > 1 && tev == timers[1]
      modifies this`timers, this`pending, timers`next, timers`prev, pending`next, pending`prev
      ensures Valid()
      ensures timers == Removed(old(timers), 1) && pending == Inserted(old(pending), |old(pending)|, tev)
    {
      hide Ring, Apart, Inserted, Removed, Sorted;
      RingAt(timers, 1);
      RingAt(timers, 2);
      RingAt(pending, |pending|);
      RemovedIn(timers, 1);
      ghost var rest := Removed(timers, 1);
      assert tev !in rest && pendingList !in rest && pendingList.prev !in rest;
      assert tev !in pending && tev.next !in pending && tev.prev !in pending;
      RemoveFromList(tev, timers, 1);
      assert Ring(pending);
      AddToList(tev, pendingList, pending, |pending|);
      assert Ring(rest);
      DisjointMoved(timers, pending, 1);
      SortedRemoved(timers, 1);
      timers, pending := Removed(timers, 1), Inserted(pending, |pending|, tev);
    }

    /** processTimeouts: the k timers whose time is over, and no others, become pending, in order. */
    method ProcessTimeouts(now: int) returns (ghost k: nat)
      requires Valid()
      modifies this`timers, this`pending, timers`next, timers`prev, pending`next, pending`prev
      ensures Valid() && k < |old(timers)|
      ensures timers == [timerList] + old(timers)[1 + k..]
      ensures pending == old(pending) + old(timers)[1..1 + k]
      ensures forall i :: 1 <= i < |old(timers)| ==> (old(timers)[i].timeout < now <==> i <= k)
    {
      hide Ring, Apart, Removed, Inserted, Disjoint, Sorted, Moving;
      ghost var from, to := timers, pending;
      RingAt(timers, 1);
      MoveStart(from, to);
      k := 0;
      var tev := timerList.next;
      while tev != timerList && now > tev.timeout
        invariant Valid() && Moving(from, to, k, timers, pending) && k < |from|
        invariant |timers| == |from| - k && tev == At(timers, 1)
        invariant Sorted(from) && (k > 0 ==> from[k].timeout < now)
        decreases |from| - k
      {
        MoveAt(from, to, k, timers, pending);
        MoveStep(from, to, k, timers, pending);
        RingAt(timers, 2);
        var next := tev.next;
        Expire(tev);
        tev, k := next, k + 1;
      }
      MoveAt(from, to, k, timers, pending);
      ApartAt(timers, 0);
      ExpiredAreFront(from, k, now);
      MoveDone(from, to, k, timers, pending);
    }

    /** calcNextTimeout: how long select may sleep. It wakes when the first of all timers is due, at once if one is
        overdue, and without timers it may sleep for ever. */
    method NextTimeout(now: int) returns (some: bool, delay: int)
      requires Valid()
      ensures some <==> |timers| > 1
      ensures some ==> delay >= 0 && (delay == 0 || forall i :: 1 <= i < |timers| ==> now + delay <= timers[i].timeout)
      ensures some ==> exists i :: 1 <= i < |timers| && timers[i].timeout <= now + delay
    {
      hide Ring, Apart, Disjoint;
      ApartAt(timers, 0);
      RingAt(timers, 1);
      var tev := timerList.next;
      if tev == timerList { return false, 0; }
      some, delay := true, if tev.timeout > now then tev.timeout - now else 0;
      assert timers[1] == tev;
    }

    /** processReadReadies puts a ready watch at the end of the pending list. */
    method Queue(ev: RilEvent)
      requires Valid() && ev !in timers && ev !in pending
      modifies this`pending, ev`next, ev`prev, pending`next, pending`prev
      ensures Valid() && pending == old(pending) + [ev]
    {
      hide Ring, Apart, Inserted, Sorted;
      RingAt(pending, |pending|);
      assert pendingList !in timers && pendingList.prev !in timers;
      AddToList(ev, pendingList, pending, |pending|);
      assert Ring(timers);
      InsertedIn(pending, |pending|, ev);
      InsertedIsSplice(pending, |pending|, ev);
      pending := Inserted(pending, |pending|, ev);
    }

    /** One turn of the loop in firePending up to the callback: ev is unlinked after its successor is saved. */
    method Unlink(ev: RilEvent) returns (next: RilEvent)
      requires Valid() && |pending| > 1 && ev == pending[1]
      modifies this`pending, pending`next, pending`prev
      ensures Valid() && pending == [pendingList] + old(pending)[2..] && ev !in pending
      ensures next == At(pending, 1)
    {
      hide Ring, Apart, Removed, Sorted;
      RingAt(pending, 1);
      RingAt(pending, 2);
      next := ev.next;
      RemovedIn(pending, 1);
      RemovedIsSplice(pending, 1);
      assert ev !in timers && ev.next !in timers && ev.prev !in timers;
      RemoveFromList(ev, pending, 1);
      assert Ring(timers);
      pending := Removed(pending, 1);
    }

    /** What a callback may do to the lists: add new timers. */
    method AddAll(deadlines: seq<int>)
      requires Valid()
      modifies this`timers, timers`next, timers`prev
      ensures Valid() && |timers| == |old(timers)| + |deadlines|
      ensures forall ev :: ev in old(timers) ==> ev in timers
      ensures forall ev :: ev in timers ==> ev in old(timers) || fresh(ev)
    {
      hide Ring, Apart, Inserted, Sorted, Disjoint;
      for i := 0 to |deadlines|
        invariant Valid() && |timers| == |old(timers)| + i
        invariant forall ev :: ev in old(timers) ==> ev in timers
        invariant forall ev :: ev in timers ==> ev in old(timers) || fresh(ev)
      {
        var ev := new RilEvent();
        ghost var was := timers;
        assert forall j :: 0 <= j < |timers| ==> timers[j] in old(timers) || fresh(timers[j]);
        var k := AddTimer(ev, deadlines[i], 0);
        InsertedIn(was, k, ev);
      }
    }

    /** firePending, whose callback in turn i adds timers with the deadlines added[i]: the successor saved before
        the callback is the next one to fire, and all that was pending fires in order. */
    method FirePending(added: seq<seq<int>>) returns (fired: seq<RilEvent>)
      requires Valid()
      modifies this`timers, this`pending, timers`next, timers`prev, pending`next, pending`prev
      ensures Valid() && pending == [pendingList] && fired == old(pending)[1..]
      ensures forall ev :: ev in old(timers) ==> ev in timers
      ensures added == [] ==> timers == old(timers)
    {
      hide Ring, Apart, Inserted, Sorted, Disjoint, Moving;
      RingAt(pending, 1);
      ghost var from, k := pending, 0;
      MoveStart(from, []);
      var ev := pendingList.next;
      fired := [];
      while ev != pendingList
        invariant Valid() && Moving(from, [], k, pending, fired) && |pending| == |from| - k > 0 && ev == At(pending, 1)
        invariant forall e :: e in old(timers) ==> e in timers
        invariant added == [] ==> timers == old(timers)
        invariant forall j :: 0 <= j < |timers| ==> timers[j] in old(timers) || fresh(timers[j])
        decreases |from| - k
      {
        MoveAt(from, [], k, pending, fired);
        MoveStep(from, [], k, pending, fired);
        var next := Unlink(ev);
        ghost var was := timers;
        if |fired| < |added| {
          AddAll(added[|fired|]);
          assert forall j :: 0 <= j < |timers| ==> timers[j] in was || fresh(timers[j]);
        }
        fired, ev, k := fired + [ev], next, k + 1;
      }
      MoveAt(from, [], k, pending, fired);
      ApartAt(pending, 0);
      MoveDone(from, [], k, pending, fired);
    }
  }
}
