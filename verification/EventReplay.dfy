/** Any run of the RIL event loop in memory: the linked lists and the watch table hold what the run on values says. */
module EventReplay {
  import opened Seqs
  import opened RilRings
  import opened WatchTable
  import TimerRuns
  import LoopRuns

  /** ring is the timer list of the run: records[id] is the event of timer id. */
  ghost predicate TimersShown(ring: seq<RilEvent>, timers: seq<TimerRuns.Timer>, records: seq<RilEvent>)
    reads ring`timeout
  {
    && |ring| == |timers| + 1
    && forall i :: 0 <= i < |timers| ==>
         timers[i].id < |records| && ring[i + 1] == records[timers[i].id] && ring[i + 1].timeout == timers[i].deadline
  }

  ghost predicate Known(e: TimerRuns.Entry, records: seq<RilEvent>, links: seq<RilEvent>) {
    match e
    case Expired(t, _, _) => t.id < |records|
    case Ready(k) => k < |links|
  }

  ghost function EventOf(e: TimerRuns.Entry, records: seq<RilEvent>, links: seq<RilEvent>): RilEvent
    requires Known(e, records, links)
  {
    match e
    case Expired(t, _, _) => records[t.id]
    case Ready(k) => links[k]
  }

  /** ring is the pending list of the run: links are the events of the watches queued so far. */
  ghost predicate PendingShown(ring: seq<RilEvent>, pending: seq<TimerRuns.Entry>, records: seq<RilEvent>,
                               links: seq<RilEvent>)
  {
    && |ring| == |pending| + 1
    && forall i :: 0 <= i < |pending| ==>
         Known(pending[i], records, links) && ring[i + 1] == EventOf(pending[i], records, links)
  }

  ghost predicate Shown(l: EventLists, s: TimerRuns.Loop, records: seq<RilEvent>, links: seq<RilEvent>)
    reads l, l.timers, l.pending
  {
    && l.Valid() && |records| == s.nextId
    && TimersShown(l.timers, s.timers, records)
    && PendingShown(l.pending, s.pending, records, links)
  }

  lemma SlotMatches(ring: seq<RilEvent>, timers: seq<TimerRuns.Timer>, records: seq<RilEvent>, k: nat, ev: RilEvent,
                    t: TimerRuns.Timer)
    requires TimersShown(ring, timers, records) && 1 <= k <= |ring| && t.id == |records| && ev.timeout == t.deadline
    requires forall i :: 1 <= i < k ==> ring[i].timeout < t.deadline
    requires k < |ring| ==> ring[k].timeout >= t.deadline
    ensures k == TimerRuns.Slot(timers, t.deadline) + 1
    ensures TimersShown(Inserted(ring, k, ev), timers[..k - 1] + [t] + timers[k - 1..], records + [ev])
  {
    hide TimerRuns.Slot, Inserted;
    var j := TimerRuns.Slot(timers, t.deadline);
    assert j < |timers| ==> ring[j + 1].timeout == timers[j].deadline;
    assert k - 1 < |timers| ==> ring[k].timeout == timers[k - 1].deadline;
    InsertedIsSplice(timers, k - 1, t);
    var after := Inserted(timers, k - 1, t);
    forall i | 0 <= i < |after|
      ensures after[i].id < |records + [ev]| && Inserted(ring, k, ev)[i + 1] == (records + [ev])[after[i].id]
      ensures Inserted(ring, k, ev)[i + 1].timeout == after[i].deadline
    {
      if i < k - 1 { assert after[i] == timers[i]; }
      if i > k - 1 { assert after[i] == timers[i - 1]; }
    }
  }

  lemma PendingGrows(ring: seq<RilEvent>, pending: seq<TimerRuns.Entry>, records: seq<RilEvent>,
                     links: seq<RilEvent>, ev: RilEvent)
    requires PendingShown(ring, pending, records, links)
    ensures PendingShown(ring, pending, records + [ev], links)
  {
  }

  /** ril_timer_add with a new event. */
  method Add(l: EventLists, deadline: int, ghost s: TimerRuns.Loop, ghost records: seq<RilEvent>,
             ghost links: seq<RilEvent>)
    returns (ghost more: seq<RilEvent>)
    requires Shown(l, s, records, links)
    modifies l`timers, l.timers`next, l.timers`prev
    ensures Shown(l, TimerRuns.Step(s, TimerRuns.Add(deadline)), more, links)
    ensures l.pending == old(l.pending) && |more| == |records| + 1 && more[..|records|] == records
    ensures fresh(more[|records|])
    ensures forall j :: 0 <= j < |l.timers| ==> l.timers[j] in old(l.timers) || fresh(l.timers[j])
  {
    hide EventLists.Valid, Inserted, TimersShown, PendingShown, TimerRuns.Slot;
    var ev := new RilEvent();
    ghost var ring, t := l.timers, TimerRuns.Timer(s.nextId, deadline, s.passes);
    ghost var k := l.AddTimer(ev, deadline, 0);
    more := records + [ev];
    SlotMatches(ring, s.timers, records, k, ev, t);
    PendingGrows(l.pending, s.pending, records, links, ev);
  }

  lemma DueMatches(ring: seq<RilEvent>, s: TimerRuns.Loop, records: seq<RilEvent>, k: nat, now: int)
    requires TimersShown(ring, s.timers, records) && k < |ring|
    requires forall i :: 1 <= i < |ring| ==> (ring[i].timeout < now <==> i <= k)
    ensures k == TimerRuns.Due(s.timers, now)
  {
    hide TimerRuns.Due;
    var j := TimerRuns.Due(s.timers, now);
    assert j < |s.timers| ==> ring[j + 1].timeout == s.timers[j].deadline;
    assert k < |s.timers| ==> ring[k + 1].timeout == s.timers[k].deadline;
  }

  lemma FrontMoves(ring: seq<RilEvent>, pending: seq<RilEvent>, s: TimerRuns.Loop, records: seq<RilEvent>,
                   links: seq<RilEvent>, k: nat, now: int)
    requires TimersShown(ring, s.timers, records) && PendingShown(pending, s.pending, records, links)
    requires k < |ring| && k == TimerRuns.Due(s.timers, now)
    ensures var after := TimerRuns.Step(s, TimerRuns.Timeouts(now));
      && TimersShown([ring[0]] + ring[1 + k..], after.timers, records)
      && PendingShown(pending + ring[1..1 + k], after.pending, records, links)
  {
    hide TimerRuns.Due, TimerRuns.Expire;
    var after := TimerRuns.Step(s, TimerRuns.Timeouts(now));
    var rest, moved := [ring[0]] + ring[1 + k..], pending + ring[1..1 + k];
    forall i | 0 <= i < |after.timers|
      ensures after.timers[i].id < |records| && rest[i + 1] == records[after.timers[i].id]
      ensures rest[i + 1].timeout == after.timers[i].deadline
    {
      assert after.timers[i] == s.timers[k + i] && rest[i + 1] == ring[k + i + 1];
    }
    forall i | 0 <= i < |after.pending|
      ensures Known(after.pending[i], records, links)
      ensures moved[i + 1] == EventOf(after.pending[i], records, links)
    {
      if i >= |s.pending| {
        var j := i - |s.pending|;
        assert after.pending[i] == TimerRuns.Expired(s.timers[j], s.passes, now) && moved[i + 1] == ring[j + 1];
      }
    }
  }

  /** processTimeouts. */
  method Timeouts(l: EventLists, now: int, ghost s: TimerRuns.Loop, ghost records: seq<RilEvent>,
                  ghost links: seq<RilEvent>)
    requires Shown(l, s, records, links)
    modifies l`timers, l`pending, l.timers`next, l.timers`prev, l.pending`next, l.pending`prev
    ensures Shown(l, TimerRuns.Step(s, TimerRuns.Timeouts(now)), records, links)
    ensures forall j :: 0 <= j < |l.timers| ==> l.timers[j] in old(l.timers)
    ensures forall j :: 0 <= j < |l.pending| ==> l.pending[j] in old(l.pending) || l.pending[j] in old(l.timers)
  {
    hide EventLists.Valid, TimersShown, PendingShown, TimerRuns.Due, TimerRuns.Expire;
    ghost var ring, pending := l.timers, l.pending;
    Heads(l);
    ghost var k := l.ProcessTimeouts(now);
    DueMatches(ring, s, records, k, now);
    FrontMoves(ring, pending, s, records, links, k, now);
  }

  lemma Heads(l: EventLists)
    requires l.Valid()
    ensures |l.timers| > 0 && l.timers[0] == l.timerList && |l.pending| > 0 && l.pending[0] == l.pendingList
  {
  }

  lemma PendingExtended(ring: seq<RilEvent>, pending: seq<TimerRuns.Entry>, records: seq<RilEvent>,
                        links: seq<RilEvent>, more: seq<RilEvent>)
    requires PendingShown(ring, pending, records, links)
    ensures PendingShown(ring + more, pending + TimerRuns.Numbered(|links|, |more|), records, links + more)
  {
    var all := pending + TimerRuns.Numbered(|links|, |more|);
    forall i | 0 <= i < |all|
      ensures Known(all[i], records, links + more) && (ring + more)[i + 1] == EventOf(all[i], records, links + more)
    {
      if i < |pending| { assert all[i] == pending[i] && Known(pending[i], records, links); }
    }
  }

  lemma LinksJoined(a: seq<Watch>, b: seq<Watch>)
    ensures Links(a + b) == Links(a) + Links(b)
  {
  }

  /** The table is that of the run, its watches among ws. */
  ghost predicate Tabled(t: Table, s: WatchTable.State, ws: set<Watch>)
    reads t, t.slots, t.slots[..]
  {
    t.Valid() && !t.locked && t.Abs() == s && Among(t.slots[..], ws)
  }

  /** processReadReadies. */
  method Readies(l: EventLists, t: Table, rfds: set<int>, n: int, ghost s: LoopRuns.Loop, ghost records: seq<RilEvent>,
                 ghost ws: set<Watch>)
    requires Shown(l, s.lists, records, Links(s.table.queued)) && s.lists.readied == |s.table.queued|
    requires Tabled(t, s.table, ws) && t.Unlisted(l) && LoopRuns.Legal(s, LoopRuns.Readies(rfds, n))
    modifies t, t.slots, ws`index, l`pending, l.pending`next, l.pending`prev, LinksOf(ws)`next, LinksOf(ws)`prev
    ensures var after := LoopRuns.Step(s, LoopRuns.Readies(rfds, n));
      Shown(l, after.lists, records, Links(after.table.queued)) && Tabled(t, after.table, ws)
    ensures l.timers == old(l.timers)
    ensures forall j :: 0 <= j < |l.pending| ==> l.pending[j] in old(l.pending) || l.pending[j] in LinksOf(ws)
  {
    hide EventLists.Valid, TimersShown, PendingShown, Inv, Serve, Served;
    ghost var was, ring := t.Abs(), l.pending;
    ghost var served := Served(was.slots, rfds, n, MAX_FD_EVENTS);
    StepAmong(was, Wake(rfds, n), ws);
    WakeQueues(was, rfds, n);
    ServedAmong(was.slots, rfds, n, ws);
    PendingExtended(ring, s.lists.pending, records, Links(was.queued), Links(served));
    LinksJoined(was.queued, served);
    t.ProcessReadReadies(rfds, n, l);
    assert t.queued[|was.queued|..] == served;
  }

  /** One turn of firePending up to the callback, from the saved successor of the last turn. */
  method Fire(l: EventLists, ev: RilEvent, ghost s: TimerRuns.Loop, ghost records: seq<RilEvent>,
              ghost links: seq<RilEvent>)
    returns (next: RilEvent)
    requires Shown(l, s, records, links) && s.pending != [] && ev == At(l.pending, 1)
    modifies l`pending, l.pending`next, l.pending`prev
    ensures Shown(l, TimerRuns.Step(s, TimerRuns.Fire), records, links) && next == At(l.pending, 1)
    ensures forall j :: 0 <= j < |l.pending| ==> l.pending[j] in old(l.pending)
  {
    hide EventLists.Valid;
    ghost var from := l.pending;
    Heads(l);
    next := l.Unlink(ev);
    assert forall i :: 1 <= i < |l.pending| ==> l.pending[i] == from[i + 1];
  }

  lemma {:induction false} LegalPrefix(events: seq<LoopRuns.Event>, i: nat)
    requires LoopRuns.LegalRun(events) && i <= |events|
    ensures LoopRuns.LegalRun(events[..i])
    ensures i < |events| ==> LoopRuns.Legal(LoopRuns.Run(events[..i]), events[i]) && LoopRuns.LegalRun(events[..i + 1])
    ensures i < |events| ==> LoopRuns.Run(events[..i + 1]) == LoopRuns.Step(LoopRuns.Run(events[..i]), events[i])
    decreases |events|
  {
    hide LoopRuns.Step, LoopRuns.Legal;
    var n := |events|;
    if i == n {
      assert events[..i] == events;
    } else {
      assert events[..i + 1][..i] == events[..i];
      if i < n - 1 {
        LegalPrefix(events[..n - 1], i);
        assert events[..n - 1][..i] == events[..i] && events[..n - 1][..i + 1] == events[..i + 1];
      } else {
        assert events[..i + 1] == events;
      }
    }
  }

  /** Between rounds nothing is pending, and before the ready watches come only timers are. */
  ghost predicate Phased(s: TimerRuns.Loop) {
    && (s.phase.Selecting? ==> s.pending == [])
    && (s.phase.TimedOut? ==> forall i :: 0 <= i < |s.pending| ==> s.pending[i].Expired?)
  }

  lemma PhasedStep(s: TimerRuns.Loop, e: TimerRuns.Event)
    requires Phased(s) && TimerRuns.Legal(s, e)
    ensures Phased(TimerRuns.Step(s, e))
    ensures TimerRuns.Step(s, e).phase.Firing? <==> e.Readies? || (s.phase.Firing? && !e.Done?)
    ensures e.Fire? ==> s.phase.Firing? && s.pending != []
    ensures (e.Timeouts? ==> s.phase.Selecting?) && (e.Readies? ==> s.phase.TimedOut?)
    ensures e.Done? ==> s.phase.Firing? && s.pending == []
    ensures e.Done? ==> TimerRuns.Step(s, e).pending == s.pending && TimerRuns.Step(s, e).timers == s.timers
    ensures e.Done? ==> TimerRuns.Step(s, e).nextId == s.nextId
  {
  }

  lemma PendingLength(l: EventLists, s: TimerRuns.Loop, records: seq<RilEvent>, links: seq<RilEvent>)
    requires Shown(l, s, records, links)
    ensures |l.pending| == |s.pending| + 1 && l.pending[0] == l.pendingList
  {
  }

  lemma First(l: EventLists)
    requires l.Valid()
    ensures |l.pending| > 0 && l.pendingList.next == At(l.pending, 1)
  {
    RingAt(l.pending, 1);
  }

  /** Before the ready watches come, what is pending are records of timers. */
  lemma OnlyTimers(l: EventLists, s: TimerRuns.Loop, records: seq<RilEvent>, links: seq<RilEvent>)
    requires Shown(l, s, records, links) && Phased(s) && s.phase.TimedOut?
    ensures forall j :: 0 <= j < |l.pending| ==> l.pending[j] == l.pendingList || l.pending[j] in records
  {
    forall j | 1 <= j < |l.pending|
      ensures l.pending[j] in records
    {
      assert s.pending[j - 1].Expired? && Known(s.pending[j - 1], records, links);
    }
  }

  // ------------------------------------------------------------- the whole loop

  /** Timers and list heads are not watches. */
  ghost predicate Listed(l: EventLists, records: seq<RilEvent>, links: set<RilEvent>)
    reads l
  {
    && l.pendingList !in links
    && (forall j :: 0 <= j < |records| ==> records[j] !in links)
    && (forall j :: 0 <= j < |l.timers| ==> l.timers[j] !in links)
  }

  /** Lists and table are those of the run. */
  ghost predicate Held(l: EventLists, t: Table, s: LoopRuns.Loop, records: seq<RilEvent>, ws: set<Watch>)
    reads l, l.timers, l.pending, t, t.slots, t.slots[..]
  {
    && Shown(l, s.lists, records, Links(s.table.queued)) && Phased(s.lists) && s.lists.readied == |s.table.queued|
    && Tabled(t, s.table, ws) && Listed(l, records, LinksOf(ws))
  }

  lemma NoneListed(l: EventLists, t: Table, s: LoopRuns.Loop, records: seq<RilEvent>, ws: set<Watch>)
    requires Held(l, t, s, records, ws) && Separate(ws) && s.lists.phase.TimedOut?
    ensures t.Unlisted(l)
  {
    OnlyTimers(l, s.lists, records, Links(s.table.queued));
    forall i | 0 <= i < t.slots.Length && t.slots[i] != null
      ensures t.slots[i] in ws && t.slots[i].link in LinksOf(ws)
    {
      assert t.slots[..][i] == t.slots[i];
    }
    assert DistinctFds(t.slots[..]);
    forall i, j | 0 <= i < j < t.slots.Length && t.slots[i] != null && t.slots[j] != null
      ensures t.slots[i].link != t.slots[j].link
    {
      assert t.slots[..][i].fd != t.slots[..][j].fd;
    }
  }

  /** ril_event_add and ril_event_del of a watch. */
  method Watching(t: Table, e: LoopRuns.Event, ghost s: LoopRuns.Loop, ghost ws: set<Watch>)
    requires Tabled(t, s.table, ws) && LoopRuns.Legal(s, e) && (e.AddWatch? || e.DelWatch?) && e.w in ws
    modifies t`readFds, t`nfds, t`locked, t.slots, ws`index
    ensures Tabled(t, LoopRuns.Step(s, e).table, ws)
  {
    hide Inv, Added, RemovedAt;
    StepAmong(s.table, LoopRuns.TablePart(e)[0], ws);
    match e {
      case AddWatch(w) =>
        t.Add(w);
      case DelWatch(w) =>
        SlotOf(t, w);
        t.Del(w);
    }
  }

  /** The steps of the loop on the lists, other than the wake-up; next is the successor that firePending has saved. */
  method Turn(l: EventLists, cursor: RilEvent?, e: TimerRuns.Event, ghost s: TimerRuns.Loop,
              ghost records: seq<RilEvent>, ghost queue: seq<RilEvent>, ghost links: set<RilEvent>)
    returns (ghost more: seq<RilEvent>, next: RilEvent?)
    requires Shown(l, s, records, queue) && Phased(s) && Listed(l, records, links)
    requires TimerRuns.Legal(s, e) && !e.Readies? && (s.phase.Firing? ==> cursor == At(l.pending, 1))
    requires forall r :: r in links ==> allocated(r)
    modifies l, l.timers`next, l.timers`prev, l.pending`next, l.pending`prev
    ensures Shown(l, TimerRuns.Step(s, e), more, queue) && Listed(l, more, links)
    ensures TimerRuns.Step(s, e).phase.Firing? ==> next == At(l.pending, 1)
    ensures forall j :: 0 <= j < |l.timers| ==> l.timers[j] in old(l.timers) || fresh(l.timers[j])
    ensures forall j :: 0 <= j < |l.pending| ==> l.pending[j] in old(l.pending) || l.pending[j] in old(l.timers)
  {
    hide TimersShown, PendingShown, EventLists.Valid, TimerRuns.Legal, TimerRuns.Step;
    more, next := records, cursor;
    PhasedStep(s, e);
    Heads(l);
    match e {
      case Add(deadline) =>
        more := Add(l, deadline, s, records, queue);
      case Timeouts(now) =>
        Timeouts(l, now, s, records, queue);
      case Fire =>
        next := Fire(l, cursor, s, records, queue);
      case Done =>
        PendingLength(l, s, records, queue);
        assert cursor == l.pendingList;
    }
    Heads(l);
  }

  lemma LoopStep(s: LoopRuns.Loop, e: LoopRuns.Event)
    requires Phased(s.lists) && LoopRuns.Legal(s, e) && s.lists.readied == |s.table.queued|
    ensures var after := LoopRuns.Step(s, e);
      && Phased(after.lists) && after.lists.readied == |after.table.queued|
      && (after.lists.phase.Firing? <==> e.Readies? || (s.lists.phase.Firing? && !e.Done?))
      && (e.Readies? ==> s.lists.phase.TimedOut?)
      && (e.AddWatch? || e.DelWatch? ==> after.lists == s.lists && after.table.queued == s.table.queued)
      && (!e.AddWatch? && !e.DelWatch? && !e.Readies? ==> after.table == s.table)
  {
    hide TimerRuns.Slot, TimerRuns.Due, Serve, Served, FirstFree, Top, Where;
    if e.Readies? { WakeQueues(s.table, e.rfds, e.n); }
  }

  /** One event of a run. */
  method Play(l: EventLists, t: Table, cursor: RilEvent?, e: LoopRuns.Event, ghost s: LoopRuns.Loop,
              ghost records: seq<RilEvent>, ghost ws: set<Watch>)
    returns (ghost more: seq<RilEvent>, next: RilEvent?)
    requires Held(l, t, s, records, ws) && Separate(ws) && LoopRuns.Legal(s, e)
    requires e.AddWatch? || e.DelWatch? ==> e.w in ws
    requires s.lists.phase.Firing? ==> |l.pending| > 0 && cursor == At(l.pending, 1)
    requires forall r :: r in LinksOf(ws) ==> allocated(r)
    modifies l, l.timers`next, l.timers`prev, l.pending`next, l.pending`prev
    modifies t, t.slots, ws`index, LinksOf(ws)`next, LinksOf(ws)`prev
    ensures Held(l, t, LoopRuns.Step(s, e), more, ws)
    ensures LoopRuns.Step(s, e).lists.phase.Firing? ==> |l.pending| > 0 && next == At(l.pending, 1)
    ensures forall j :: 0 <= j < |l.timers| ==> l.timers[j] in old(l.timers) || fresh(l.timers[j])
    ensures forall j :: 0 <= j < |l.pending| ==>
      l.pending[j] in old(l.pending) || l.pending[j] in old(l.timers) || l.pending[j] in LinksOf(ws)
  {
    hide TimersShown, PendingShown, EventLists.Valid, TimerRuns.Legal, TimerRuns.Step;
    hide WatchTable.Legal, WatchTable.Step, Tabled, Separate;
    more, next := records, cursor;
    LoopStep(s, e);
    if e.AddWatch? || e.DelWatch? {
      Watching(t, e, s, ws);
    } else if e.Readies? {
      NoneListed(l, t, s, records, ws);
      Readies(l, t, e.rfds, e.n, s, records, ws);
      next := l.pendingList.next;
      First(l);
    } else {
      var step := match e
        case AddTimer(deadline) => TimerRuns.Add(deadline)
        case Timeouts(now) => TimerRuns.Timeouts(now)
        case Fire => TimerRuns.Fire
        case _ => TimerRuns.Done;
      more, next := Turn(l, cursor, step, s.lists, records, Links(s.table.queued), LinksOf(ws));
    }
    Heads(l);
  }

  lemma Begin(l: EventLists, t: Table, ws: set<Watch>)
    requires l.Valid() && l.timers == [l.timerList] && l.pending == [l.pendingList]
    requires l.timerList !in LinksOf(ws) && l.pendingList !in LinksOf(ws)
    requires t.Valid() && !t.locked && t.Abs() == WatchTable.Start
    ensures LoopRuns.LegalRun([]) && Held(l, t, LoopRuns.Run([]), [], ws) && LoopRuns.Run([]).lists.phase.Selecting?
  {
  }

  /** All events of a run, on new lists and a new table. In each round firePending starts at the head of the pending
      list and then follows the successor it saved before the callback, whatever was added or deleted in between. */
  method Replay(events: seq<LoopRuns.Event>, ghost ws: set<Watch>)
    returns (l: EventLists, t: Table, ghost records: seq<RilEvent>, cursor: RilEvent?)
    requires LoopRuns.LegalRun(events) && Separate(ws)
    requires forall e :: e in events && (e.AddWatch? || e.DelWatch?) ==> e.w in ws
    modifies ws`index, LinksOf(ws)`next, LinksOf(ws)`prev
    ensures Held(l, t, LoopRuns.Run(events), records, ws)
    ensures LoopRuns.Run(events).lists.phase.Firing? ==> |l.pending| > 0 && cursor == At(l.pending, 1)
  {
    hide Held, Separate, EventLists.Valid, LoopRuns.Legal, LoopRuns.LegalRun, LoopRuns.Run, LoopRuns.Step;
    l := new EventLists();
    t := new Table();
    records, cursor := [], null;
    Begin(l, t, ws);
    assert events[..0] == [];
    for i := 0 to |events|
      invariant LoopRuns.LegalRun(events[..i]) && Held(l, t, LoopRuns.Run(events[..i]), records, ws)
      invariant LoopRuns.Run(events[..i]).lists.phase.Firing? ==> |l.pending| > 0 && cursor == At(l.pending, 1)
      invariant fresh(l) && fresh(t) && fresh(t.slots)
      invariant forall j :: 0 <= j < |l.timers| ==> fresh(l.timers[j])
      invariant forall j :: 0 <= j < |l.pending| ==> fresh(l.pending[j]) || l.pending[j] in LinksOf(ws)
    {
      LegalPrefix(events, i);
      assert events[i] in events;
      records, cursor := Play(l, t, cursor, events[i], LoopRuns.Run(events[..i]), records, ws);
    }
    assert events[..|events|] == events;
  }
}
