/** The whole RIL event loop on values: timers, watches and pending callbacks in one run. Callbacks and other threads
    may add timers and add and delete watches between any two steps of the loop. */
module LoopRuns {
  import TimerRuns
  import WatchTable

  type Watch = WatchTable.Watch

  datatype Event =
    | AddTimer(deadline: int)            // ril_timer_add
    | AddWatch(w: Watch)                 // ril_event_add
    | DelWatch(w: Watch)                 // ril_event_del of a watched event
    | Timeouts(now: int)                 // processTimeouts
    | Readies(rfds: set<int>, n: int)    // processReadReadies: select found n descriptors, those in rfds
    | Fire                               // one turn of the loop of firePending
    | Done                               // firePending returns

  datatype Loop = Loop(lists: TimerRuns.Loop, table: WatchTable.State)

  function Start(): Loop {
    Loop(TimerRuns.Start, WatchTable.Start)
  }

  /** How many watches a wake-up queues. */
  function Newly(l: Loop, rfds: set<int>, n: int): nat {
    |WatchTable.Served(l.table.slots, rfds, n, |l.table.slots|)|
  }

  /** What an event is for the lists. */
  function ListPart(l: Loop, e: Event): seq<TimerRuns.Event> {
    match e
    case AddTimer(deadline) => [TimerRuns.Add(deadline)]
    case Timeouts(now) => [TimerRuns.Timeouts(now)]
    case Readies(rfds, n) => [TimerRuns.Readies(Newly(l, rfds, n))]
    case Fire => [TimerRuns.Fire]
    case Done => [TimerRuns.Done]
    case _ => []
  }

  /** What an event is for the table. */
  function TablePart(e: Event): seq<WatchTable.Event> {
    match e
    case AddWatch(w) => [WatchTable.Add(w)]
    case DelWatch(w) => [WatchTable.Del(w)]
    case Readies(rfds, n) => [WatchTable.Wake(rfds, n)]
    case _ => []
  }

  predicate Legal(l: Loop, e: Event) {
    && (ListPart(l, e) == [] || TimerRuns.Legal(l.lists, ListPart(l, e)[0]))
    && (TablePart(e) == [] || WatchTable.Legal(l.table, TablePart(e)[0]))
  }

  function Step(l: Loop, e: Event): Loop
    requires Legal(l, e)
  {
    Loop(if ListPart(l, e) == [] then l.lists else TimerRuns.Step(l.lists, ListPart(l, e)[0]),
         if TablePart(e) == [] then l.table else WatchTable.Step(l.table, TablePart(e)[0]))
  }

  predicate LegalRun(events: seq<Event>)
    decreases |events|, 0
  {
    events == [] ||
    (LegalRun(events[..|events| - 1]) && Legal(Run(events[..|events| - 1]), events[|events| - 1]))
  }

  function Run(events: seq<Event>): Loop
    requires LegalRun(events)
    decreases |events|, 1
  {
    if events == [] then Start() else Step(Run(events[..|events| - 1]), events[|events| - 1])
  }

  // --------------------------------------------------- the two halves of a run

  ghost function ListEvents(events: seq<Event>): seq<TimerRuns.Event>
    requires LegalRun(events)
  {
    if events == [] then [] else
      var init := events[..|events| - 1];
      ListEvents(init) + ListPart(Run(init), events[|events| - 1])
  }

  ghost function TableEvents(events: seq<Event>): seq<WatchTable.Event> {
    if events == [] then [] else TableEvents(events[..|events| - 1]) + TablePart(events[|events| - 1])
  }

  lemma ListsAppended(es: seq<TimerRuns.Event>, e: TimerRuns.Event)
    requires TimerRuns.LegalRun(es) && TimerRuns.Legal(TimerRuns.Run(es), e)
    ensures TimerRuns.LegalRun(es + [e]) && TimerRuns.Run(es + [e]) == TimerRuns.Step(TimerRuns.Run(es), e)
  {
    hide TimerRuns.Step, TimerRuns.Legal;
    assert (es + [e])[..|es + [e]| - 1] == es;
  }

  lemma ListsStep(l: Loop, e: Event, es: seq<TimerRuns.Event>)
    requires Legal(l, e) && TimerRuns.LegalRun(es) && TimerRuns.Run(es) == l.lists
    ensures TimerRuns.LegalRun(es + ListPart(l, e)) && TimerRuns.Run(es + ListPart(l, e)) == Step(l, e).lists
  {
    hide TimerRuns.Step, TimerRuns.Legal, TimerRuns.LegalRun, TimerRuns.Run, Newly;
    var part := ListPart(l, e);
    if part == [] {
      assert es + part == es;
    } else {
      assert part == [part[0]];
      ListsAppended(es, part[0]);
    }
  }

  lemma TableStep(l: Loop, e: Event, es: seq<WatchTable.Event>)
    requires Legal(l, e) && WatchTable.LegalRun(WatchTable.Start, es) && WatchTable.Run(WatchTable.Start, es) == l.table
    ensures WatchTable.LegalRun(WatchTable.Start, es + TablePart(e))
    ensures WatchTable.Run(WatchTable.Start, es + TablePart(e)) == Step(l, e).table
  {
    hide WatchTable.Step, WatchTable.Legal, WatchTable.LegalRun, WatchTable.Run;
    var part := TablePart(e);
    if part == [] {
      assert es + part == es;
    } else {
      assert part == [part[0]];
      WatchTable.RunAppended(WatchTable.Start, es, part[0]);
    }
  }

  /** A run of the loop is a run of the lists and a run of the table, so that what holds of those holds of it. */
  lemma {:induction false} Projects(events: seq<Event>)
    requires LegalRun(events)
    ensures TimerRuns.LegalRun(ListEvents(events)) && TimerRuns.Run(ListEvents(events)) == Run(events).lists
    ensures WatchTable.LegalRun(WatchTable.Start, TableEvents(events))
    ensures WatchTable.Run(WatchTable.Start, TableEvents(events)) == Run(events).table
    decreases |events|
  {
    hide Step, Legal, ListPart, TablePart;
    if events != [] {
      var init, e := events[..|events| - 1], events[|events| - 1];
      Projects(init);
      ListsStep(Run(init), e, ListEvents(init));
      TableStep(Run(init), e, TableEvents(init));
    }
  }

  /** The lists number the watches as the table has queued them. */
  lemma {:induction false} SameQueue(events: seq<Event>)
    requires LegalRun(events)
    ensures Run(events).lists.readied == |Run(events).table.queued|
    decreases |events|
  {
    if events != [] {
      hide WatchTable.Served, WatchTable.Serve, WatchTable.Legal;
      var l, e := Run(events[..|events| - 1]), events[|events| - 1];
      SameQueue(events[..|events| - 1]);
      if e.Readies? { WatchTable.WakeQueues(l.table, e.rfds, e.n); }
    }
  }

  // ----------------------------------------------------------- whose turn it is

  /** The watches called back are among those queued. */
  ghost predicate Numbered(l: Loop) {
    var ns := TimerRuns.WatchesIn(l.lists.fired);
    forall i :: 0 <= i < |ns| ==> ns[i] < |l.table.queued|
  }

  /** The watches whose callbacks have been made, in order. */
  ghost function Called(l: Loop): seq<Watch>
    requires Numbered(l)
  {
    var ns := TimerRuns.WatchesIn(l.lists.fired);
    seq(|ns|, i requires 0 <= i < |ns| => l.table.queued[ns[i]])
  }

  /** Whatever callbacks and other threads add and delete: watches are called back in the order in which they were
      queued, once for each time, and when a round starts none is left. */
  lemma CalledInOrder(events: seq<Event>)
    requires LegalRun(events)
    ensures var l := Run(events);
      && Numbered(l)
      && Called(l) <= l.table.queued
      && |Called(l)| + |TimerRuns.WatchesIn(l.lists.pending)| == |l.table.queued|
      && (l.lists.phase.Selecting? ==> Called(l) == l.table.queued)
  {
    hide Run, LegalRun, TimerRuns.Run, TimerRuns.LegalRun, TimerRuns.WatchesIn;
    var l := Run(events);
    Projects(events);
    SameQueue(events);
    TimerRuns.WatchesOnce(ListEvents(events));
    TimerRuns.WatchesJoined(l.lists.fired, l.lists.pending);
    var ns := TimerRuns.WatchesIn(l.lists.fired);
    assert forall i :: 0 <= i < |ns| ==> ns[i] == TimerRuns.WatchesIn(TimerRuns.Log(l.lists))[i] == i;
  }

  /** A watch that is not persistent is called back no more often than it was added. */
  lemma CalledAtMostAdded(events: seq<Event>, w: Watch)
    requires LegalRun(events) && !w.persist
    ensures var l := Run(events);
      && Numbered(l)
      && multiset(Called(l))[w] <= WatchTable.Adds(TableEvents(events), w)
  {
    hide Run, LegalRun, WatchTable.Run, WatchTable.LegalRun, Called, WatchTable.Inv, WatchTable.Adds, WatchTable.Weight;
    hide Numbered, TableEvents;
    CalledInOrder(events);
    Projects(events);
    WatchTable.StartInv();
    WatchTable.QueuedAtMostAdded(WatchTable.Start, TableEvents(events), w);
    PrefixCount(Called(Run(events)), Run(events).table.queued, w);
  }

  lemma PrefixCount(a: seq<Watch>, b: seq<Watch>, w: Watch)
    requires a <= b
    ensures multiset(a)[w] <= multiset(b)[w]
  {
    assert b == a + b[|a|..];
  }

  /** The invariants of both halves hold on every run of the loop. */
  lemma LoopKeeps(events: seq<Event>)
    requires LegalRun(events)
    ensures TimerRuns.Inv(Run(events).lists) && WatchTable.Inv(Run(events).table)
  {
    hide Run, LegalRun, TimerRuns.Run, TimerRuns.LegalRun, WatchTable.Run, WatchTable.LegalRun, TimerRuns.Inv;
    hide WatchTable.Inv;
    Projects(events);
    TimerRuns.RunKeeps(ListEvents(events));
    WatchTable.StartInv();
    WatchTable.RunAgrees(WatchTable.Start, TableEvents(events));
  }

  // ------------------------------------------------------------------ one round

  lemma Longer(p: seq<Event>, e: Event)
    requires LegalRun(p + [e])
    ensures LegalRun(p) && Legal(Run(p), e) && Run(p + [e]) == Step(Run(p), e)
  {
    hide Step, Legal;
    assert (p + [e])[..|p + [e]| - 1] == p;
  }

  /** Watch w waits for its callback, as the k-th watch ever queued. */
  ghost predicate Awaits(l: Loop, w: Watch, k: nat) {
    k in TimerRuns.WatchesIn(l.lists.pending) && k < |l.table.queued| && l.table.queued[k] == w
  }

  lemma AwaitsTurn(events: seq<Event>, w: Watch, k: nat)
    requires LegalRun(events) && Awaits(Run(events), w, k)
    ensures Numbered(Run(events)) && |Called(Run(events))| <= k
  {
    hide Run, LegalRun, TimerRuns.Run, TimerRuns.LegalRun, TimerRuns.WatchesIn;
    var l := Run(events);
    Projects(events);
    CalledInOrder(events);
    TimerRuns.WatchesOnce(ListEvents(events));
    TimerRuns.WatchesJoined(l.lists.fired, l.lists.pending);
    var fired, pending := TimerRuns.WatchesIn(l.lists.fired), TimerRuns.WatchesIn(l.lists.pending);
    var i :| 0 <= i < |pending| && pending[i] == k;
    assert (fired + pending)[|fired| + i] == k;
  }

  /** From the wake-up until firePending returns, nothing joins the round and nothing leaves it. */
  lemma {:induction false} RoundFixed(p: seq<Event>, q: seq<Event>)
    requires LegalRun(p + q) && Done !in q
    ensures LegalRun(p)
    ensures Run(p).lists.phase.Firing? ==>
      && Run(p + q).lists.phase.Firing? && TimerRuns.Log(Run(p + q).lists) == TimerRuns.Log(Run(p).lists)
      && Run(p + q).table.queued == Run(p).table.queued
    decreases |q|
  {
    if q == [] {
      assert p + q == p;
    } else {
      var init, e := q[..|q| - 1], q[|q| - 1];
      assert p + q == p + init + [e] && e in q;
      Longer(p + init, e);
      RoundFixed(p, init);
      if Run(p).lists.phase.Firing? { TurnFixed(Run(p + init), e); }
    }
  }

  lemma TurnFixed(l: Loop, e: Event)
    requires Legal(l, e) && l.lists.phase.Firing? && e != Done
    ensures Step(l, e).lists.phase.Firing? && TimerRuns.Log(Step(l, e).lists) == TimerRuns.Log(l.lists)
    ensures Step(l, e).table.queued == l.table.queued
  {
    hide Newly, TimerRuns.Slot, WatchTable.Serve, WatchTable.Top, WatchTable.FirstFree, WatchTable.Where;
    if !e.AddWatch? && !e.DelWatch? { TimerRuns.LogGrows(l.lists, ListPart(l, e)[0]); }
  }

  /** All that is pending in a round is called back in it, in order, and nothing else is. */
  lemma RoundFires(p: seq<Event>, q: seq<Event>)
    requires LegalRun(p + q + [Done]) && Done !in q
    ensures LegalRun(p)
    ensures Run(p).lists.phase.Firing? ==> var after := Run(p + q + [Done]);
      && after.lists.phase.Selecting? && after.lists.fired == Run(p).lists.fired + Run(p).lists.pending
      && after.table.queued == Run(p).table.queued
  {
    hide Run, LegalRun;
    Longer(p + q, Done);
    RoundFixed(p, q);
  }

  /** Deleting a watch does not take back a callback that is pending: the watch is out of the table at once, and
      is called back later in the round all the same. */
  lemma DeletedStillCalled(p: seq<Event>, w: Watch, q: seq<Event>, k: nat)
    requires LegalRun(p + [DelWatch(w)] + q + [Done]) && Done !in q
    ensures LegalRun(p) && LegalRun(p + [DelWatch(w)]) && w !in Run(p + [DelWatch(w)]).table.slots
    ensures Run(p).lists.phase.Firing? && Awaits(Run(p), w, k) ==>
      var after := Run(p + [DelWatch(w)] + q + [Done]);
      && Numbered(Run(p)) && Numbered(after)
      && |Called(Run(p))| <= k < |Called(after)| && Called(after)[k] == w
  {
    hide Run, LegalRun, WatchTable.RemovedAt, WatchTable.Inv, TimerRuns.Step, Called, Numbered;
    var del := p + [DelWatch(w)];
    RoundFires(del, q);
    Longer(p, DelWatch(w));
    LoopKeeps(p);
    DeletedGone(Run(p).table, w);
    if Run(p).lists.phase.Firing? && Awaits(Run(p), w, k) {
      AwaitsTurn(p, w, k);
      TurnFixed(Run(p), DelWatch(w));
      CalledInOrder(del + q + [Done]);
    }
  }

  lemma DeletedGone(s: WatchTable.State, w: Watch)
    requires WatchTable.Inv(s) && w in s.slots
    ensures w !in WatchTable.Step(s, WatchTable.Del(w)).slots
  {
    hide WatchTable.Bound, WatchTable.FdsOf;
    WatchTable.Gone(s.slots, WatchTable.Where(s.slots, w), w);
  }

  /** The loop wakes up for the one watch there is. */
  lemma OneReady(s: WatchTable.State, w: Watch)
    requires WatchTable.Inv(s) && s.queued == [] && w.persist && w in s.slots
    ensures var after := WatchTable.Step(s, WatchTable.Wake({w.fd as int}, 1));
      after.queued == [w] == WatchTable.Served(s.slots, {w.fd as int}, 1, |s.slots|) && w in after.slots
  {
    hide WatchTable.Serve, WatchTable.Served, WatchTable.Count, WatchTable.Inv;
    var rfds := {w.fd as int};
    var after := WatchTable.Step(s, WatchTable.Wake(rfds, 1));
    WatchTable.WakeQueuesAll(s, rfds, 1, w);
    WatchTable.WakeQueues(s, rfds, 1);
    WatchTable.ServedIsCut(s.slots, rfds, 1, |s.slots|);
    assert after.queued[0..] == after.queued && w in after.queued;
    WatchTable.WakeLeaves(s, rfds, 1, w);
  }

  lemma WatchAdded(w: Watch)
    ensures var p := [AddWatch(w), Timeouts(0)];
      LegalRun(p) && w in Run(p).table.slots && Run(p).table.queued == []
      && Run(p).lists == TimerRuns.Start.(passes := 1, phase := TimerRuns.TimedOut)
  {
    hide Run, LegalRun, Newly;
    var add, late := AddWatch(w), Timeouts(0);
    assert [] + [add] == [add] && [add] + [late] == [add, late];
    Begins();
    Appended([], add);
    Appended([add], late);
    assert WatchTable.FirstFree(WatchTable.Start.slots) == 0;
    assert Run([add, late]).table.slots[0] == w;
  }

  lemma PendingAndWatched(l: Loop, w: Watch)
    requires WatchTable.Inv(l.table) && l.table.queued == [] && w.persist && w in l.table.slots
    requires l.lists.phase.TimedOut? && l.lists.pending == [] && l.lists.readied == 0
    ensures var e := Readies({w.fd as int}, 1); Legal(l, e) && Step(l, e).lists.phase.Firing?
    ensures var after := Step(l, Readies({w.fd as int}, 1)); Awaits(after, w, 0) && Legal(after, DelWatch(w))
  {
    hide Newly, WatchTable.Step, WatchTable.Served, WatchTable.Inv, TimerRuns.WatchesIn;
    OneReady(l.table, w);
    OneServed(l, w);
    assert Step(l, Readies({w.fd as int}, 1)).lists.pending == TimerRuns.Numbered(0, 1);
    TimerRuns.NumberedIn(0, 1);
    assert TimerRuns.Numbers(0, 1)[0] == 0;
  }

  /** A persistent watch that is ready waits for its callback and can still be deleted. */
  lemma DeletedWhilePending(w: Watch)
    requires w.persist
    ensures var p := [AddWatch(w), Timeouts(0), Readies({w.fd as int}, 1)];
      LegalRun(p) && Run(p).lists.phase.Firing? && Awaits(Run(p), w, 0) && Legal(Run(p), DelWatch(w))
  {
    hide Run, LegalRun, Step, Legal, Awaits, WatchTable.Inv;
    var p, wake := [AddWatch(w), Timeouts(0)], Readies({w.fd as int}, 1);
    assert p + [wake] == [AddWatch(w), Timeouts(0), wake];
    WatchAdded(w);
    LoopKeeps(p);
    PendingAndWatched(Run(p), w);
    Appended(p, wake);
  }

  lemma Begins()
    ensures LegalRun([]) && Run([]) == Start()
  {
  }

  lemma Appended(p: seq<Event>, e: Event)
    requires LegalRun(p) && Legal(Run(p), e)
    ensures LegalRun(p + [e]) && Run(p + [e]) == Step(Run(p), e)
  {
    hide Step, Legal;
    assert (p + [e])[..|p + [e]| - 1] == p;
  }

  lemma OneServed(l: Loop, w: Watch)
    requires WatchTable.Served(l.table.slots, {w.fd as int}, 1, |l.table.slots|) == [w]
    ensures Newly(l, {w.fd as int}, 1) == 1
  {
  }
}
