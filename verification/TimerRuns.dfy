/** Timers and pending events of the RIL event loop over whole runs: rounds of the loop,
    interleaved with timer additions by other threads and by the callbacks themselves. */
module TimerRuns {
  import opened Seqs

  /** A timer as added: its number in the order of additions, its deadline in microseconds, and how
      many timeout passes had been made by then. */
  datatype Timer = Timer(id: nat, deadline: int, born: nat)

  /** An entry of the pending list: a timer that expired in a pass made at time at, or a ready watch, by its number
      in the order in which watches were queued. */
  datatype Entry = Expired(timer: Timer, pass: nat, at: int) | Ready(watch: nat)

  datatype Phase = Selecting | TimedOut | Firing

  datatype Loop = Loop(
    timers: seq<Timer>,     // timer_list
    pending: seq<Entry>,    // pending_list
    fired: seq<Entry>,      // callbacks made so far
    nextId: nat,
    passes: nat,
    readied: nat,           // watches queued so far
    phase: Phase)

  const Start: Loop := Loop([], [], [], 0, 0, 0, Selecting)

  // -------------------------------------------------------------- the steps

  /** Where ril_timer_add puts a timer: before the first one that is not due earlier. */
  function Slot(timers: seq<Timer>, deadline: int): (k: nat)
    ensures k <= |timers|
    ensures forall i :: 0 <= i < k ==> timers[i].deadline < deadline
    ensures k < |timers| ==> timers[k].deadline >= deadline
  {
    if timers == [] || timers[0].deadline >= deadline then 0 else 1 + Slot(timers[1..], deadline)
  }

  /** How many timers at the front are past their deadline. */
  function Due(timers: seq<Timer>, now: int): (k: nat)
    ensures k <= |timers|
    ensures forall i :: 0 <= i < k ==> now > timers[i].deadline
    ensures k < |timers| ==> now <= timers[k].deadline
  {
    if timers == [] || now <= timers[0].deadline then 0 else 1 + Due(timers[1..], now)
  }

  function Expire(timers: seq<Timer>, pass: nat, now: int): (es: seq<Entry>)
    ensures |es| == |timers|
    ensures forall i :: 0 <= i < |es| ==> es[i] == Expired(timers[i], pass, now)
  {
    seq(|timers|, i requires 0 <= i < |timers| => Expired(timers[i], pass, now))
  }

  function Numbered(first: nat, n: nat): (es: seq<Entry>)
    ensures |es| == n
    ensures forall i :: 0 <= i < n ==> es[i] == Ready(first + i)
  {
    seq(n, i requires 0 <= i < n => Ready(first + i))
  }

  datatype Event =
    | Add(deadline: int)           // ril_timer_add, from any thread or callback
    | Timeouts(now: int)           // processTimeouts
    | Readies(n: nat)              // processReadReadies, which queues n watches
    | Fire                         // one turn of the loop of firePending
    | Done                         // firePending returns

  function Step(l: Loop, e: Event): Loop {
    match e
    case Add(deadline) =>
      var t, k := Timer(l.nextId, deadline, l.passes), Slot(l.timers, deadline);
      l.(timers := l.timers[..k] + [t] + l.timers[k..], nextId := l.nextId + 1)
    case Timeouts(now) =>
      var k := Due(l.timers, now);
      l.(timers := l.timers[k..], pending := l.pending + Expire(l.timers[..k], l.passes, now),
         passes := l.passes + 1, phase := TimedOut)
    case Readies(n) =>
      l.(pending := l.pending + Numbered(l.readied, n), readied := l.readied + n, phase := Firing)
    case Fire =>
      if l.pending == [] then l
      else l.(pending := l.pending[1..], fired := l.fired + [l.pending[0]])
    case Done => l.(phase := Selecting)
  }

  /** The loop thread goes through its phases in order; additions may come at any time. */
  predicate Legal(l: Loop, e: Event) {
    match e
    case Add(_) => true
    case Timeouts(_) => l.phase.Selecting?
    case Readies(_) => l.phase.TimedOut?
    case Fire => l.phase.Firing? && l.pending != []
    case Done => l.phase.Firing? && l.pending == []
  }

  predicate LegalRun(events: seq<Event>) {
    events == [] ||
    (LegalRun(events[..|events| - 1]) && Legal(Run(events[..|events| - 1]), events[|events| - 1]))
  }

  function Run(events: seq<Event>): Loop {
    if events == [] then Start else Step(Run(events[..|events| - 1]), events[|events| - 1])
  }

  // ---------------------------------------------------------- what holds

  /** Deadline order, ties newest first. */
  predicate Sooner(a: Timer, b: Timer) {
    a.deadline < b.deadline || (a.deadline == b.deadline && a.id > b.id)
  }

  ghost predicate Sorted(timers: seq<Timer>) {
    forall i, j :: 0 <= i < j < |timers| ==> Sooner(timers[i], timers[j]) && timers[i].id != timers[j].id
  }

  /** Everything that has expired so far, in the order in which it is or will be called back. */
  function Log(l: Loop): seq<Entry> {
    l.fired + l.pending
  }

  /** Of two timers, the one called back second was added after the first expired, or is due later. */
  predicate Precedes(a: Entry, b: Timer) {
    a.Expired? ==> a.timer.id != b.id && (b.born <= a.pass ==> Sooner(a.timer, b))
  }

  ghost predicate InOrder(log: seq<Entry>) {
    forall i, j :: 0 <= i < j < |log| && log[j].Expired? ==> Precedes(log[i], log[j].timer)
  }

  /** A timer still waiting is not one that has expired, and is due after those it was waiting with. */
  ghost predicate Waiting(log: seq<Entry>, timers: seq<Timer>) {
    forall i, j :: 0 <= i < |log| && 0 <= j < |timers| ==> Precedes(log[i], timers[j])
  }

  ghost predicate Bounded(l: Loop) {
    && (forall j :: 0 <= j < |l.timers| ==> l.timers[j].id < l.nextId && l.timers[j].born <= l.passes)
    && (forall i :: 0 <= i < |Log(l)| && Log(l)[i].Expired? ==>
          Log(l)[i].timer.id < l.nextId && Log(l)[i].pass < l.passes && Log(l)[i].at > Log(l)[i].timer.deadline)
  }

  ghost predicate Inv(l: Loop) {
    && Sorted(l.timers) && InOrder(Log(l)) && Waiting(Log(l), l.timers) && Bounded(l)
    && (l.phase.Selecting? ==> l.pending == [])
  }

  // ------------------------------------------------------ every step keeps it

  lemma AddKeeps(l: Loop, deadline: int)
    requires Inv(l)
    ensures Inv(Step(l, Add(deadline)))
  {
    hide Slot;
    var t, k := Timer(l.nextId, deadline, l.passes), Slot(l.timers, deadline);
    var after := Step(l, Add(deadline));
    assert Log(after) == Log(l);
    InsertSorted(l.timers, t, k);
    forall i, j | 0 <= i < |Log(l)| && 0 <= j < |after.timers|
      ensures Precedes(Log(l)[i], after.timers[j])
    {
      if j < k {
        assert after.timers[j] == l.timers[j];
      } else if j > k {
        assert after.timers[j] == l.timers[j - 1];
      }
    }
  }

  lemma DueAfter(timers: seq<Timer>, deadline: int, j: nat)
    requires Sorted(timers) && Slot(timers, deadline) <= j < |timers|
    ensures timers[j].deadline >= deadline
  {
    hide Slot;
    var k := Slot(timers, deadline);
    if k < j { assert Sooner(timers[k], timers[j]); }
  }

  lemma InsertSorted(timers: seq<Timer>, t: Timer, k: nat)
    requires Sorted(timers) && k == Slot(timers, t.deadline)
    requires forall j :: 0 <= j < |timers| ==> timers[j].id < t.id
    ensures Sorted(timers[..k] + [t] + timers[k..])
  {
    hide Slot, Inserted;
    InsertedIsSplice(timers, k, t);
    var r := Inserted(timers, k, t);
    forall i, j | 0 <= i < j < |r|
      ensures Sooner(r[i], r[j]) && r[i].id != r[j].id
    {
      if i == k {
        DueAfter(timers, t.deadline, j - 1);
      } else if j != k {
        var a, b := if i < k then i else i - 1, if j < k then j else j - 1;
        assert r[i] == timers[a] && r[j] == timers[b] && Sooner(timers[a], timers[b]);
      }
    }
  }

  lemma TimeoutsKeeps(l: Loop, now: int)
    requires Inv(l) && l.phase.Selecting?
    ensures Inv(Step(l, Timeouts(now)))
  {
    hide Due, Precedes;
    var k, after := Due(l.timers, now), Step(l, Timeouts(now));
    var log, es := Log(l), Expire(l.timers[..k], l.passes, now);
    assert Log(after) == log + es;
    ExpireInOrder(log, l.timers, k, l.passes, now);
  }

  /** The expired front of the list goes behind the log, and before what stays. */
  lemma ExpireInOrder(log: seq<Entry>, timers: seq<Timer>, k: nat, pass: nat, now: int)
    requires Sorted(timers) && InOrder(log) && Waiting(log, timers) && k <= |timers|
    ensures InOrder(log + Expire(timers[..k], pass, now))
    ensures Waiting(log + Expire(timers[..k], pass, now), timers[k..])
  {
    var es := Expire(timers[..k], pass, now);
    forall i, j | 0 <= i < k && i < j < |timers|
      ensures Precedes(es[i], timers[j])
    {
    }
    hide Precedes, Expire;
    var all, n := log + es, |log|;
    forall i, j | 0 <= i < j < |all| && all[j].Expired?
      ensures Precedes(all[i], all[j].timer)
    {
      if j < n {
        assert all[i] == log[i] && all[j] == log[j];
      } else if i < n {
        assert all[i] == log[i] && all[j].timer == timers[j - n];
      } else {
        assert all[i] == es[i - n] && all[j].timer == timers[j - n];
      }
    }
    forall i, j | 0 <= i < |all| && 0 <= j < |timers[k..]|
      ensures Precedes(all[i], timers[k..][j])
    {
      assert timers[k..][j] == timers[k + j];
      assert all[i] == if i < n then log[i] else es[i - n];
    }
  }

  lemma QueueKeeps(l: Loop, e: Event)
    requires Inv(l) && Legal(l, e) && (e.Readies? || e.Fire? || e.Done?)
    ensures Inv(Step(l, e))
  {
    var after := Step(l, e);
    if e.Readies? {
      assert Log(after) == Log(l) + Numbered(l.readied, e.n);
    } else {
      assert Log(after) == Log(l);
    }
  }

  lemma {:induction false} RunKeeps(events: seq<Event>)
    requires LegalRun(events)
    ensures Inv(Run(events))
    decreases |events|
  {
    if events != [] {
      var before, e := Run(events[..|events| - 1]), events[|events| - 1];
      RunKeeps(events[..|events| - 1]);
      match e
      case Add(d) => AddKeeps(before, d);
      case Timeouts(now) => TimeoutsKeeps(before, now);
      case _ => QueueKeeps(before, e);
    }
  }

  // ------------------------------------------------------------ main results

  /** Over any run: the timer list is sorted, callbacks of timers come after their deadline, at most
      once each, and in deadline order with ties newest first among those that waited together;
      nothing is pending when a round starts. */
  lemma TimersFireInOrder(events: seq<Event>)
    requires LegalRun(events)
    ensures var l := Run(events);
      && Sorted(l.timers) && InOrder(l.fired)
      && (forall i :: 0 <= i < |l.fired| && l.fired[i].Expired? ==> l.fired[i].at > l.fired[i].timer.deadline)
      && (l.phase.Selecting? ==> l.pending == [])
  {
    hide Run, LegalRun;
    RunKeeps(events);
    var l := Run(events);
    assert forall i :: 0 <= i < |l.fired| ==> Log(l)[i] == l.fired[i];
  }

  /** After a timeout pass no timer that is past its deadline is left in the list. */
  lemma NoneLeftExpired(events: seq<Event>, now: int)
    requires LegalRun(events + [Timeouts(now)])
    ensures forall j :: 0 <= j < |Run(events + [Timeouts(now)]).timers| ==>
      now <= Run(events + [Timeouts(now)]).timers[j].deadline
  {
    var all := events + [Timeouts(now)];
    assert all[..|all| - 1] == events;
    RunKeeps(events);
    var l, k := Run(events), Due(Run(events).timers, now);
    assert forall j :: k < j < |l.timers| ==> Sooner(l.timers[k], l.timers[j]);
  }

  /** A timer that has been added is in the list, pending or fired. */
  lemma {:induction false} NoneLost(events: seq<Event>, id: nat)
    requires LegalRun(events) && id < Run(events).nextId
    ensures var l := Run(events);
      (exists j :: 0 <= j < |l.timers| && l.timers[j].id == id) ||
      (exists i :: 0 <= i < |Log(l)| && Log(l)[i].Expired? && Log(l)[i].timer.id == id)
    decreases |events|
  {
    if events != [] {
      var n := |events| - 1;
      var l, e := Run(events[..n]), events[n];
      var after := Step(l, e);
      if id < l.nextId {
        NoneLost(events[..n], id);
        if j :| 0 <= j < |l.timers| && l.timers[j].id == id {
          StillThere(l, e, j);
        } else {
          var i :| 0 <= i < |Log(l)| && Log(l)[i].Expired? && Log(l)[i].timer.id == id;
          assert Log(after)[i] == Log(l)[i];
        }
      } else {
        var k := Slot(l.timers, e.deadline);
        assert after.timers[k].id == id;
      }
    }
  }

  lemma StillThere(l: Loop, e: Event, j: nat)
    requires Legal(l, e) && j < |l.timers|
    ensures var after := Step(l, e);
      (exists x :: 0 <= x < |after.timers| && after.timers[x].id == l.timers[j].id) ||
      (exists i :: 0 <= i < |Log(after)| && Log(after)[i].Expired? && Log(after)[i].timer.id == l.timers[j].id)
  {
    hide Slot, Due;
    var after := Step(l, e);
    match e
    case Add(d) =>
      var k := Slot(l.timers, d);
      assert after.timers[if j < k then j else j + 1] == l.timers[j];
    case Timeouts(now) =>
      var k := Due(l.timers, now);
      if j < k {
        assert Log(after)[|Log(l)| + j].timer == l.timers[j];
      } else {
        assert after.timers[j - k] == l.timers[j];
      }
    case _ => assert after.timers[j] == l.timers[j];
  }

  /** The deadlines asked for in a run, in the order of additions. */
  function Deadlines(events: seq<Event>): seq<int> {
    if events == [] then [] else
      var e := events[|events| - 1];
      Deadlines(events[..|events| - 1]) + if e.Add? then [e.deadline] else []
  }

  /** The timer is one that was added with its deadline. */
  ghost predicate Asked(t: Timer, deadlines: seq<int>) {
    t.id < |deadlines| && t.deadline == deadlines[t.id]
  }

  ghost predicate AllAsked(l: Loop, deadlines: seq<int>) {
    && l.nextId == |deadlines|
    && (forall j :: 0 <= j < |l.timers| ==> Asked(l.timers[j], deadlines))
    && (forall i :: 0 <= i < |Log(l)| && Log(l)[i].Expired? ==> Asked(Log(l)[i].timer, deadlines))
  }

  lemma AskedStep(l: Loop, e: Event, deadlines: seq<int>)
    requires AllAsked(l, deadlines) && Legal(l, e) && !e.Add?
    ensures AllAsked(Step(l, e), deadlines)
  {
    hide Due, Asked;
    LogGrows(l, e);
  }

  lemma AskedAdd(l: Loop, deadline: int, deadlines: seq<int>)
    requires AllAsked(l, deadlines)
    ensures AllAsked(Step(l, Add(deadline)), deadlines + [deadline])
  {
    hide Slot, Inserted;
    var t, k := Timer(l.nextId, deadline, l.passes), Slot(l.timers, deadline);
    InsertedIsSplice(l.timers, k, t);
    assert Log(Step(l, Add(deadline))) == Log(l);
  }

  /** Every timer that waits, is pending or has fired has the deadline it was added with. */
  lemma {:induction false} DeadlinesKept(events: seq<Event>)
    requires LegalRun(events)
    ensures AllAsked(Run(events), Deadlines(events))
    decreases |events|
  {
    if events != [] {
      hide Step, AllAsked, Legal;
      var init, e := events[..|events| - 1], events[|events| - 1];
      DeadlinesKept(init);
      if e.Add? { AskedAdd(Run(init), e.deadline, Deadlines(init)); } else { AskedStep(Run(init), e, Deadlines(init)); }
      assert Deadlines(init) + [] == Deadlines(init);
    }
  }

  // ----------------------------------------------------------------- watches

  /** The watches among the entries, in order. */
  function WatchesIn(log: seq<Entry>): (ws: seq<nat>) {
    if log == [] then [] else
      WatchesIn(log[..|log| - 1]) + if log[|log| - 1].Ready? then [log[|log| - 1].watch] else []
  }

  lemma {:induction false} WatchesJoined(a: seq<Entry>, b: seq<Entry>)
    ensures WatchesIn(a + b) == WatchesIn(a) + WatchesIn(b)
    decreases |b|
  {
    if b == [] {
      assert a + b == a;
    } else {
      WatchesJoined(a, b[..|b| - 1]);
      assert (a + b)[..|a + b| - 1] == a + b[..|b| - 1];
    }
  }

  lemma {:induction false} TimersOnly(log: seq<Entry>)
    requires forall i :: 0 <= i < |log| ==> log[i].Expired?
    ensures WatchesIn(log) == []
  {
    if log != [] { TimersOnly(log[..|log| - 1]); }
  }

  /** The numbers from first on, n of them. */
  function Numbers(first: nat, n: nat): (ns: seq<nat>)
    ensures |ns| == n && forall i :: 0 <= i < n ==> ns[i] == first + i
  {
    seq(n, i requires 0 <= i < n => first + i)
  }

  lemma {:induction false} NumberedIn(first: nat, n: nat)
    ensures WatchesIn(Numbered(first, n)) == Numbers(first, n)
  {
    if n > 0 {
      NumberedIn(first, n - 1);
      assert Numbered(first, n)[..n - 1] == Numbered(first, n - 1);
    }
  }

  /** What a step puts behind the log. */
  function NewEntries(l: Loop, e: Event): seq<Entry> {
    match e
    case Timeouts(now) => Expire(l.timers[..Due(l.timers, now)], l.passes, now)
    case Readies(n) => Numbered(l.readied, n)
    case _ => []
  }

  lemma LogGrows(l: Loop, e: Event)
    requires Legal(l, e)
    ensures Log(Step(l, e)) == Log(l) + NewEntries(l, e)
  {
    hide Due, Slot;
    var after := Step(l, e);
    match e
    case Timeouts(now) => assert Log(after) == l.fired + (l.pending + NewEntries(l, e));
    case Readies(n) => assert Log(after) == l.fired + (l.pending + NewEntries(l, e));
    case _ => assert Log(after) == Log(l);
  }

  lemma WatchesStep(l: Loop, e: Event)
    requires Legal(l, e) && WatchesIn(Log(l)) == Numbers(0, l.readied)
    ensures var after := Step(l, e); WatchesIn(Log(after)) == Numbers(0, after.readied)
  {
    hide Due, Slot, WatchesIn, Log;
    var added := NewEntries(l, e);
    LogGrows(l, e);
    WatchesJoined(Log(l), added);
    if e.Readies? {
      NumberedIn(l.readied, e.n);
      assert Numbers(0, l.readied) + Numbers(l.readied, e.n) == Numbers(0, l.readied + e.n);
    } else {
      TimersOnly(added);
    }
  }

  /** Over any run every queued watch is called back or pending, once each, in the order of queueing; when a round
      starts all have been called back. */
  lemma {:induction false} WatchesOnce(events: seq<Event>)
    requires LegalRun(events)
    ensures var l := Run(events);
      && WatchesIn(Log(l)) == Numbers(0, l.readied)
      && (l.phase.Selecting? ==> WatchesIn(l.fired) == Numbers(0, l.readied))
    decreases |events|
  {
    hide Step, Legal, Inv, WatchesIn, Numbers;
    if events == [] {
      TimersOnly([]);
    } else {
      WatchesOnce(events[..|events| - 1]);
      WatchesStep(Run(events[..|events| - 1]), events[|events| - 1]);
    }
    TimersFireInOrder(events);
    assert Run(events).pending == [] ==> Log(Run(events)) == Run(events).fired;
  }
}
