/**
 * The wake lock of the RIL daemon and the timers that release it. A response and a timer callback are one
 * step each; the addresses of timer records may be used again after the record is freed.
 */
module WakeLock {

  const NULL := 0

  /** A UserCallbackInfo: release is true for wakeTimeoutCallback, cancelled for a user parameter other than NULL. */
  datatype Timer = Timer(release: bool, cancelled: bool)

  datatype State = State(held: bool, last: nat, timers: map<nat, Timer>)

  datatype Event =
    | Response(wake: bool, ok: bool, info: nat)  // an unsolicited response; info is the record malloc would return
    | Request(info: nat)                         // RIL_requestTimedCallback by the vendor library
    | Fire(info: nat)                            // userTimerCallback

  const Start := State(false, NULL, map[])

  predicate Legal(s: State, e: Event) {
    match e
    case Response(_, _, info) => info != NULL && info !in s.timers
    case Request(info) => info != NULL && info !in s.timers
    case Fire(info) => info in s.timers
  }

  /** The record last names is cancelled if it is still allocated. */
  function Cancelled(timers: map<nat, Timer>, last: nat): map<nat, Timer> {
    if last in timers then timers[last := timers[last].(cancelled := true)] else timers
  }

  function Step(s: State, e: Event): State
    requires Legal(s, e)
  {
    match e
    case Response(wake, ok, info) =>
      if !wake then s
      else if !ok then s.(held := false)
      else State(true, info, Cancelled(s.timers, s.last)[info := Timer(true, false)])
    case Request(info) => s.(timers := s.timers[info := Timer(false, false)])
    case Fire(info) =>
      State(s.held && !Releases(s.timers, info), if s.last == info then NULL else s.last, s.timers - {info})
  }

  predicate LegalRun(s: State, es: seq<Event>)
    decreases es
  {
    es == [] || (Legal(s, es[0]) && LegalRun(Step(s, es[0]), es[1..]))
  }

  function Run(s: State, es: seq<Event>): State
    requires LegalRun(s, es)
    decreases es
  {
    if es == [] then s else Run(Step(s, es[0]), es[1..])
  }

  /** A timer that will release the lock. */
  predicate Releases(timers: map<nat, Timer>, t: nat) {
    t in timers && timers[t].release && !timers[t].cancelled
  }

  /** One timer at most will release the lock: the one last names, which is allocated. */
  ghost predicate Inv(s: State) {
    && NULL !in s.timers
    && (s.last != NULL ==> Releases(s.timers, s.last))
    && (forall t :: Releases(s.timers, t) ==> t == s.last)
    && (s.held ==> s.last != NULL)
  }

  lemma StepKeeps(s: State, e: Event)
    requires Inv(s) && Legal(s, e)
    ensures Inv(Step(s, e))
  {
    var r := Step(s, e);
    forall t | Releases(r.timers, t)
      ensures t == r.last
    {
      assert Releases(s.timers, t) || t == e.info;
    }
  }

  lemma {:induction false} RunKeeps(s: State, es: seq<Event>)
    requires Inv(s) && LegalRun(s, es)
    ensures Inv(Run(s, es))
    decreases es
  {
    if es != [] {
      StepKeeps(s, es[0]);
      RunKeeps(Step(s, es[0]), es[1..]);
    }
  }

  /** Between any two steps: last never names a freed record, and while the lock is held there is
      exactly one timer that will release it, the one last names. */
  lemma HeldOnlyWithTimer(es: seq<Event>)
    requires LegalRun(Start, es)
    ensures var s := Run(Start, es);
      && (s.last != NULL ==> s.last in s.timers)
      && (s.held ==> s.last != NULL)
      && forall t :: Releases(s.timers, t) <==> t == s.last && t != NULL
  {
    RunKeeps(Start, es);
  }

  /** A waking response that is marshalled leaves the lock held, with its own timer the one that will release it; one
      that is not gives the lock up and arms nothing; any other response changes nothing. */
  lemma ResponseWakes(s: State, wake: bool, ok: bool, info: nat)
    requires Inv(s) && Legal(s, Response(wake, ok, info))
    ensures var r := Step(s, Response(wake, ok, info));
      && (!wake ==> r == s)
      && (wake && !ok ==> !r.held && r.timers == s.timers)
      && (wake && ok ==>
           && r.held && r.last == info && r.timers.Keys == s.timers.Keys + {info}
           && forall t :: Releases(r.timers, t) <==> t == info)
  {
    StepKeeps(s, Response(wake, ok, info));
  }

  /** A vendor timer releases nothing, and a callback frees its own record alone and lets go of the lock if and only
      if its timer was to release it. */
  lemma TimersMean(s: State, e: Event, t: nat)
    requires Inv(s) && Legal(s, e) && (e.Request? || e.Fire?)
    ensures var r := Step(s, e);
      && (e.Request? ==> r.held == s.held && r.timers.Keys == s.timers.Keys + {e.info})
      && (e.Request? ==> (Releases(r.timers, t) <==> Releases(s.timers, t)))
      && (e.Fire? ==> r.timers.Keys == s.timers.Keys - {e.info})
      && (e.Fire? ==> (Releases(r.timers, t) <==> Releases(s.timers, t) && t != e.info))
      && (e.Fire? ==> (r.held <==> s.held && !Releases(s.timers, e.info)))
  {
  }

  /** The daemon cannot stay awake by itself: once the outstanding timers have fired the lock is free. */
  lemma {:induction false} TimersRelease(s: State, es: seq<Event>)
    requires Inv(s) && LegalRun(s, es) && forall e :: e in es ==> e.Fire?
    requires forall t :: t in s.timers ==> Fire(t) in es
    ensures Run(s, es) == Start
    decreases es
  {
    if es != [] {
      assert es[0] in es && es[0].Fire?;
      var r := Step(s, es[0]);
      forall t | t in r.timers
        ensures Fire(t) in es[1..]
      {
        assert t in s.timers && es[0] != Fire(t);
      }
      StepKeeps(s, es[0]);
      TimersRelease(r, es[1..]);
    } else {
      assert s.timers == map[];
    }
  }

  /** The promise behind a timer: the lock stays held until that timer fires. */
  ghost predicate Awake(s: State) {
    s.last != NULL ==> s.held
  }

  /** It is broken by exactly one thing: a waking response that cannot be marshalled while a timer is
      outstanding gives up the lock the earlier response still needs. */
  lemma AwakeIff(s: State, e: Event)
    requires Inv(s) && Awake(s) && Legal(s, e)
    ensures Awake(Step(s, e)) <==> !(e.Response? && e.wake && !e.ok && s.last != NULL)
  {
  }

  /** Two responses show it: the second one fails, and the lock is gone though the first one's timer runs. */
  lemma LockLostEarly()
    ensures var es := [Response(true, true, 1), Response(true, false, 2)];
      LegalRun(Start, es) && !Run(Start, es).held && Releases(Run(Start, es).timers, 1)
  {
    var a := Step(Start, Response(true, true, 1));
    var b := Step(a, Response(true, false, 2));
    var es := [Response(true, true, 1), Response(true, false, 2)];
    assert es[1..] == [Response(true, false, 2)] && es[1..][1..] == [];
    assert LegalRun(b, []) && LegalRun(a, es[1..]);
    assert Run(a, es[1..]) == b;
  }

  class Daemon {
    var held: bool
    var lastWakeTimeoutInfo: nat
    var timers: map<nat, Timer>

    function Abs(): State
      reads this
    {
      State(held, lastWakeTimeoutInfo, timers)
    }

    constructor ()
      ensures Abs() == Start && Inv(Abs())
    {
      held, lastWakeTimeoutInfo, timers := false, NULL, map[];
    }

    /** RIL_onUnsolicitedResponse; ok says that the response function could marshal the data. */
    method OnUnsolicitedResponse(wake: bool, ok: bool, info: nat)
      requires Inv(Abs()) && Legal(Abs(), Response(wake, ok, info))
      modifies this
      ensures Abs() == Step(old(Abs()), Response(wake, ok, info)) && Inv(Abs())
    {
      StepKeeps(Abs(), Response(wake, ok, info));
      var shouldScheduleTimeout := false;
      if wake {
        held := true;
        shouldScheduleTimeout := true;
      }
      if !ok {
        if shouldScheduleTimeout { held := false; }
        return;
      }
      if shouldScheduleTimeout {
        if lastWakeTimeoutInfo != NULL {
          timers := timers[lastWakeTimeoutInfo := timers[lastWakeTimeoutInfo].(cancelled := true)];
        }
        timers := timers[info := Timer(true, false)];
        lastWakeTimeoutInfo := info;
      }
    }

    /** userTimerCallback with wakeTimeoutCallback inside it; other callbacks do not touch the lock. */
    method UserTimerCallback(info: nat)
      requires Inv(Abs()) && Legal(Abs(), Fire(info))
      modifies this
      ensures Abs() == Step(old(Abs()), Fire(info)) && Inv(Abs())
    {
      StepKeeps(Abs(), Fire(info));
      if timers[info].release && !timers[info].cancelled {
        held := false;
      }
      if lastWakeTimeoutInfo != NULL && lastWakeTimeoutInfo == info {
        lastWakeTimeoutInfo := NULL;
      }
      timers := timers - {info};
    }
  }
}
