/**
 * The wake lock of the RIL daemon at the granularity of single accesses to shared data. Responses run on threads
 * of the vendor library and timer callbacks on the event loop; nothing keeps them apart. Only waking responses
 * are here, since the others touch neither the lock nor the timers.
 */
module WakeThreads {
  import opened WakeLock

  /** Where a thread is in RIL_onUnsolicitedResponse; the lock is held from Marshal on. */
  datatype Response =
    | Idle
    | Marshal           // marshal and send
    | Test              // is there a timer to cancel?
    | Cancel            // load s_last_wake_timeout_info again
    | Mark(p: nat)      // store into record p
    | Arm               // malloc and ril_timer_add
    | Store(info: nat)  // s_last_wake_timeout_info := info

  /** Where the event loop is in userTimerCallback for record t. */
  datatype Callback =
    | Waiting
    | Call(t: nat, releases: bool)  // the user parameter is loaded, wakeTimeoutCallback not yet run
    | NotNull(t: nat)               // first half of the comparison
    | Same(t: nat)                  // second half
    | Clear(t: nat)
    | Free(t: nat)

  /** fault: a store went through NULL or into a freed record. */
  datatype Threads = Threads(
    held: bool,
    last: nat,
    timers: map<nat, Timer>,
    responses: map<nat, Response>,
    loop: Callback,
    fault: bool)

  /** In a step of a response ok is what marshalling gives, and info what malloc returns; at the test ok says
      that the compiled code loads the name again for its use. In Expire the loop takes up a timer and loads its
      user parameter. */
  datatype Action =
    | Respond(r: nat, ok: bool, info: nat)  // thread r moves on
    | Vendor(info: nat)                     // RIL_requestTimedCallback
    | Expire(t: nat)                        // the loop enters the callback of t
    | Turn                                  // the loop moves on in its callback

  function Quiet(s: WakeLock.State, threads: set<nat>): Threads {
    Threads(s.held, s.last, s.timers, map r | r in threads :: Idle, Waiting, false)
  }

  predicate May(s: Threads, a: Action) {
    match a
    case Respond(r, _, info) => r in s.responses && (s.responses[r].Arm? ==> info != NULL && info !in s.timers)
    case Vendor(info) => info != NULL && info !in s.timers
    case Expire(t) => s.loop.Waiting? && t in s.timers
    case Turn => !s.loop.Waiting?
  }

  function Go(s: Threads, r: nat, to: Response): Threads {
    s.(responses := s.responses[r := to])
  }

  function Next(s: Threads, a: Action): Threads
    requires May(s, a)
  {
    match a
    case Vendor(info) => s.(timers := s.timers[info := Timer(false, false)])
    case Expire(t) => s.(loop := Call(t, Releases(s.timers, t)))
    case Turn => NextTurn(s)
    case Respond(r, ok, info) =>
      match s.responses[r]
      case Idle => Go(s.(held := true), r, Marshal)
      case Marshal => if ok then Go(s, r, Test) else Go(s.(held := false), r, Idle)
      case Test => Go(s, r, if s.last == NULL then Arm else if ok then Cancel else Mark(s.last))
      case Cancel => Go(s, r, Mark(s.last))
      case Mark(p) => Go(if p in s.timers then s.(timers := Cancelled(s.timers, p)) else s.(fault := true), r, Arm)
      case Arm => Go(s.(timers := s.timers[info := Timer(true, false)]), r, Store(info))
      case Store(n) => Go(s.(last := n), r, Idle)
  }

  function NextTurn(s: Threads): Threads
    requires !s.loop.Waiting?
  {
    match s.loop
    case Call(t, releases) => s.(held := s.held && !releases, loop := NotNull(t))
    case NotNull(t) => s.(loop := if s.last == NULL then Free(t) else Same(t))
    case Same(t) => s.(loop := if s.last == t then Clear(t) else Free(t))
    case Clear(t) => s.(last := NULL, loop := Free(t))
    case Free(t) => s.(timers := s.timers - {t}, loop := Waiting)
  }

  predicate MayRun(s: Threads, run: seq<Action>)
    decreases run
  {
    run == [] || (May(s, run[0]) && MayRun(Next(s, run[0]), run[1..]))
  }

  function After(s: Threads, run: seq<Action>): Threads
    requires MayRun(s, run)
    decreases run
  {
    if run == [] then s else After(Next(s, run[0]), run[1..])
  }

  // ------------------------------------------------------------ what is wanted

  /** The loop is at work on record t. */
  predicate Taken(s: Threads, t: nat) {
    !s.loop.Waiting? && s.loop.t == t
  }

  /** A response has armed timer t and not yet stored its address. */
  ghost predicate Handed(s: Threads, t: nat) {
    exists r :: r in s.responses && s.responses[r] == Store(t)
  }

  /** A timer will release the lock although the name is not its own, and nobody is about to store it. */
  ghost predicate Astray(s: Threads, t: nat) {
    Releases(s.timers, t) && t != s.last && !Taken(s, t) && !Handed(s, t)
  }

  /** What no schedule should reach: a store through NULL or into a freed record, the name of a freed record, two
      timers that will release the lock, or a lock that is held and that nothing is going to release. */
  ghost predicate Broken(s: Threads) {
    || s.fault
    || (s.last != NULL && s.last !in s.timers)
    || (exists t :: Astray(s, t))
    || (s.held && !Awaited(s) && forall r :: r in s.responses ==> s.responses[r] == Idle)
  }

  // ------------------------------------------------------------- the invariant

  /** Between cancelling (or finding nothing to cancel) and storing. */
  predicate PastCancel(p: Response) {
    p.Arm? || p.Store?
  }

  /** The loop has run the callback of t and will free t. */
  predicate PastRelease(s: Threads, t: nat) {
    Taken(s, t) && !s.loop.Call?
  }

  ghost predicate LastOk(s: Threads) {
    s.last != NULL ==>
      && s.last in s.timers && s.timers[s.last].release && s.loop != Free(s.last)
      && (s.timers[s.last].cancelled ==> exists r :: r in s.responses && PastCancel(s.responses[r]))
  }

  ghost predicate LoopOk(s: Threads) {
    && (!s.loop.Waiting? ==> s.loop.t in s.timers)
    && (s.loop.Call? && !s.loop.releases ==> !Releases(s.timers, s.loop.t))
    && (s.loop.Clear? ==> s.loop.t == s.last)
  }

  /** What thread r counts on. */
  ghost predicate ResponseOk(s: Threads, r: nat)
    requires r in s.responses
  {
    var p := s.responses[r];
    && (p.Cancel? ==> s.last != NULL)
    && (p.Mark? ==> p.p in s.timers && !Handed(s, p.p))
    && (p.Mark? && s.last in s.timers && s.last != p.p ==> s.timers[s.last].cancelled || Taken(s, s.last))
    && (PastCancel(p) && s.last in s.timers ==> s.timers[s.last].cancelled || Taken(s, s.last))
    && (p.Store? ==> Releases(s.timers, p.info) && p.info != s.last && s.loop != Free(p.info))
    && (p.Store? ==> forall q :: q in s.responses && s.responses[q] == p ==> q == r)
  }

  /** The lock is held for a stored timer that has not been called back, or for a response under way. */
  ghost predicate HeldOk(s: Threads) {
    s.held ==> Awaited(s) || exists r :: r in s.responses && Bound(s, r)
  }

  predicate Awaited(s: Threads) {
    Releases(s.timers, s.last) && !PastRelease(s, s.last)
  }

  ghost predicate Bound(s: Threads, r: nat)
    requires r in s.responses
  {
    var p := s.responses[r];
    !p.Idle? && (p.Store? ==> !PastRelease(s, p.info))
  }

  ghost predicate NoneAstray(s: Threads) {
    forall t :: Releases(s.timers, t) ==> t == s.last || Taken(s, t) || Handed(s, t)
  }

  ghost predicate Orderly(s: Threads) {
    && !s.fault && NULL !in s.timers
    && LastOk(s) && LoopOk(s) && HeldOk(s) && NoneAstray(s)
    && forall r :: r in s.responses ==> ResponseOk(s, r)
  }

  lemma OrderlyNotBroken(s: Threads)
    requires Orderly(s)
    ensures !Broken(s)
  {
  }

  // ------------------------------------------------------------------ hazards

  /** The steps that undo the order. The loop compares a record that its response has not stored yet. It clears the
      name that a response has tested and is about to load again. It frees the record that a response is about to
      store into. A response stores between comparison and clearing, or while another response is between its
      cancelling and its storing. */
  ghost predicate Hazard(s: Threads, a: Action)
    requires May(s, a)
  {
    match a
    case Turn =>
      (match s.loop
       case NotNull(t) => s.last == NULL && Handed(s, t)
       case Same(t) => s.last != t && Handed(s, t)
       case Clear(_) => exists r :: r in s.responses && s.responses[r].Cancel?
       case Free(t) => exists r :: r in s.responses && s.responses[r] == Mark(t)
       case _ => false)
    case Respond(r, _, _) =>
      s.responses[r].Store? && (s.loop.Clear? || (Rivals(s, r) && !Taken(s, s.responses[r].info)))
    case _ => false
  }

  /** Another response has loaded the name it cancels, or found none, and has not stored its own. */
  ghost predicate Rivals(s: Threads, r: nat) {
    exists q :: q in s.responses && q != r && (s.responses[q].Mark? || PastCancel(s.responses[q]))
  }

  // --------------------------------------------- exactly the hazards undo it

  lemma VendorKeeps(s: Threads, info: nat)
    requires Orderly(s) && May(s, Vendor(info))
    ensures Orderly(Next(s, Vendor(info)))
  {
    var n := Next(s, Vendor(info));
    assert forall t :: Releases(n.timers, t) <==> Releases(s.timers, t);
    forall r | r in n.responses
      ensures ResponseOk(n, r)
    {
      assert ResponseOk(s, r);
    }
  }

  lemma ExpireKeeps(s: Threads, t: nat)
    requires Orderly(s) && May(s, Expire(t))
    ensures Orderly(Next(s, Expire(t)))
  {
    var n := Next(s, Expire(t));
    forall u | Releases(n.timers, u)
      ensures u == n.last || Taken(n, u) || Handed(n, u)
    {
      if Handed(s, u) { assert Handed(n, u); }
    }
    forall r | r in n.responses
      ensures ResponseOk(n, r)
    {
      assert ResponseOk(s, r);
    }
    if s.held && !Awaited(s) {
      var r :| r in s.responses && Bound(s, r);
      assert Bound(n, r);
    }
  }

  lemma CallKeeps(s: Threads)
    requires Orderly(s) && s.loop.Call?
    ensures Orderly(NextTurn(s))
  {
    var n := NextTurn(s);
    SameHands(s, n);
    if n.held && !Awaited(n) {
      var r :| r in s.responses && Bound(s, r);
      assert ResponseOk(s, r) && Bound(n, r);
    }
  }

  /** A step of the loop that leaves name, records and responses alone. */
  lemma SameHands(s: Threads, n: Threads)
    requires Orderly(s) && n == s.(held := n.held, loop := n.loop)
    requires !s.loop.Waiting? && !n.loop.Waiting? && n.loop.t == s.loop.t
    requires n.loop.Free? ==> !Handed(s, n.loop.t) && n.loop.t != s.last
    ensures NoneAstray(n) && LastOk(n) && forall r :: r in n.responses ==> ResponseOk(n, r)
  {
    forall u | Releases(n.timers, u)
      ensures u == n.last || Taken(n, u) || Handed(n, u)
    {
      if Handed(s, u) { assert Handed(n, u); }
    }
    forall r | r in n.responses
      ensures ResponseOk(n, r)
    {
      assert ResponseOk(s, r);
      if s.responses[r].Store? { assert Handed(s, s.responses[r].info); }
    }
  }

  lemma CompareIff(s: Threads)
    requires Orderly(s) && (s.loop.NotNull? || s.loop.Same?)
    ensures Orderly(NextTurn(s)) <==> !Hazard(s, Turn)
  {
    var n, t := NextTurn(s), s.loop.t;
    if Hazard(s, Turn) {
      var r :| r in s.responses && s.responses[r] == Store(t);
      assert !ResponseOk(n, r);
    } else {
      SameHands(s, n);
      if n.held && !Awaited(n) {
        var r :| r in s.responses && Bound(s, r);
        assert Bound(n, r);
      }
    }
  }

  lemma ClearIff(s: Threads)
    requires Orderly(s) && s.loop.Clear?
    ensures Orderly(NextTurn(s)) <==> !Hazard(s, Turn)
  {
    var n, t := NextTurn(s), s.loop.t;
    if Hazard(s, Turn) {
      var r :| r in s.responses && s.responses[r].Cancel?;
      assert !ResponseOk(n, r);
    } else {
      forall u | Releases(n.timers, u)
        ensures u == n.last || Taken(n, u) || Handed(n, u)
      {
        if Handed(s, u) { assert Handed(n, u); }
      }
      forall r | r in n.responses
        ensures ResponseOk(n, r)
      {
        assert ResponseOk(s, r);
      }
      if n.held {
        var r :| r in s.responses && Bound(s, r);
        assert Bound(n, r);
      }
    }
  }

  lemma FreeIff(s: Threads)
    requires Orderly(s) && s.loop.Free?
    ensures Orderly(NextTurn(s)) <==> !Hazard(s, Turn)
  {
    var n, t := NextTurn(s), s.loop.t;
    if Hazard(s, Turn) {
      var r :| r in s.responses && s.responses[r] == Mark(t);
      assert !ResponseOk(n, r);
    } else {
      forall u | Releases(n.timers, u)
        ensures u == n.last || Taken(n, u) || Handed(n, u)
      {
        assert Releases(s.timers, u) && u != t;
        if Handed(s, u) { assert Handed(n, u); }
      }
      forall r | r in n.responses
        ensures ResponseOk(n, r)
      {
        assert ResponseOk(s, r);
      }
      if n.held && !Awaited(n) {
        var r :| r in s.responses && Bound(s, r);
        assert Bound(n, r);
      }
    }
  }

  /** The other responses keep what they count on when one moves and name, records and loop stay. */
  lemma OthersStay(s: Threads, n: Threads, r: nat)
    requires Orderly(s) && r in s.responses && r in n.responses && n == Go(s.(held := n.held), r, n.responses[r])
    requires !PastCancel(s.responses[r]) && !n.responses[r].Store?
    ensures NoneAstray(n) && LastOk(n) && LoopOk(n)
    ensures forall q :: q in s.responses && q != r ==> ResponseOk(n, q)
    ensures forall t :: Handed(n, t) ==> Handed(s, t)
  {
    assert forall q :: q in s.responses && q != r ==> n.responses[q] == s.responses[q];
    forall u | Handed(s, u)
      ensures Handed(n, u)
    {
      var q :| q in s.responses && s.responses[q] == Store(u);
      assert n.responses[q] == Store(u);
    }
    forall q | q in s.responses && q != r
      ensures ResponseOk(n, q)
    {
      assert ResponseOk(s, q);
    }
    if s.last != NULL && s.timers[s.last].cancelled {
      var q :| q in s.responses && PastCancel(s.responses[q]);
      assert n.responses[q] == s.responses[q];
    }
  }

  /** The last record stored is not about to be stored. */
  lemma LastNotHanded(s: Threads)
    requires Orderly(s)
    ensures !Handed(s, s.last)
  {
  }

  /** Steps of a response that move its own place and the lock only. */
  lemma MoveKeeps(s: Threads, a: Action)
    requires Orderly(s) && May(s, a) && a.Respond? && s.responses[a.r] in {Idle, Marshal, Test, Cancel}
    ensures Orderly(Next(s, a))
  {
    var n, r := Next(s, a), a.r;
    OthersStay(s, n, r);
    assert ResponseOk(s, r);
    LastNotHanded(s);
    assert ResponseOk(n, r);
    if n.held { assert Bound(n, r); }
  }

  lemma MarkKeeps(s: Threads, a: Action)
    requires Orderly(s) && May(s, a) && a.Respond? && s.responses[a.r].Mark?
    ensures Orderly(Next(s, a))
  {
    var n, r := Next(s, a), a.r;
    assert ResponseOk(s, r);
    assert PastCancel(n.responses[r]) && Bound(n, r);
    assert forall q :: q in s.responses && q != r ==> n.responses[q] == s.responses[q];
    forall u | Releases(n.timers, u)
      ensures u == n.last || Taken(n, u) || Handed(n, u)
    {
      assert Releases(s.timers, u);
      if Handed(s, u) {
        var q :| q in s.responses && s.responses[q] == Store(u);
        assert n.responses[q] == Store(u);
      }
    }
    forall q | q in n.responses
      ensures ResponseOk(n, q)
    {
      assert ResponseOk(s, q);
    }
  }

  lemma ArmKeeps(s: Threads, a: Action)
    requires Orderly(s) && May(s, a) && a.Respond? && s.responses[a.r].Arm?
    ensures Orderly(Next(s, a))
  {
    var n, r := Next(s, a), a.r;
    assert ResponseOk(s, r);
    assert PastCancel(n.responses[r]) && Bound(n, r);
    assert forall q :: q in s.responses && q != r ==> n.responses[q] == s.responses[q];
    assert Handed(n, a.info);
    forall u | Releases(n.timers, u)
      ensures u == n.last || Taken(n, u) || Handed(n, u)
    {
      assert Releases(s.timers, u) || u == a.info;
      if u != a.info && Handed(s, u) {
        var q :| q in s.responses && s.responses[q] == Store(u);
        assert n.responses[q] == Store(u);
      }
    }
    forall q | q in n.responses
      ensures ResponseOk(n, q)
    {
      assert ResponseOk(s, q);
    }
  }

  lemma StoreIff(s: Threads, a: Action)
    requires Orderly(s) && May(s, a) && a.Respond? && s.responses[a.r].Store?
    ensures Orderly(Next(s, a)) <==> !Hazard(s, a)
  {
    var n, r := Next(s, a), a.r;
    var info := s.responses[r].info;
    assert ResponseOk(s, r);
    if Hazard(s, a) {
      if !s.loop.Clear? {
        var q :| q in s.responses && q != r && (s.responses[q].Mark? || PastCancel(s.responses[q]));
        assert ResponseOk(s, q) && n.responses[q] == s.responses[q];
        if s.responses[q] == Mark(info) { assert Handed(s, info); }
        assert !ResponseOk(n, q);
      }
    } else {
      StoreKeeps(s, a);
    }
  }

  lemma StoreKeeps(s: Threads, a: Action)
    requires Orderly(s) && May(s, a) && a.Respond? && s.responses[a.r].Store? && !Hazard(s, a)
    ensures Orderly(Next(s, a))
  {
    var n, r := Next(s, a), a.r;
    assert ResponseOk(s, r);
    assert forall q :: q in s.responses && q != r ==> n.responses[q] == s.responses[q];
    forall u | Releases(n.timers, u)
      ensures u == n.last || Taken(n, u) || Handed(n, u)
    {
      if u != n.last && Handed(s, u) {
        var q :| q in s.responses && s.responses[q] == Store(u);
        assert n.responses[q] == Store(u);
      }
    }
    forall q | q in n.responses
      ensures ResponseOk(n, q)
    {
      assert ResponseOk(s, q);
    }
    if n.held && PastRelease(n, n.last) {
      StillBound(s, r);
      var q :| q in s.responses && q != r && Bound(s, q);
      assert Bound(n, q);
    }
  }

  /** Once its timer has been called back, a response is not what the lock is held for. */
  lemma StillBound(s: Threads, r: nat)
    requires Orderly(s) && s.held && r in s.responses && s.responses[r].Store? && PastRelease(s, s.responses[r].info)
    ensures exists q :: q in s.responses && q != r && Bound(s, q)
  {
  }

  /** From an orderly state exactly the hazards lead out of order. */
  lemma OrderlyIff(s: Threads, a: Action)
    requires Orderly(s) && May(s, a)
    ensures Orderly(Next(s, a)) <==> !Hazard(s, a)
  {
    hide Orderly;
    match a {
      case Vendor(info) => VendorKeeps(s, info);
      case Expire(t) => ExpireKeeps(s, t);
      case Turn =>
        match s.loop {
          case Call(_, _) => CallKeeps(s);
          case Clear(_) => ClearIff(s);
          case Free(_) => FreeIff(s);
          case _ => CompareIff(s);
        }
      case Respond(r, _, _) =>
        match s.responses[r] {
          case Mark(_) => MarkKeeps(s, a);
          case Arm => ArmKeeps(s, a);
          case Store(_) => StoreIff(s, a);
          case _ => MoveKeeps(s, a);
        }
    }
  }

  /** No step of a run is a hazard. */
  ghost predicate NoHazard(s: Threads, run: seq<Action>)
    requires MayRun(s, run)
    decreases run
  {
    run == [] || (!Hazard(s, run[0]) && NoHazard(Next(s, run[0]), run[1..]))
  }

  /** The states of a run are all in order. */
  ghost predicate AllOrderly(s: Threads, run: seq<Action>)
    requires MayRun(s, run)
    decreases run
  {
    Orderly(s) && (run == [] || AllOrderly(Next(s, run[0]), run[1..]))
  }

  /** A schedule keeps everything in order if and only if none of its steps is a hazard. */
  lemma {:induction false} ScheduleIff(s: Threads, run: seq<Action>)
    requires Orderly(s) && MayRun(s, run)
    ensures AllOrderly(s, run) <==> NoHazard(s, run)
    ensures NoHazard(s, run) ==> Orderly(After(s, run))
    decreases run
  {
    hide Orderly, Next, May, Hazard;
    if run != [] {
      OrderlyIff(s, run[0]);
      if !Hazard(s, run[0]) { ScheduleIff(Next(s, run[0]), run[1..]); }
      if Orderly(Next(s, run[0])) { assert !Hazard(s, run[0]); }
      else { assert !AllOrderly(Next(s, run[0]), run[1..]); }
    }
  }

  lemma Above(ts: set<nat>) returns (info: nat)
    ensures info != NULL && forall t :: t in ts ==> t < info
    decreases ts
  {
    if ts == {} { return 1; }
    var t :| t in ts;
    var low := Above(ts - {t});
    info := if t < low then low else t + 1;
    assert forall u :: u in ts ==> u == t || u in ts - {t};
  }

  lemma Follow(s: Threads, a: Action, rest: seq<Action>)
    requires May(s, a) && MayRun(Next(s, a), rest)
    ensures MayRun(s, [a] + rest) && After(s, [a] + rest) == After(Next(s, a), rest)
    ensures NoHazard(s, [a] + rest) <==> !Hazard(s, a) && NoHazard(Next(s, a), rest)
  {
    assert ([a] + rest)[1..] == rest;
  }

  /** A hazard is the point of no return: finishing what is under way, in at most three more steps, breaks things. */
  lemma HazardBreaks(s: Threads, a: Action) returns (rest: seq<Action>)
    requires Orderly(s) && May(s, a) && Hazard(s, a)
    ensures |rest| <= 3 && MayRun(Next(s, a), rest) && Broken(After(Next(s, a), rest))
  {
    if a.Turn? {
      if s.loop.Clear? {
        rest := NullStore(s);
      } else if s.loop.Free? {
        rest := FreedStore(s);
      } else {
        rest := FreedName(s);
      }
    } else if s.loop.Clear? {
      rest := WipedName(s, a);
    } else {
      rest := Overwritten(s, a);
    }
  }

  /** The name is cleared between a response's test and its use. */
  lemma NullStore(s: Threads) returns (rest: seq<Action>)
    requires Orderly(s) && s.loop.Clear? && Hazard(s, Turn)
    ensures |rest| == 2 && MayRun(NextTurn(s), rest) && After(NextTurn(s), rest).fault
  {
    var r :| r in s.responses && s.responses[r].Cancel?;
    var n, a := NextTurn(s), Respond(r, true, 1);
    var m := Next(n, a);
    assert m == Go(n, r, Mark(NULL)) && NULL !in m.timers;
    Follow(m, a, []);
    Follow(n, a, [a]);
    rest := [a] + [a];
  }

  /** The record is freed between a response's load of the name and its store into the record. */
  lemma FreedStore(s: Threads) returns (rest: seq<Action>)
    requires Orderly(s) && s.loop.Free? && Hazard(s, Turn)
    ensures |rest| == 1 && MayRun(NextTurn(s), rest) && After(NextTurn(s), rest).fault
  {
    var r :| r in s.responses && s.responses[r] == Mark(s.loop.t);
    var n, a := NextTurn(s), Respond(r, true, 1);
    rest := [a];
    Follow(n, a, []);
  }

  /** The new timer is compared and freed before its response stores its address. */
  lemma FreedName(s: Threads) returns (rest: seq<Action>)
    requires Orderly(s) && (s.loop.NotNull? || s.loop.Same?) && Hazard(s, Turn)
    ensures |rest| == 2 && MayRun(NextTurn(s), rest)
    ensures var e := After(NextTurn(s), rest); e.last == s.loop.t && e.last != NULL && e.last !in e.timers
  {
    var t := s.loop.t;
    var r :| r in s.responses && s.responses[r] == Store(t);
    assert ResponseOk(s, r);
    var n, a := NextTurn(s), Respond(r, true, 1);
    var m := NextTurn(n);
    Follow(m, a, []);
    Follow(n, Turn, [a]);
    rest := [Turn] + [a];
  }

  /** The callback of the previous timer clears the name of the new one, which then goes astray. */
  lemma WipedName(s: Threads, a: Action) returns (rest: seq<Action>)
    requires Orderly(s) && s.loop.Clear? && May(s, a) && a.Respond? && s.responses[a.r].Store?
    ensures |rest| == 1 && MayRun(Next(s, a), rest) && Astray(After(Next(s, a), rest), s.responses[a.r].info)
  {
    var n, info := Next(s, a), s.responses[a.r].info;
    assert ResponseOk(s, a.r);
    rest := [Turn];
    Follow(n, Turn, []);
  }

  /** A second response overwrites the name of the first one's timer without cancelling it. */
  lemma Overwritten(s: Threads, a: Action) returns (rest: seq<Action>)
    requires Orderly(s) && May(s, a) && a.Respond? && s.responses[a.r].Store? && Hazard(s, a) && !s.loop.Clear?
    ensures |rest| <= 3 && MayRun(Next(s, a), rest) && Astray(After(Next(s, a), rest), s.responses[a.r].info)
  {
    var n, info := Next(s, a), s.responses[a.r].info;
    assert ResponseOk(s, a.r) && Handed(s, info);
    var q :| q in s.responses && q != a.r && (s.responses[q].Mark? || PastCancel(s.responses[q]));
    assert ResponseOk(s, q) && n.responses[q] == s.responses[q];
    assert Releases(n.timers, info) && !Taken(n, info) && !Handed(n, info);
    var unused := Above(n.timers.Keys);
    if n.responses[q].Store? {
      rest := StoreOver(n, q, info);
    } else if n.responses[q].Arm? {
      rest := ArmAndStore(n, q, unused, info);
    } else {
      rest := MarkAndStore(n, q, unused, info);
    }
  }

  /** Thread q stores its timer over the name of an uncancelled one. */
  lemma StoreOver(s: Threads, q: nat, info: nat) returns (rest: seq<Action>)
    requires q in s.responses && s.responses[q].Store? && s.responses[q].info != info
    requires Releases(s.timers, info) && !Taken(s, info) && !Handed(s, info)
    ensures |rest| == 1 && MayRun(s, rest) && Astray(After(s, rest), info)
  {
    var b := Respond(q, true, 1);
    rest := [b];
    Follow(s, b, []);
    assert forall r :: r in s.responses && r != q ==> Next(s, b).responses[r] == s.responses[r];
  }

  /** Thread q marks another record before that. */
  lemma MarkAndStore(s: Threads, q: nat, unused: nat, info: nat) returns (rest: seq<Action>)
    requires q in s.responses && s.responses[q].Mark? && s.responses[q].p in s.timers && s.responses[q].p != info
    requires unused != NULL && unused !in s.timers
    requires Releases(s.timers, info) && !Taken(s, info) && !Handed(s, info)
    ensures |rest| == 3 && MayRun(s, rest) && Astray(After(s, rest), info)
  {
    var b := Respond(q, true, unused);
    var m := Next(s, b);
    assert forall r :: r in s.responses && r != q ==> m.responses[r] == s.responses[r];
    assert !Handed(m, info);
    var more := ArmAndStore(m, q, unused, info);
    Follow(s, b, more);
    rest := [b] + more;
  }

  /** Thread q arms and stores its timer over the name of an uncancelled one. */
  lemma ArmAndStore(s: Threads, q: nat, unused: nat, info: nat) returns (rest: seq<Action>)
    requires q in s.responses && s.responses[q].Arm? && unused != NULL && unused !in s.timers
    requires Releases(s.timers, info) && !Taken(s, info) && !Handed(s, info)
    ensures |rest| == 2 && MayRun(s, rest) && Astray(After(s, rest), info)
  {
    var b := Respond(q, true, unused);
    var m := Next(s, b);
    Follow(m, b, []);
    Follow(s, b, [b]);
    rest := [b] + [b];
    assert forall r :: r in s.responses && r != q ==> m.responses[r] == s.responses[r];
    assert m.responses[q] == Store(unused) && unused != info;
  }

  // ------------------------------------------------------------ main results

  predicate AllIdle(s: Threads) {
    s.loop.Waiting? && forall r :: r in s.responses ==> s.responses[r] == Idle
  }

  lemma StartOrderly(threads: set<nat>)
    ensures Orderly(Quiet(Start, threads))
  {
  }

  /** On every schedule without a hazard, at every step: no store misses, the name is never that of a freed
      record, and no timer that will release the lock goes astray. Whenever no call is under way, the lock is
      held only if exactly one timer will release it, the one the daemon knows by name. */
  lemma HeldOnlyWithTimer(threads: set<nat>, run: seq<Action>)
    requires MayRun(Quiet(Start, threads), run) && NoHazard(Quiet(Start, threads), run)
    ensures var s := After(Quiet(Start, threads), run);
      && !Broken(s)
      && (AllIdle(s) && s.held ==> s.last != NULL)
      && (AllIdle(s) ==> forall t :: Releases(s.timers, t) <==> t == s.last && t != NULL)
      && (AllIdle(s) && s.timers == map[] ==> !s.held && s.last == NULL)
  {
    hide Next, May, Hazard;
    StartOrderly(threads);
    ScheduleIff(Quiet(Start, threads), run);
    OrderlyNotBroken(After(Quiet(Start, threads), run));
  }

  /** And a schedule with a hazard is at most three steps away from breaking, from its first hazard on. */
  lemma {:induction false} HazardousBreaks(s: Threads, run: seq<Action>) returns (k: nat, rest: seq<Action>)
    requires Orderly(s) && MayRun(s, run) && !NoHazard(s, run)
    ensures k <= |run| && |rest| <= 3 && MayRun(s, run[..k] + rest) && Broken(After(s, run[..k] + rest))
    decreases run
  {
    hide Orderly, Next, May, Hazard, Broken;
    OrderlyIff(s, run[0]);
    if Hazard(s, run[0]) {
      k := 1;
      rest := HazardBreaks(s, run[0]);
      Follow(s, run[0], rest);
      assert run[..1] + rest == [run[0]] + rest;
    } else {
      var j;
      j, rest := HazardousBreaks(Next(s, run[0]), run[1..]);
      k := j + 1;
      Follow(s, run[0], run[1..][..j] + rest);
      assert run[..k] + rest == [run[0]] + (run[1..][..j] + rest);
    }
  }

  /** A response is between its test and its store. */
  predicate InWindow(p: Response) {
    p.Cancel? || p.Mark? || PastCancel(p)
  }

  /** A callback does not compare or clear while a response is between its test and its store, and no two
      responses are there together. */
  ghost predicate Separate(s: Threads) {
    && (s.loop.NotNull? || s.loop.Same? || s.loop.Clear? ==>
          forall r :: r in s.responses ==> !InWindow(s.responses[r]))
    && forall q, r :: q in s.responses && r in s.responses && InWindow(s.responses[q]) && InWindow(s.responses[r]) ==>
         q == r
  }

  ghost predicate AllSeparate(s: Threads, run: seq<Action>)
    requires MayRun(s, run)
    decreases run
  {
    Separate(s) && (run == [] || AllSeparate(Next(s, run[0]), run[1..]))
  }

  /** No response is about to store into the record that the loop is about to free. */
  ghost predicate FreeAlone(s: Threads) {
    s.loop.Free? ==> forall r :: r in s.responses ==> s.responses[r] != Mark(s.loop.t)
  }

  lemma FreeStaysAlone(s: Threads, a: Action)
    requires Orderly(s) && May(s, a) && Separate(s) && FreeAlone(s)
    ensures FreeAlone(Next(s, a))
  {
    var n := Next(s, a);
    forall r | n.loop.Free? && r in n.responses
      ensures n.responses[r] != Mark(n.loop.t)
    {
      assert a.Respond? || n.responses[r] == s.responses[r];
    }
  }

  lemma {:induction false} SeparateNoHazard(s: Threads, run: seq<Action>)
    requires Orderly(s) && FreeAlone(s) && MayRun(s, run) && AllSeparate(s, run)
    ensures NoHazard(s, run)
    decreases run
  {
    hide Next, Orderly;
    if run != [] {
      assert !Hazard(s, run[0]);
      OrderlyIff(s, run[0]);
      FreeStaysAlone(s, run[0]);
      SeparateNoHazard(Next(s, run[0]), run[1..]);
    }
  }

  // -------------------------------------------------- calls without interruption

  /** The steps of a waking response that is not interrupted. */
  function ResponseSteps(s: WakeLock.State, r: nat, ok: bool, info: nat): seq<Action> {
    var a := Respond(r, ok, info);
    if !ok then [a, a] else if s.last == NULL then [a, a, a, a, a] else [a, a, a, a, a, a, a]
  }

  /** The steps of a timer callback that is not interrupted. */
  function CallbackSteps(s: WakeLock.State, t: nat): seq<Action> {
    if s.last == t then [Expire(t), Turn, Turn, Turn, Turn, Turn]
    else if s.last == NULL then [Expire(t), Turn, Turn, Turn]
    else [Expire(t), Turn, Turn, Turn, Turn]
  }

  lemma {:induction false} Extend(s: Threads, run: seq<Action>, a: Action)
    requires MayRun(s, run) && May(After(s, run), a)
    ensures MayRun(s, run + [a]) && After(s, run + [a]) == Next(After(s, run), a)
    ensures NoHazard(s, run + [a]) <==> NoHazard(s, run) && !Hazard(After(s, run), a)
    decreases run
  {
    hide Next, May, Hazard;
    if run == [] {
      assert run + [a] == [a] && [a][1..] == [];
    } else {
      assert (run + [a])[1..] == run[1..] + [a];
      Extend(Next(s, run[0]), run[1..], a);
    }
  }

  /** The run leads from q to n; calm says that it has no hazard. */
  ghost predicate Leads(q: Threads, run: seq<Action>, n: Threads, calm: bool) {
    MayRun(q, run) && After(q, run) == n && (calm ==> NoHazard(q, run))
  }

  lemma Stay(q: Threads, calm: bool)
    ensures Leads(q, [], q, calm)
  {
  }

  lemma Then(q: Threads, run: seq<Action>, n: Threads, calm: bool, a: Action)
    requires Leads(q, run, n, calm) && May(n, a) && (calm ==> !Hazard(n, a))
    ensures Leads(q, run + [a], Next(n, a), calm)
  {
    hide Next, May, Hazard;
    Extend(q, run, a);
  }

  lemma {:induction false} Chain(q: Threads, run: seq<Action>, n: Threads, more: seq<Action>, m: Threads, calm: bool)
    requires Leads(q, run, n, calm) && Leads(n, more, m, calm)
    ensures Leads(q, run + more, m, calm)
    decreases more
  {
    hide Next, May, Hazard;
    if more == [] {
      assert run + more == run;
    } else {
      Then(q, run, n, calm, more[0]);
      assert run + more == run + [more[0]] + more[1..];
      Chain(q, run + [more[0]], Next(n, more[0]), more[1..], m, calm);
    }
  }

  /** A response up to its test. */
  lemma TestSteps(s: Threads, r: nat, info: nat)
    requires r in s.responses && s.responses[r] == Idle
    ensures var a := Respond(r, true, info);
      Leads(s, [a, a, a], Go(s.(held := true), r, if s.last != NULL then Cancel else Arm), true)
  {
    var a := Respond(r, true, info);
    var s1 := Next(s, a);
    var s2 := Next(s1, a);
    var s3 := Next(s2, a);
    assert s3 == Go(s.(held := true), r, if s.last != NULL then Cancel else Arm);
    Follow(s2, a, []);
    Follow(s1, a, [a]);
    Follow(s, a, [a, a]);
    assert [a] + [a, a] == [a, a, a] && [a] + [a] == [a, a];
  }

  /** The last two steps of a response. */
  lemma StoreSteps(s: Threads, r: nat, info: nat)
    requires r in s.responses && s.responses[r] == Arm && info != NULL && info !in s.timers
    requires s.loop.Waiting? && !Rivals(s, r)
    ensures var a := Respond(r, true, info);
      Leads(s, [a, a], Go(s.(last := info, timers := s.timers[info := Timer(true, false)]), r, Idle), true)
  {
    var a := Respond(r, true, info);
    var s1 := Next(s, a);
    var s2 := Next(s1, a);
    assert s2 == Go(s.(last := info, timers := s.timers[info := Timer(true, false)]), r, Idle);
    assert !Hazard(s1, a);
    Follow(s1, a, []);
    Follow(s, a, [a]);
    assert [a] + [a] == [a, a];
  }

  /** A response that is not interrupted is the single step of WakeLock, and no hazard. */
  lemma ResponseAlone(s: WakeLock.State, threads: set<nat>, r: nat, ok: bool, info: nat)
    requires WakeLock.Inv(s) && r in threads && Legal(s, WakeLock.Response(true, ok, info))
    ensures Leads(Quiet(s, threads), ResponseSteps(s, r, ok, info),
                  Quiet(Step(s, WakeLock.Response(true, ok, info)), threads), true)
  {
    hide Leads;
    var q, a := Quiet(s, threads), Respond(r, ok, info);
    var end := Quiet(Step(s, WakeLock.Response(true, ok, info)), threads);
    if !ok {
      FailSteps(q, r, info);
      assert Go(q.(held := false), r, Idle) == end;
    } else {
      TestSteps(q, r, info);
      var run, n := [a, a, a], Go(q.(held := true), r, if s.last != NULL then Cancel else Arm);
      if s.last != NULL {
        Then(q, run, n, true, a);
        run, n := run + [a], Next(n, a);
        assert n.responses == q.responses[r := Mark(s.last)];
        Then(q, run, n, true, a);
        run, n := run + [a], Next(n, a);
      }
      StoreSteps(n, r, info);
      var m := Go(n.(last := info, timers := n.timers[info := Timer(true, false)]), r, Idle);
      Chain(q, run, n, [a, a], m, true);
      assert m.responses == end.responses;
      assert run + [a, a] == ResponseSteps(s, r, ok, info);
    }
  }

  lemma FailSteps(s: Threads, r: nat, info: nat)
    requires r in s.responses && s.responses[r] == Idle
    ensures var a := Respond(r, false, info); Leads(s, [a, a], Go(s.(held := false), r, Idle), true)
  {
    var a := Respond(r, false, info);
    var s1 := Next(s, a);
    assert Next(s1, a) == Go(s.(held := false), r, Idle);
    Follow(s1, a, []);
    Follow(s, a, [a]);
    assert [a] + [a] == [a, a];
  }

  /** So is a timer callback that is not interrupted. */
  lemma CallbackAlone(s: WakeLock.State, threads: set<nat>, t: nat)
    requires WakeLock.Inv(s) && Legal(s, Fire(t))
    ensures Leads(Quiet(s, threads), CallbackSteps(s, t), Quiet(Step(s, Fire(t)), threads), true)
  {
    hide Leads;
    var q := Quiet(s, threads);
    var run, n := [], q;
    Stay(q, true);
    Then(q, run, n, true, Expire(t)); run, n := run + [Expire(t)], Next(n, Expire(t));
    Then(q, run, n, true, Turn); run, n := run + [Turn], NextTurn(n);
    Then(q, run, n, true, Turn); run, n := run + [Turn], NextTurn(n);
    if s.last != NULL {
      Then(q, run, n, true, Turn); run, n := run + [Turn], NextTurn(n);
    }
    if s.last == t {
      Then(q, run, n, true, Turn); run, n := run + [Turn], NextTurn(n);
    }
    assert n.loop == Free(t) && n.responses == q.responses;
    Then(q, run, n, true, Turn); run, n := run + [Turn], NextTurn(n);
    assert run == CallbackSteps(s, t);
  }

  // ------------------------------------------------------- schedules that break

  /** One response whose timer fires before its address is stored: the daemon knows a freed record by name. */
  lemma FreedNameReached()
    ensures exists run, n :: Leads(Quiet(Start, {0}), run, n, false) && n.last == 1 && 1 !in n.timers
  {
    hide Leads, Hazard;
    var q, a := Quiet(Start, {0}), Respond(0, true, 1);
    TestSteps(q, 0, 1);
    var n := Go(q.(held := true), 0, Arm);
    Relax(q, [a, a, a], n);
    var run := [a, a, a];
    Then(q, run, n, false, a); run, n := run + [a], Next(n, a);
    Then(q, run, n, false, Expire(1)); run, n := run + [Expire(1)], Next(n, Expire(1));
    Then(q, run, n, false, Turn); run, n := run + [Turn], NextTurn(n);
    Then(q, run, n, false, Turn); run, n := run + [Turn], NextTurn(n);
    Then(q, run, n, false, Turn); run, n := run + [Turn], NextTurn(n);
    assert n.responses[0] == Store(1) && 1 !in n.timers;
    Then(q, run, n, false, a); run, n := run + [a], Next(n, a);
  }

  lemma Relax(q: Threads, run: seq<Action>, n: Threads)
    requires Leads(q, run, n, true)
    ensures Leads(q, run, n, false)
  {
  }

  /** Two responses at once leave two timers that will release the lock. */
  lemma TwoTimersReached()
    ensures exists run, n :: Leads(Quiet(Start, {0, 1}), run, n, false) && AllIdle(n) && Releases(n.timers, 1)
                             && Releases(n.timers, 2)
  {
    hide Leads, Hazard;
    var q, a, b := Quiet(Start, {0, 1}), Respond(0, true, 1), Respond(1, true, 2);
    TestSteps(q, 0, 1);
    var n := Go(q.(held := true), 0, Arm);
    TestSteps(n, 1, 2);
    var m := Go(n, 1, Arm);
    assert m == Go(n.(held := true), 1, Arm);
    Chain(q, [a, a, a], n, [b, b, b], m, true);
    var run := [a, a, a] + [b, b, b];
    Relax(q, run, m);
    Then(q, run, m, false, a); run, m := run + [a], Next(m, a);
    Then(q, run, m, false, b); run, m := run + [b], Next(m, b);
    Then(q, run, m, false, a); run, m := run + [a], Next(m, a);
    Then(q, run, m, false, b); run, m := run + [b], Next(m, b);
  }

  /** The next step of thread r is a store to address p, where no record is. */
  predicate StoresWild(s: Threads, r: nat, p: nat) {
    r in s.responses && s.responses[r] == Mark(p) && p !in s.timers && Next(s, Respond(r, true, 1)).fault
  }

  /** A response up to its test, after one whole response. */
  lemma SecondTest() returns (run: seq<Action>, n: Threads)
    ensures Leads(Quiet(Start, {0}), run, n, false)
    ensures n == Threads(true, 1, map[1 := Timer(true, false)], map[0 := Cancel], Waiting, false)
  {
    hide Leads, Hazard;
    var s := Step(Start, WakeLock.Response(true, true, 1));
    var o, q, a := Quiet(Start, {0}), Quiet(s, {0}), Respond(0, true, 2);
    ResponseAlone(Start, {0}, 0, true, 1);
    TestSteps(q, 0, 2);
    run, n := ResponseSteps(Start, 0, true, 1), Go(q.(held := true), 0, Cancel);
    Chain(o, run, q, [a, a, a], n, true);
    run := run + [a, a, a];
    Relax(o, run, n);
    assert n.responses == map[0 := Cancel];
  }

  /** A timer of the vendor library is the single step of WakeLock, in the middle of whatever else goes on. */
  lemma VendorAlone(s: WakeLock.State, threads: set<nat>, info: nat)
    requires Legal(s, WakeLock.Request(info))
    ensures May(Quiet(s, threads), Vendor(info))
    ensures Next(Quiet(s, threads), Vendor(info)) == Quiet(Step(s, WakeLock.Request(info)), threads)
  {
  }

  /** A callback that clears the name after a response has tested it: the response stores through NULL. */
  lemma NullStoreReached()
    ensures exists run, n :: Leads(Quiet(Start, {0}), run, n, false) && StoresWild(n, 0, NULL)
  {
    hide Leads, Hazard;
    var o, a := Quiet(Start, {0}), Respond(0, true, 2);
    var run, n := SecondTest();
    Then(o, run, n, false, Expire(1)); run, n := run + [Expire(1)], Next(n, Expire(1));
    Then(o, run, n, false, Turn); run, n := run + [Turn], NextTurn(n);
    Then(o, run, n, false, Turn); run, n := run + [Turn], NextTurn(n);
    Then(o, run, n, false, Turn); run, n := run + [Turn], NextTurn(n);
    Then(o, run, n, false, Turn); run, n := run + [Turn], NextTurn(n);
    assert n.responses[0] == Cancel && n.last == NULL;
    Then(o, run, n, false, a); run, n := run + [a], Next(n, a);
    assert StoresWild(n, 0, NULL);
  }

  /** A callback that frees the record whose address a response has loaded: the response stores into freed memory. */
  lemma FreedStoreReached()
    ensures exists run, n :: Leads(Quiet(Start, {0}), run, n, false) && StoresWild(n, 0, 1)
  {
    hide Leads, Hazard;
    var o, a := Quiet(Start, {0}), Respond(0, true, 2);
    var run, n := SecondTest();
    Then(o, run, n, false, a); run, n := run + [a], Next(n, a);
    Then(o, run, n, false, Expire(1)); run, n := run + [Expire(1)], Next(n, Expire(1));
    Then(o, run, n, false, Turn); run, n := run + [Turn], NextTurn(n);
    Then(o, run, n, false, Turn); run, n := run + [Turn], NextTurn(n);
    Then(o, run, n, false, Turn); run, n := run + [Turn], NextTurn(n);
    Then(o, run, n, false, Turn); run, n := run + [Turn], NextTurn(n);
    Then(o, run, n, false, Turn); run, n := run + [Turn], NextTurn(n);
    assert StoresWild(n, 0, 1);
  }

  // ------------------------------------------------------------ staying awake

  /** A response other than r is under way. */
  ghost predicate Others(s: Threads, r: int) {
    exists q :: q in s.responses && q != r && s.responses[q] != Idle
  }

  /** The lock is needed: a response is under way, or the timer of an earlier one is still to be called back. */
  ghost predicate Needed(s: Threads) {
    Others(s, -1) || (Releases(s.timers, s.last) && !Taken(s, s.last))
  }

  /** The lock is given up while it is needed by exactly two kinds of steps: a response that cannot be marshalled
      while another one, or the timer of an earlier one, needs the lock; and the callback of a timer while a
      response, or a later timer, does. */
  lemma AwakeIff(s: Threads, a: Action)
    requires Orderly(s) && May(s, a) && (Needed(s) ==> s.held)
    ensures (Needed(Next(s, a)) ==> Next(s, a).held) <==>
      match a
      case Respond(r, ok, _) =>
        !(s.responses[r].Marshal? && !ok && (Others(s, r) || (Releases(s.timers, s.last) && !Taken(s, s.last))))
      case Turn => !(s.loop.Call? && s.loop.releases && Needed(s))
      case _ => true
  {
    var n := Next(s, a);
    if a.Respond? {
      var r := a.r;
      assert forall q :: q in s.responses && q != r ==> n.responses[q] == s.responses[q];
      assert ResponseOk(s, r);
      if s.responses[r] != Idle { assert Others(s, -1); }
      if s.responses[r].Marshal? && !a.ok && Others(s, r) {
        var q :| q in s.responses && q != r && s.responses[q] != Idle;
        assert n.responses[q] != Idle;
      }
    } else {
      assert Others(n, -1) <==> Others(s, -1) by { assert n.responses == s.responses; }
    }
  }
}
