/** Asynchronous posting of the framebuffer: the compositor thread, which runs fb_post
    and fb_close, and the posting thread, which pans the panel, over one mutex and two
    condition variables.  Every lock, wait, signal and store is a step of its own. */
module FramePost {

  datatype Option<T> = None | Some(value: T)

  /** A screen setup to pan to; it shows the given buffer. */
  datatype Frame = Frame(buffer: nat, yoffset: nat)

  datatype Op = Post(frame: Frame) | Copy | Close

  datatype MainPc =
    | Ready
    // fb_post_wait_idle
    | Enter(op: Op)
    | Test(op: Op)
    | Asleep(op: Op)
    | Leave(op: Op)
    // the rest of fb_post
    | Drop(op: Op)
    | Take(frame: Frame)
    | Claim(frame: Frame)
    | Store(frame: Frame)
    | Signal(frame: Frame)
    | Yield(frame: Frame)
    | Record(frame: Frame)
    // the rest of fb_close
    | QuitClaim
    | QuitStore
    | QuitSignal
    | QuitYield
    | Join
    | Closed

  datatype PosterPc =
    | Start
    | Check
    | Dozing
    | Fetch
    | Pan(frame: Frame)
    | Panning(frame: Frame)
    | Returned
    | Clear
    | Broadcast
    | Exit
    | Gone

  datatype Owner = Nobody | Compositor | Poster

  datatype State = State(
    main: MainPc,
    poster: PosterPc,
    mutex: Owner,
    pending: bool,
    quit: bool,
    info: Frame,               // sPost.info
    current: Option<nat>,      // m->currentBuffer
    locks: multiset<nat>,      // buffers locked for posting
    posted: seq<Frame>,        // frames handed over so far
    panned: seq<Frame>,        // frames whose pan has started
    finished: nat)             // pans that have returned

  function Initial(info: Frame): State {
    State(Ready, Start, Nobody, false, false, info, None, multiset{}, [], [], 0)
  }

  // -------------------------------------------------------------- compositor

  predicate MainCan(st: State) {
    match st.main
    case Asleep(_) => false
    case Closed => false
    case Enter(_) => st.mutex.Nobody?
    case Claim(_) => st.mutex.Nobody?
    case QuitClaim => st.mutex.Nobody?
    case Join => st.poster.Gone?
    case _ => true
  }

  /** The next step of the compositor; op is what it is asked to do when it is ready. */
  function MainStep(st: State, op: Op): State
    requires MainCan(st)
  {
    match st.main
    case Ready => st.(main := Enter(op))
    case Enter(op) => st.(main := Test(op), mutex := Compositor)
    case Test(op) => if st.pending then st.(main := Asleep(op), mutex := Nobody) else st.(main := Leave(op))
    case Leave(op) => st.(main := if op.Close? then QuitClaim else Drop(op), mutex := Nobody)
    case Drop(op) =>
      var locks := if st.current.Some? then st.locks - multiset{st.current.value} else st.locks;
      st.(main := if op.Post? then Take(op.frame) else Ready, current := None, locks := locks)
    case Take(f) => st.(main := Claim(f), locks := st.locks + multiset{f.buffer})
    case Claim(f) => st.(main := Store(f), mutex := Compositor)
    case Store(f) => st.(main := Signal(f), info := f, pending := true, posted := st.posted + [f])
    case Signal(f) => st.(main := Yield(f), poster := Woken(st.poster))
    case Yield(f) => st.(main := Record(f), mutex := Nobody)
    case Record(f) => st.(main := Ready, current := Some(f.buffer))
    case QuitClaim => st.(main := QuitStore, mutex := Compositor)
    case QuitStore => st.(main := QuitSignal, quit := true)
    case QuitSignal => st.(main := QuitYield, poster := Woken(st.poster))
    case QuitYield => st.(main := Join, mutex := Nobody)
    case Join => st.(main := Closed, quit := false)
  }

  function Woken(pc: PosterPc): PosterPc {
    if pc.Dozing? then Start else pc
  }

  // ---------------------------------------------------------- posting thread

  predicate PosterCan(st: State) {
    match st.poster
    case Dozing => false
    case Gone => false
    case Start => st.mutex.Nobody?
    case Returned => st.mutex.Nobody?
    case _ => true
  }

  function PosterStep(st: State): State
    requires PosterCan(st)
  {
    match st.poster
    case Start => st.(poster := Check, mutex := Poster)
    case Check =>
      if !st.pending && !st.quit then st.(poster := Dozing, mutex := Nobody)
      else if st.quit then st.(poster := Exit)
      else st.(poster := Fetch)
    case Fetch => st.(poster := Pan(st.info), mutex := Nobody)
    case Pan(f) => st.(poster := Panning(f), panned := st.panned + [f])
    case Panning(f) => st.(poster := Returned, finished := st.finished + 1)
    case Returned => st.(poster := Clear, mutex := Poster)
    case Clear => st.(poster := Broadcast, pending := false)
    case Broadcast =>
      st.(poster := Check, main := if st.main.Asleep? then Enter(st.main.op) else st.main)
    case Exit => st.(poster := Gone, mutex := Nobody)
  }

  // ---------------------------------------------------------- interleavings

  /** Either thread moves, or a wait returns without having been signalled. */
  datatype Event = Main(op: Op) | Post | SpuriousMain | SpuriousPoster

  function Next(st: State, e: Event): State {
    match e
    case Main(op) => if MainCan(st) then MainStep(st, op) else st
    case Post => if PosterCan(st) then PosterStep(st) else st
    case SpuriousMain => if st.main.Asleep? then st.(main := Enter(st.main.op)) else st
    case SpuriousPoster => st.(poster := Woken(st.poster))
  }

  function Run(info: Frame, events: seq<Event>): State {
    if events == [] then Initial(info)
    else Next(Run(info, events[..|events| - 1]), events[|events| - 1])
  }

  // ---------------------------------------------------------- what holds

  predicate MainHolds(pc: MainPc) {
    pc.Test? || pc.Leave? || pc.Store? || pc.Signal? || pc.Yield? || pc.QuitStore? || pc.QuitSignal? || pc.QuitYield?
  }

  predicate PosterHolds(pc: PosterPc) {
    pc.Check? || pc.Fetch? || pc.Clear? || pc.Broadcast? || pc.Exit?
  }

  /** The compositor has seen the poster idle and not handed over another frame since. */
  predicate SeenIdle(pc: MainPc) {
    || pc.Leave? || pc.Drop? || pc.Take? || pc.Claim? || pc.Store?
    || pc.QuitClaim? || pc.QuitStore? || pc.QuitSignal? || pc.QuitYield? || pc.Join? || pc.Closed?
  }

  /** The poster has the pending frame still to pan, is panning it, or has panned it. */
  predicate Before(pc: PosterPc) {
    pc.Start? || pc.Check? || pc.Dozing? || pc.Fetch? || pc.Pan?
  }

  ghost predicate Inv(st: State) {
    MutexOk(st) && FramesOk(st) && WaitsOk(st) && BuffersOk(st)
  }

  ghost predicate MutexOk(st: State) {
    && (st.mutex.Compositor? <==> MainHolds(st.main))
    && (st.mutex.Poster? <==> PosterHolds(st.poster))
  }

  /** How far the frames have come. */
  ghost predicate FramesOk(st: State) {
    && st.panned <= st.posted
    && (if !st.pending then |st.panned| == |st.posted| == st.finished
        else if Before(st.poster) then |st.panned| == st.finished == |st.posted| - 1
        else if st.poster.Panning? then |st.panned| == |st.posted| == st.finished + 1
        else |st.panned| == |st.posted| == st.finished > 0)
    && (st.pending ==> st.info == st.posted[|st.posted| - 1])
    && (st.poster.Pan? || st.poster.Panning? ==> st.pending && st.poster.frame == st.info)
    && (st.poster.Fetch? || st.poster.Returned? || st.poster.Clear? ==> st.pending)
    && (st.poster.Broadcast? || st.poster.Exit? || st.poster.Gone? ==> !st.pending)
  }

  /** Who waits for what: nobody sleeps through the event it waits for. */
  ghost predicate WaitsOk(st: State) {
    && (SeenIdle(st.main) ==> !st.pending)
    && (st.main.Signal? ==> st.pending)
    && (st.quit <==> st.main.QuitSignal? || st.main.QuitYield? || st.main.Join?)
    && (st.poster.Exit? ==> st.quit)
    && (st.poster.Gone? ==> st.quit || st.main.Closed?)
    && (st.main.Closed? ==> st.poster.Gone?)
    && (st.poster.Dozing? ==> (!st.pending && !st.quit) || st.main.Signal? || st.main.QuitSignal?)
    && (st.main.Asleep? ==> st.pending || st.poster.Broadcast?)
  }

  /** The buffer on its way to the panel stays locked. */
  ghost predicate BuffersOk(st: State) {
    && st.locks == CurrentLock(st) + TakenLock(st.main)
    && (st.main.Take? || Taken(st.main) ==> st.current.None?)
    && (st.pending ==> st.info.buffer in st.locks)
    && (st.pending && (st.main.Signal? || st.main.Yield? || st.main.Record?) ==> st.main.frame == st.info)
  }

  function CurrentLock(st: State): multiset<nat> {
    if st.current.Some? then multiset{st.current.value} else multiset{}
  }

  function TakenLock(pc: MainPc): multiset<nat> {
    if Taken(pc) then multiset{pc.frame.buffer} else multiset{}
  }

  /** The compositor has locked a buffer that is not current yet. */
  predicate Taken(pc: MainPc) {
    pc.Claim? || pc.Store? || pc.Signal? || pc.Yield? || pc.Record?
  }

  // ------------------------------------------------------ every step keeps it

  /** Steps that leave frames and buffers alone. */
  lemma SyncKeeps(st: State, after: State)
    requires Inv(st) && MutexOk(after) && WaitsOk(after)
    requires after == st.(main := after.main, poster := after.poster, mutex := after.mutex, quit := after.quit)
    requires after.poster == st.poster || (st.poster.Dozing? && after.poster.Start?)
    requires after.main == st.main || (!Taken(after.main) && !Taken(st.main) && !after.main.Take?)
    ensures Inv(after)
  {
  }

  lemma WaitingKeeps(st: State, op: Op)
    requires Inv(st) && MainCan(st) && (st.main.Ready? || st.main.Enter? || st.main.Test? || st.main.Leave?)
    ensures Inv(MainStep(st, op))
  {
    SyncKeeps(st, MainStep(st, op));
  }

  lemma DropKeeps(st: State, op: Op)
    requires Inv(st) && st.main.Drop?
    ensures Inv(MainStep(st, op))
  {
    var after := MainStep(st, op);
    assert after.locks == multiset{};
    BuffersOnly(st, after);
  }

  lemma TakeKeeps(st: State, op: Op)
    requires Inv(st) && st.main.Take?
    ensures Inv(MainStep(st, op))
  {
    var after := MainStep(st, op);
    assert after.main.Claim? && after.locks == multiset{after.main.frame.buffer};
    BuffersOnly(st, after);
  }

  lemma RecordKeeps(st: State, op: Op)
    requires Inv(st) && st.main.Record?
    ensures Inv(MainStep(st, op))
  {
    var after := MainStep(st, op);
    assert after.main.Ready? && after.locks == st.locks == multiset{st.main.frame.buffer};
    BuffersOnly(st, after);
  }

  /** Steps that only lock or unlock buffers. */
  lemma BuffersOnly(st: State, after: State)
    requires Inv(st) && BuffersOk(after)
    requires after == st.(main := after.main, current := after.current, locks := after.locks)
    requires MainHolds(after.main) == MainHolds(st.main)
    requires SeenIdle(after.main) ==> !st.pending
    requires !st.quit && !after.main.QuitSignal? && !after.main.QuitYield? && !after.main.Join? && !after.main.Closed?
    requires !st.main.Signal? && !after.main.Signal? && !after.main.Asleep? && !st.main.QuitSignal? && !st.main.Closed?
    ensures Inv(after)
  {
  }

  lemma GateKeeps(st: State, op: Op)
    requires Inv(st) && MainCan(st) && (st.main.Claim? || st.main.Yield?)
    ensures Inv(MainStep(st, op))
  {
    hide FramesOk;
    var after := MainStep(st, op);
    SameFrames(st, after);
    assert BuffersOk(after);
  }

  lemma SignalKeeps(st: State, op: Op)
    requires Inv(st) && st.main.Signal?
    ensures Inv(MainStep(st, op))
  {
    hide FramesOk;
    var after := MainStep(st, op);
    SameFrames(st, after);
    assert BuffersOk(after);
  }

  lemma SameFrames(st: State, after: State)
    requires FramesOk(st) && (after.poster == st.poster || (st.poster.Dozing? && after.poster.Start?))
    requires after == st.(main := after.main, poster := after.poster, mutex := after.mutex)
    ensures FramesOk(after)
  {
  }

  lemma StoreKeeps(st: State, op: Op)
    requires Inv(st) && st.main.Store?
    ensures Inv(MainStep(st, op))
  {
    var after := MainStep(st, op);
    assert FramesOk(after);
    assert BuffersOk(after);
  }

  lemma QuittingKeeps(st: State, op: Op)
    requires Inv(st) && MainCan(st)
    requires st.main.QuitClaim? || st.main.QuitStore? || st.main.QuitSignal? || st.main.QuitYield? || st.main.Join?
    ensures Inv(MainStep(st, op))
  {
    SyncKeeps(st, MainStep(st, op));
  }

  lemma MainKeeps(st: State, op: Op)
    requires Inv(st) && MainCan(st)
    ensures Inv(MainStep(st, op))
  {
    hide Inv, MainStep;
    if st.main.Ready? || st.main.Enter? || st.main.Test? || st.main.Leave? {
      WaitingKeeps(st, op);
    } else if st.main.Drop? {
      DropKeeps(st, op);
    } else if st.main.Take? {
      TakeKeeps(st, op);
    } else if st.main.Record? {
      RecordKeeps(st, op);
    } else if st.main.Claim? || st.main.Yield? {
      GateKeeps(st, op);
    } else if st.main.Store? {
      StoreKeeps(st, op);
    } else if st.main.Signal? {
      SignalKeeps(st, op);
    } else {
      QuittingKeeps(st, op);
    }
  }

  /** The poster never touches buffers. */
  lemma PosterOnly(st: State, after: State)
    requires Inv(st) && MutexOk(after) && FramesOk(after) && WaitsOk(after)
    requires after == st.(main := after.main, poster := after.poster, mutex := after.mutex, pending := after.pending,
                          panned := after.panned, finished := after.finished)
    requires after.pending ==> st.pending
    requires after.main == st.main || (st.main.Asleep? && after.main.Enter?)
    requires st.main.Signal? ==> after.pending
    ensures Inv(after)
  {
  }

  lemma PosterWaitKeeps(st: State)
    requires Inv(st) && PosterCan(st)
    requires st.poster.Start? || st.poster.Check? || st.poster.Returned? || st.poster.Broadcast? || st.poster.Exit?
    ensures Inv(PosterStep(st))
  {
    hide BuffersOk;
    PosterOnly(st, PosterStep(st));
  }

  lemma PosterPanKeeps(st: State)
    requires Inv(st) && PosterCan(st)
    requires st.poster.Fetch? || st.poster.Pan? || st.poster.Panning? || st.poster.Clear?
    ensures Inv(PosterStep(st))
  {
    hide BuffersOk;
    PosterOnly(st, PosterStep(st));
  }

  lemma PosterKeeps(st: State)
    requires Inv(st) && PosterCan(st)
    ensures Inv(PosterStep(st))
  {
    hide Inv, PosterStep;
    if st.poster.Fetch? || st.poster.Pan? || st.poster.Panning? || st.poster.Clear? {
      PosterPanKeeps(st);
    } else {
      PosterWaitKeeps(st);
    }
  }

  lemma SpuriousKeeps(st: State, e: Event)
    requires Inv(st) && (e.SpuriousMain? || e.SpuriousPoster?)
    ensures Inv(Next(st, e))
  {
    hide BuffersOk, FramesOk, MainStep, PosterStep;
    SyncKeeps(st, Next(st, e));
  }

  lemma NextKeeps(st: State, e: Event)
    requires Inv(st)
    ensures Inv(Next(st, e))
  {
    hide Inv, MainStep, PosterStep;
    match e
    case Main(op) => if MainCan(st) { MainKeeps(st, op); }
    case Post => if PosterCan(st) { PosterKeeps(st); }
    case SpuriousMain => SpuriousKeeps(st, e);
    case SpuriousPoster => SpuriousKeeps(st, e);
  }

  // -------------------------------------------------------------- whole runs

  lemma {:induction false} RunKeeps(info: Frame, events: seq<Event>)
    ensures Inv(Run(info, events))
    decreases |events|
  {
    if events != [] {
      RunKeeps(info, events[..|events| - 1]);
      NextKeeps(Run(info, events[..|events| - 1]), events[|events| - 1]);
    }
  }

  /** In every interleaving frames are panned in post order, each at most once and with
      at most one on its way; the frame on its way has its buffer locked; a close that
      has joined comes after the last pan. */
  lemma PannedInOrder(info: Frame, events: seq<Event>)
    ensures InOrder(Run(info, events))
  {
    RunKeeps(info, events);
    InvInOrder(Run(info, events));
  }

  ghost predicate InOrder(st: State) {
    && st.panned <= st.posted
    && st.finished <= |st.panned| <= |st.posted| <= st.finished + 1
    && (st.finished < |st.posted| ==> st.posted[st.finished].buffer in st.locks)
    && (st.poster.Panning? ==> st.finished < |st.posted| && st.poster.frame == st.posted[st.finished])
    && (SeenIdle(st.main) ==> st.finished == |st.posted| && st.panned == st.posted)
    && (st.main.Closed? ==> st.poster.Gone? && st.panned == st.posted && st.finished == |st.posted|)
  }

  lemma InvInOrder(st: State)
    requires Inv(st)
    ensures InOrder(st)
  {
  }

  // ------------------------------------------------------- what callers ask for

  /** The calls made in a run, in order. */
  function Calls(info: Frame, events: seq<Event>): seq<Op> {
    if events == [] then [] else
      var init, e := events[..|events| - 1], events[|events| - 1];
      Calls(info, init) + if e.Main? && Run(info, init).main.Ready? then [e.op] else []
  }

  /** The frames that calls of fb_post are given, in order. */
  function Frames(calls: seq<Op>): seq<Frame> {
    if calls == [] then [] else
      Frames(calls[..|calls| - 1]) + if calls[|calls| - 1].Post? then [calls[|calls| - 1].frame] else []
  }

  /** How far the last of the calls has come. */
  ghost predicate HandingOver(st: State, calls: seq<Op>) {
    if calls == [] then st.main.Ready? && st.posted == [] && st.current.None? else
      var before, last := Frames(calls[..|calls| - 1]), calls[|calls| - 1];
      match st.main
      case Ready =>
        !last.Close? && st.posted == Frames(calls)
        && st.current == if last.Post? then Some(last.frame.buffer) else None
      case Enter(op) => op == last && st.posted == before
      case Test(op) => op == last && st.posted == before
      case Asleep(op) => op == last && st.posted == before
      case Leave(op) => op == last && st.posted == before
      case Drop(op) => op == last && !op.Close? && st.posted == before
      case Take(f) => last == Op.Post(f) && st.posted == before
      case Claim(f) => last == Op.Post(f) && st.posted == before
      case Store(f) => last == Op.Post(f) && st.posted == before
      case Signal(f) => last == Op.Post(f) && st.posted == before + [f]
      case Yield(f) => last == Op.Post(f) && st.posted == before + [f]
      case Record(f) => last == Op.Post(f) && st.posted == before + [f]
      case _ => last.Close? && st.posted == before
  }

  lemma CallStarts(st: State, op: Op, calls: seq<Op>)
    requires HandingOver(st, calls) && st.main.Ready?
    ensures HandingOver(MainStep(st, op), calls + [op])
  {
    assert (calls + [op])[..|calls|] == calls;
    if calls == [] { assert Frames(calls) == []; }
  }

  lemma CallGoesOn(st: State, op: Op, calls: seq<Op>)
    requires HandingOver(st, calls) && MainCan(st) && !st.main.Ready?
    ensures HandingOver(MainStep(st, op), calls)
  {
  }

  lemma MainHandsOver(st: State, op: Op, calls: seq<Op>)
    requires HandingOver(st, calls) && MainCan(st)
    ensures HandingOver(MainStep(st, op), if st.main.Ready? then calls + [op] else calls)
  {
    hide HandingOver, MainStep;
    if st.main.Ready? { CallStarts(st, op, calls); } else { CallGoesOn(st, op, calls); }
  }

  lemma OthersHandOver(st: State, e: Event, calls: seq<Op>)
    requires HandingOver(st, calls) && (!e.Main? || !MainCan(st))
    ensures HandingOver(Next(st, e), calls)
  {
    hide MainStep, Frames;
  }

  lemma {:induction false} RunHandsOver(info: Frame, events: seq<Event>)
    ensures HandingOver(Run(info, events), Calls(info, events))
    decreases |events|
  {
    hide HandingOver, MainStep, PosterStep;
    if events == [] {
      NoCalls(info);
    } else {
      var init, e := events[..|events| - 1], events[|events| - 1];
      var st := Run(info, init);
      RunHandsOver(info, init);
      if e.Main? && MainCan(st) { MainHandsOver(st, e.op, Calls(info, init)); } else {
        OthersHandOver(st, e, Calls(info, init));
      }
      assert Calls(info, init) + [] == Calls(info, init);
    }
  }

  lemma NoCalls(info: Frame)
    ensures HandingOver(Initial(info), [])
  {
  }

  /** The buffer of the last call, if it posted one. */
  function Shown(calls: seq<Op>): Option<nat> {
    if calls != [] && calls[|calls| - 1].Post? then Some(calls[|calls| - 1].frame.buffer) else None
  }

  /** On every run each call of fb_post hands over its frame. Between calls the frames handed over are those of all
      calls so far, in order, and the buffer of the last call, if it posted one, is current and the only one locked;
      inside a call they are the same or all but its own. Once fb_close has returned all of them have been panned,
      in order, once. */
  lemma EveryFrameHandedOver(info: Frame, events: seq<Event>)
    ensures var st, calls := Run(info, events), Calls(info, events);
      && (st.main.Ready? ==>
           && st.posted == Frames(calls)
           && st.current == Shown(calls)
           && st.locks == if Shown(calls).Some? then multiset{Shown(calls).value} else multiset{})
      && st.posted <= Frames(calls) && |Frames(calls)| <= |st.posted| + 1
      && (st.main.Closed? ==> calls != [] && calls[|calls| - 1] == Close && st.panned == Frames(calls))
      && (st.main.Ready? && calls != [] ==> calls[|calls| - 1] != Close)
  {
    hide Run, Calls, Inv, InOrder, HandingOver, Frames;
    RunHandsOver(info, events);
    RunKeeps(info, events);
    PannedInOrder(info, events);
    var st, calls := Run(info, events), Calls(info, events);
    FramesBehind(st, calls);
    if st.main.Ready? { BetweenCalls(st, calls); }
    if st.main.Closed? { AfterClose(st, calls); }
  }

  lemma FramesBehind(st: State, calls: seq<Op>)
    requires HandingOver(st, calls)
    ensures st.posted <= Frames(calls) && |Frames(calls)| <= |st.posted| + 1
  {
    if calls != [] {
      var before, last := Frames(calls[..|calls| - 1]), calls[|calls| - 1];
      assert Frames(calls) == before + if last.Post? then [last.frame] else [];
      assert st.posted == before || st.posted == Frames(calls);
    }
  }

  lemma BetweenCalls(st: State, calls: seq<Op>)
    requires HandingOver(st, calls) && Inv(st) && st.main.Ready?
    ensures st.posted == Frames(calls) && st.current == Shown(calls)
    ensures st.locks == if Shown(calls).Some? then multiset{Shown(calls).value} else multiset{}
    ensures calls != [] ==> calls[|calls| - 1] != Close
  {
    hide FramesOk, WaitsOk, MutexOk;
  }

  lemma AfterClose(st: State, calls: seq<Op>)
    requires HandingOver(st, calls) && InOrder(st) && st.main.Closed?
    ensures calls != [] && calls[|calls| - 1] == Close && st.panned == Frames(calls)
  {
  }

  /** No wake-up is lost: outside the compositor's own critical section the poster never
      sleeps on a handed-over frame or a quit, and the compositor never sleeps on an idle poster. */
  lemma NoLostWakeup(info: Frame, events: seq<Event>)
    ensures var st := Run(info, events);
      && (st.poster.Dozing? && !st.mutex.Compositor? ==> !st.pending && !st.quit && st.finished == |st.posted|)
      && (st.main.Asleep? && !st.mutex.Poster? ==> st.pending && !st.poster.Dozing?)
  {
    hide Run;
    RunKeeps(info, events);
  }

  // -------------------------------------------------------------- progress

  /** While the compositor is inside a call, one of the two threads can move. */
  lemma NeverStuck(info: Frame, events: seq<Event>)
    ensures var st := Run(info, events);
      !st.main.Ready? && !st.main.Closed? ==> MainCan(st) || PosterCan(st)
  {
    hide Run;
    RunKeeps(info, events);
  }

  /** Steps the compositor has left in its call; a wait is longer while a frame is pending. */
  function MainRank(pc: MainPc, pending: bool): nat {
    match pc
    case Ready => 0
    case Closed => 0
    case Record(_) => 1
    case Yield(_) => 2
    case Signal(_) => 3
    case Store(_) => 4
    case Claim(_) => 5
    case Take(_) => 6
    case Join => 1
    case QuitYield => 2
    case QuitSignal => 3
    case QuitStore => 4
    case QuitClaim => 5
    case Drop(_) => 7
    case Leave(_) => 8
    case Test(_) => if pending then 12 else 9
    case Enter(_) => if pending then 13 else 10
    case Asleep(_) => 11
  }

  /** Steps the posting thread has left until it sleeps or is gone. */
  function PosterRank(pc: PosterPc, pending: bool): nat {
    match pc
    case Gone => 0
    case Dozing => 0
    case Exit => 1
    case Check => if pending then 9 else 2
    case Start => if pending then 10 else 3
    case Broadcast => 3
    case Clear => 4
    case Returned => 5
    case Panning(_) => 6
    case Pan(_) => 7
    case Fetch => 8
  }

  function Rank(st: State): (nat, nat) {
    (MainRank(st.main, st.pending), PosterRank(st.poster, st.pending))
  }

  /** Every step of a thread brings the compositor closer to the end of its call, or the poster closer to sleep. */
  lemma StepsRunOut(info: Frame, events: seq<Event>, op: Op)
    ensures var st := Run(info, events);
      && (MainCan(st) && !st.main.Ready? ==> Rank(MainStep(st, op)).0 < Rank(st).0)
      && (PosterCan(st) ==>
           Rank(PosterStep(st)).0 < Rank(st).0 ||
           (Rank(PosterStep(st)).0 == Rank(st).0 && Rank(PosterStep(st)).1 < Rank(st).1))
  {
    hide Run, Inv, Rank, MainStep, PosterStep;
    RunKeeps(info, events);
    var st := Run(info, events);
    if MainCan(st) && !st.main.Ready? { MainRunsOut(st, op); }
    if PosterCan(st) { PosterRunsOut(st); }
  }

  lemma MainRunsOut(st: State, op: Op)
    requires MainCan(st) && !st.main.Ready?
    ensures Rank(MainStep(st, op)).0 < Rank(st).0
  {
    hide MainRank;
    var after := MainStep(st, op);
    RankDrops(st.main, after.main, st.pending, after.pending);
  }

  /** The order in which the compositor goes through its positions. */
  predicate Follows(a: MainPc, b: MainPc, pending: bool) {
    match a
    case Enter(_) => b.Test?
    case Test(_) => if pending then b.Asleep? else b.Leave?
    case Leave(_) => b.QuitClaim? || b.Drop?
    case Drop(_) => b.Take? || b.Ready?
    case Take(_) => b.Claim?
    case Claim(_) => b.Store?
    case Store(_) => b.Signal?
    case Signal(_) => b.Yield?
    case Yield(_) => b.Record?
    case Record(_) => b.Ready?
    case QuitClaim => b.QuitStore?
    case QuitStore => b.QuitSignal?
    case QuitSignal => b.QuitYield?
    case QuitYield => b.Join?
    case Join => b.Closed?
    case _ => false
  }

  lemma RankDrops(a: MainPc, b: MainPc, pending: bool, after: bool)
    requires Follows(a, b, pending) && (pending == after || a.Store?)
    ensures MainRank(b, after) < MainRank(a, pending)
  {
  }

  lemma PosterRunsOut(st: State)
    requires Inv(st) && PosterCan(st)
    ensures Rank(PosterStep(st)).0 <= Rank(st).0
    ensures Rank(PosterStep(st)).0 == Rank(st).0 ==> Rank(PosterStep(st)).1 < Rank(st).1
  {
    hide BuffersOk;
    var after := PosterStep(st);
    assert !st.poster.Broadcast? && !st.poster.Clear? ==> after.main == st.main && after.pending == st.pending;
    assert Rank(after).0 <= Rank(st).0;
  }

  // ------------------------------------------------------------ a call returns

  predicate InCall(st: State) {
    !st.main.Ready? && !st.main.Closed?
  }

  /** The event does something: the thread can move, or the one that is woken sleeps. */
  predicate Effective(st: State, e: Event) {
    match e
    case Main(_) => MainCan(st)
    case Post => PosterCan(st)
    case SpuriousMain => st.main.Asleep?
    case SpuriousPoster => st.poster.Dozing?
  }

  /** The steps continue the run inside one call of the compositor. */
  ghost predicate WithinCall(info: Frame, events: seq<Event>, steps: seq<Event>) {
    forall k :: 0 <= k < |steps| ==>
      InCall(Run(info, events + steps[..k])) && Effective(Run(info, events + steps[..k]), steps[k])
  }

  function Spurious(steps: seq<Event>): nat {
    if steps == [] then 0 else
      var last := steps[|steps| - 1];
      Spurious(steps[..|steps| - 1]) + if last.SpuriousMain? || last.SpuriousPoster? then 1 else 0
  }

  /** How many steps of the threads a call can still take. */
  function Budget(st: State): nat {
    Rank(st).0 * 11 + Rank(st).1
  }

  lemma BudgetSpent(info: Frame, events: seq<Event>, e: Event)
    requires InCall(Run(info, events)) && Effective(Run(info, events), e)
    ensures var b, a := Budget(Run(info, events)), Budget(Run(info, events + [e]));
      if e.SpuriousMain? || e.SpuriousPoster? then a <= b + 22 else a < b
  {
    hide Run, MainStep, PosterStep, MainRank, PosterRank;
    var st := Run(info, events);
    RunOne(info, events, e);
    RankBound(st);
    RankBound(Next(st, e));
    match e {
      case Main(op) => StepsRunOut(info, events, op);
      case Post => StepsRunOut(info, events, Copy);
      case SpuriousMain => SpuriousBound(st, e);
      case SpuriousPoster => SpuriousBound(st, e);
    }
  }

  lemma RunOne(info: Frame, events: seq<Event>, e: Event)
    ensures Run(info, events + [e]) == Next(Run(info, events), e)
  {
    assert (events + [e])[..|events + [e]| - 1] == events;
  }

  lemma RankBound(st: State)
    ensures Rank(st).1 <= 10
  {
  }

  lemma SpuriousBound(st: State, e: Event)
    requires (e.SpuriousMain? || e.SpuriousPoster?) && Effective(st, e)
    ensures Rank(Next(st, e)).0 * 11 + Rank(Next(st, e)).1 <= Rank(st).0 * 11 + Rank(st).1 + 22
  {
  }

  /** A call cannot go on for ever: from any reachable state the steps inside it are no more than a fixed number,
      plus 23 for every spurious wake-up. */
  lemma {:induction false} CallEnds(info: Frame, events: seq<Event>, steps: seq<Event>)
    requires WithinCall(info, events, steps)
    ensures Budget(Run(info, events + steps)) + |steps| <= Budget(Run(info, events)) + 23 * Spurious(steps)
    decreases |steps|
  {
    hide Run, Budget, Effective;
    if steps == [] {
      assert events + steps == events;
    } else {
      var n := |steps| - 1;
      var init := steps[..n];
      assert forall k :: 0 <= k < n ==> init[..k] == steps[..k];
      CallEnds(info, events, init);
      BudgetSpent(info, events + init, steps[n]);
      assert events + steps == events + init + [steps[n]];
    }
  }

  /** When neither thread can move any more, the call has returned. */
  lemma CallReturns(info: Frame, events: seq<Event>, steps: seq<Event>)
    requires WithinCall(info, events, steps)
    requires var st := Run(info, events + steps); !MainCan(st) && !PosterCan(st)
    ensures !InCall(Run(info, events + steps))
    ensures |steps| <= Budget(Run(info, events)) + 23 * Spurious(steps)
  {
    hide Run, Budget;
    CallEnds(info, events, steps);
    NeverStuck(info, events + steps);
  }

  /** Only spurious wake-ups can keep a call going: they lead a waiting compositor round in a circle. */
  lemma SpuriousCircle(st: State, op: Op)
    requires st.main.Asleep? && st.pending && st.mutex.Nobody?
    ensures Next(Next(Next(st, SpuriousMain), Main(op)), Main(op)) == st
  {
  }
}
