/** The reader/writer lock word of a gralloc buffer handle, at the granularity of
    single loads, stores and compare-and-swaps.  Any number of lock/unlock pairs
    run interleaved; each is a session of some thread. */
module LockWord {
  import opened Seqs

  // -------------------------------------------------------------- the word

  /** lockState: bit 31 is WRITE, bit 30 is MAPPED, the low 30 bits count the locks taken. */
  datatype Word = Word(write: bool, mapped: bool, count: nat)

  function Encode(w: Word): nat {
    (if w.write then 0x8000_0000 else 0) + (if w.mapped then 0x4000_0000 else 0) + w.count
  }

  /** Within the count's 30 bits the word and the integer the processor compares are one-to-one. */
  lemma EncodeInjective(a: Word, b: Word)
    requires a.count < 0x4000_0000 && b.count < 0x4000_0000
    ensures Encode(a) == Encode(b) <==> a == b
    ensures Encode(a) < 0x1_0000_0000
    ensures a.count == Encode(a) % 0x4000_0000
    ensures a.mapped <==> Encode(a) / 0x4000_0000 % 2 == 1
    ensures a.write <==> Encode(a) / 0x8000_0000 == 1
  {
  }

  // -------------------------------------------------------------- the state

  type Sid = nat  // a session: one gralloc_lock and the gralloc_unlock that answers it

  datatype Usage = Usage(swRead: bool, swWrite: bool, hwRender: bool) {
    predicate Writes() { swWrite || hwRender }
    predicate Maps() { swRead || swWrite }
  }

  /** Where a session stands; the value loaded from lockState rides along. */
  datatype Pc =
    | Idle
    | LockLoad
    | LockCas(seen: Word)
    | StoreOwner(seen: Word)
    | MarkFlush(seen: Word)
    | NeedMap(seen: Word)
    | WaitMutex
    | TestMapped
    | CallMap
    | OrMapped
    | LeaveMutex(err: bool)
    | ReadBase(err: bool)
    | Held(err: bool, vaddr: int)
    | TestFlush
    | UnlockLoad
    | TestOwner(seen: Word)
    | UnlockCas(seen: Word, next: Word)
    | NotLocked  // gralloc_unlock returned -EINVAL

  /** One session of thread tid; flushed counts the cache flushes since it took the lock. */
  datatype Session = Session(tid: int, usage: Usage, pc: Pc, flushed: nat)

  datatype State = State(
    word: Word,
    owner: int,           // writeOwner
    needsFlush: bool,     // PRIV_FLAGS_NEEDS_FLUSH
    base: int,
    mutex: set<Sid>,      // who holds sMapLock
    maps: nat,            // successful gralloc_map calls so far
    pmem: bool,
    framebuffer: bool,
    sessions: map<Sid, Session>)

  /** What the environment picks: a usage for a new lock, an mmap outcome. */
  datatype Env = Env(usage: Usage, mapFails: bool, address: int)

  predicate Busy(w: Word, u: Usage) {
    w.write || (w.count != 0 && u.Writes())
  }

  predicate MustFlush(st: State, u: Usage) {
    u.swWrite && st.pmem && !st.framebuffer
  }

  // -------------------------------------------------------------- the steps

  function Go(st: State, s: Sid, pc: Pc): (r: State)
    requires s in st.sessions
    ensures r.word == st.word && r.base == st.base && s in r.sessions
    ensures r.sessions[s].pc == pc && r.sessions[s].usage == st.sessions[s].usage
  {
    st.(sessions := st.sessions[s := st.sessions[s].(pc := pc)])
  }

  /** The next access of session s. */
  function Step(st: State, s: Sid, env: Env): (r: State)
    requires s in st.sessions
    ensures s in r.sessions
  {
    var me := st.sessions[s];
    match me.pc
    case Idle =>
      st.(sessions := st.sessions[s := me.(usage := env.usage, pc := LockLoad, flushed := 0)])
    case LockLoad =>
      Go(st, s, if Busy(st.word, me.usage) then Idle else LockCas(st.word))
    case LockCas(seen) =>
      if Encode(st.word) != Encode(seen) then Go(st, s, LockLoad) else
        var word := seen.(write := seen.write || me.usage.Writes(), count := seen.count + 1);
        Go(st.(word := word), s, if word.write then StoreOwner(seen) else MarkFlush(seen))
    case StoreOwner(seen) =>
      Go(st.(owner := me.tid), s, MarkFlush(seen))
    case MarkFlush(seen) =>
      Go(st.(needsFlush := st.needsFlush || MustFlush(st, me.usage)), s, NeedMap(seen))
    case NeedMap(seen) =>
      Go(st, s, if !me.usage.Maps() then Held(false, 0) else if seen.mapped then ReadBase(false) else WaitMutex)
    case WaitMutex =>
      if st.mutex != {} then st else Go(st.(mutex := {s}), s, TestMapped)
    case TestMapped =>
      Go(st, s, if st.word.mapped then LeaveMutex(false) else CallMap)
    case CallMap =>
      if st.framebuffer then Go(st.(maps := st.maps + 1), s, OrMapped)
      else if env.mapFails then Go(st.(base := 0), s, LeaveMutex(true))
      else Go(st.(base := env.address, maps := st.maps + 1), s, OrMapped)
    case OrMapped =>
      Go(st.(word := st.word.(mapped := true)), s, LeaveMutex(false))
    case LeaveMutex(err) =>
      Go(st.(mutex := {}), s, ReadBase(err))
    case ReadBase(err) =>
      Go(st, s, Held(err, st.base))
    case Held(_, _) =>
      Go(st, s, TestFlush)
    case TestFlush =>
      if st.needsFlush then
        st.(needsFlush := false, sessions := st.sessions[s := me.(pc := UnlockLoad, flushed := me.flushed + 1)])
      else Go(st, s, UnlockLoad)
    case UnlockLoad =>
      if st.word.write then Go(st, s, TestOwner(st.word))
      else if st.word.count == 0 then Go(st, s, NotLocked)
      else Go(st, s, UnlockCas(st.word, st.word.(count := st.word.count - 1)))
    case TestOwner(seen) =>
      if st.owner == me.tid then
        if seen.count == 0 then Go(st.(owner := 0), s, NotLocked)
        else Go(st.(owner := 0), s, UnlockCas(seen, seen.(write := false, count := seen.count - 1)))
      else
        if seen.count == 0 then Go(st, s, NotLocked)
        else Go(st, s, UnlockCas(seen, seen.(count := seen.count - 1)))
    case UnlockCas(seen, next) =>
      if Encode(st.word) != Encode(seen) then Go(st, s, UnlockLoad) else Go(st.(word := next), s, Idle)
    case NotLocked => st
  }

  // ---------------------------------------------------------- what holds

  /** The session's lock has been counted and not yet given back. */
  predicate Holds(pc: Pc) {
    !(pc.Idle? || pc.LockLoad? || pc.LockCas? || pc.NotLocked?)
  }

  ghost function Holders(st: State): set<Sid> {
    set s | s in st.sessions && Holds(st.sessions[s].pc)
  }

  predicate InMutex(pc: Pc) {
    pc.TestMapped? || pc.CallMap? || pc.OrMapped? || pc.LeaveMutex?
  }

  /** From marking the handle until the flush, the flag is up. */
  predicate FlushPending(pc: Pc) {
    Holds(pc) && !pc.StoreOwner? && !pc.MarkFlush? && !FlushDone(pc)
  }

  predicate FlushDone(pc: Pc) {
    pc.UnlockLoad? || pc.TestOwner? || pc.UnlockCas?
  }

  /** The owner field names this writer. */
  predicate Owned(pc: Pc) {
    Holds(pc) && !pc.StoreOwner? && !pc.UnlockCas?
  }

  /** What is known of session s from its own position. */
  ghost predicate SessionOk(st: State, s: Sid)
    requires s in st.sessions
  {
    var me := st.sessions[s];
    && me.tid != 0
    && !me.pc.NotLocked?
    && (me.pc.LockLoad? || me.pc.LockCas? ==> me.flushed == 0)
    && (me.pc.LockCas? ==> !Busy(me.pc.seen, me.usage))
    && (me.pc.LockCas? || me.pc.UnlockCas? ==> me.pc.seen.count < 0x4000_0000)
    && (Holds(me.pc) ==> me.flushed == if FlushDone(me.pc) && MustFlush(st, me.usage) then 1 else 0)
    && (Holds(me.pc) && me.usage.Writes() ==> WriterOk(st, me))
    && (me.pc.StoreOwner? ==> me.usage.Writes())
    && (me.pc.TestOwner? ==> me.usage.Writes())
    && (me.pc.UnlockCas? && !me.usage.Writes() ==>
         me.pc.seen.count > 0 && !me.pc.seen.write && me.pc.next == me.pc.seen.(count := me.pc.seen.count - 1))
    && MapOk(st, s)
  }

  /** A writer holds alone, and the word it is about to swap cannot change under it. */
  ghost predicate WriterOk(st: State, me: Session) {
    && st.word.write
    && st.word.count == 1
    && (Owned(me.pc) ==> st.owner == me.tid)
    && (me.pc.TestOwner? ==> me.pc.seen == st.word)
    && (me.pc.UnlockCas? ==> me.pc.seen == st.word && me.pc.next == Word(false, st.word.mapped, 0))
    && (st.needsFlush <==> FlushPending(me.pc) && MustFlush(st, me.usage))
  }

  ghost predicate MapOk(st: State, s: Sid)
    requires s in st.sessions
  {
    var pc := st.sessions[s].pc;
    && (InMutex(pc) <==> st.mutex == {s})
    && (pc.WaitMutex? || InMutex(pc) || pc.ReadBase? ==> st.sessions[s].usage.Maps())
    && (pc.Held? && pc.err ==> st.sessions[s].usage.Maps())
    && (pc.CallMap? ==> !st.word.mapped)
    && (pc.OrMapped? ==> !st.word.mapped && st.maps == 1)
    && ((pc.StoreOwner? || pc.MarkFlush? || pc.NeedMap?) && pc.seen.mapped ==> st.word.mapped)
    && ((pc.LeaveMutex? || pc.ReadBase?) && !pc.err ==> st.word.mapped)
    && (pc.Held? && !pc.err && st.sessions[s].usage.Maps() ==> st.word.mapped && pc.vaddr == st.base)
  }

  ghost predicate Inv(st: State) {
    Global(st) && forall s :: s in st.sessions ==> SessionOk(st, s)
  }

  ghost predicate Global(st: State) {
    && |st.sessions| < 0x4000_0000
    && st.word.count == |Holders(st)|
    && (st.word.write ==> exists w :: w in Holders(st) && st.sessions[w].usage.Writes())
    && (st.needsFlush ==> st.word.write)
    && |st.mutex| <= 1 && st.mutex <= st.sessions.Keys
    && st.maps <= 1
    && (st.maps == 1 && !st.word.mapped ==> exists s :: s in st.mutex && st.sessions[s].pc.OrMapped?)
  }

  // ------------------------------------------------------ every step keeps it

  lemma SessionsUpdate(st: State, s: Sid, me: Session)
    requires s in st.sessions
    ensures var after := st.(sessions := st.sessions[s := me]);
      && |after.sessions| == |st.sessions|
      && Holders(after) == (if Holds(me.pc) then Holders(st) + {s} else Holders(st) - {s})
  {
    var after := st.(sessions := st.sessions[s := me]);
    assert after.sessions.Keys == st.sessions.Keys;
    assert |after.sessions| == |after.sessions.Keys| && |st.sessions| == |st.sessions.Keys|;
  }

  /** While a writer holds, no other session does. */
  lemma WriterAlone(st: State, w: Sid, t: Sid)
    requires Inv(st) && w in Holders(st) && st.sessions[w].usage.Writes() && t in Holders(st)
    ensures t == w
  {
    assert SessionOk(st, w);
    if t != w {
      assert {w, t} <= Holders(st);
      assert |{w, t}| == 2;
      SubsetSize({w, t}, Holders(st));
    }
  }

  lemma HoldersBounded(st: State)
    requires Inv(st)
    ensures st.word.count < 0x4000_0000
  {
    SubsetSize(Holders(st), st.sessions.Keys);
  }

  /** While a reader holds, the word carries no WRITE bit and the handle is not marked. */
  lemma ReadersOnly(st: State, s: Sid)
    requires Inv(st) && s in Holders(st) && !st.sessions[s].usage.Writes()
    ensures !st.word.write && !st.needsFlush && st.word.count > 0
  {
    if w :| w in Holders(st) && st.sessions[w].usage.Writes() {
      WriterAlone(st, w, s);
    }
  }

  /** What the invariant tells session s before it steps. */
  lemma Mine(st: State, s: Sid)
    requires Inv(st) && s in st.sessions
    ensures SessionOk(st, s)
    ensures Holds(st.sessions[s].pc) ==> s in Holders(st)
    ensures Holds(st.sessions[s].pc) && !st.sessions[s].usage.Writes() ==>
      !st.word.write && !st.needsFlush && st.word.count > 0
    ensures st.sessions[s].pc.CallMap? ==> st.maps == 0
    ensures st.maps <= 1 && (st.maps == 1 && !st.word.mapped && st.mutex <= {s} ==> st.sessions[s].pc.OrMapped?)
    ensures st.word.count < 0x4000_0000
  {
    HoldersBounded(st);
    assert SessionOk(st, s);
    if Holds(st.sessions[s].pc) && !st.sessions[s].usage.Writes() {
      ReadersOnly(st, s);
    }
  }

  /** The swap compares integers, and that is comparing words. */
  lemma SwapCompares(st: State, s: Sid)
    requires Inv(st) && s in st.sessions && (st.sessions[s].pc.LockCas? || st.sessions[s].pc.UnlockCas?)
    ensures Encode(st.word) == Encode(st.sessions[s].pc.seen) <==> st.word == st.sessions[s].pc.seen
  {
    HoldersBounded(st);
    assert SessionOk(st, s);
    EncodeInjective(st.word, st.sessions[s].pc.seen);
  }

  /** after is st with session s moved to me and nothing touched that another session relies on. */
  ghost predicate Quiet(st: State, s: Sid, me: Session, after: State) {
    && s in st.sessions
    && after.sessions == st.sessions[s := me]
    && after.pmem == st.pmem && after.framebuffer == st.framebuffer
    && (forall t :: t in Holders(st) && t != s && st.sessions[t].usage.Writes() ==>
          after.word == st.word && after.owner == st.owner && after.needsFlush == st.needsFlush)
    && (st.word.mapped ==> after.word.mapped && after.base == st.base)
    && (after.mutex == st.mutex || (st.mutex <= {s} && after.mutex <= {s}))
    && (st.mutex <= {s} || (after.word.mapped == st.word.mapped && after.maps == st.maps))
  }

  /** Session t is in good order after a quiet step of another session. */
  lemma Unaffected(st: State, s: Sid, me: Session, after: State, t: Sid)
    requires Quiet(st, s, me, after) && t in st.sessions && t != s && SessionOk(st, t)
    ensures SessionOk(after, t)
  {
    assert t in Holders(st) <==> Holds(st.sessions[t].pc);
  }

  lemma QuietKeeps(st: State, s: Sid, me: Session, after: State)
    requires Inv(st) && Quiet(st, s, me, after) && Global(after) && SessionOk(after, s)
    ensures Inv(after)
  {
    hide SessionOk, Global;
    forall t | t in after.sessions && t != s
      ensures SessionOk(after, t)
    {
      Unaffected(st, s, me, after, t);
    }
  }

  /** A step that only moves session s keeps the invariant if s ends up in good order. */
  lemma LocalKeeps(st: State, s: Sid, me: Session)
    requires Inv(st) && s in st.sessions
    requires var was := st.sessions[s]; Holds(me.pc) == Holds(was.pc) && (Holds(me.pc) ==> me.usage == was.usage)
    requires !st.sessions[s].pc.OrMapped?
    requires SessionOk(st.(sessions := st.sessions[s := me]), s)
    ensures Inv(st.(sessions := st.sessions[s := me]))
  {
    hide SessionOk;
    var after := st.(sessions := st.sessions[s := me]);
    SessionsUpdate(st, s, me);
    assert Holders(after) == Holders(st);
    if st.word.write {
      var w :| w in Holders(st) && st.sessions[w].usage.Writes();
      assert w in Holders(after) && after.sessions[w].usage.Writes();
    }
    QuietKeeps(st, s, me, after);
  }

  /** Session s takes the lock: the swap has found the word it read. */
  ghost predicate Takes(st: State, s: Sid, me: Session, after: State) {
    && s in st.sessions && st.sessions[s].pc == LockCas(st.word)
    && me == st.sessions[s].(pc := if me.usage.Writes() then StoreOwner(st.word) else MarkFlush(st.word))
    && after.word == Word(me.usage.Writes(), st.word.mapped, st.word.count + 1)
    && after == st.(word := after.word, sessions := st.sessions[s := me])
  }

  lemma TakesGlobal(st: State, s: Sid, me: Session, after: State)
    requires Inv(st) && Takes(st, s, me, after)
    ensures Global(after)
  {
    hide Inv, SessionOk;
    NotTaken(st, s);
    NoWriters(st);
    SessionsUpdate(st, s, me);
    assert s !in Holders(st) && Holders(after) == Holders(st) + {s};
    if st.maps == 1 && !st.word.mapped {
      var x :| x in st.mutex && st.sessions[x].pc.OrMapped?;
      assert after.sessions[x] == st.sessions[x];
    }
  }

  lemma NotTaken(st: State, s: Sid)
    requires Inv(st) && s in st.sessions && st.sessions[s].pc == LockCas(st.word)
    ensures !st.word.write && !st.needsFlush
  {
    assert SessionOk(st, s);
  }

  /** The swap succeeds only on a word that nobody holds against the request. */
  lemma LockCasKeeps(st: State, s: Sid, me: Session, after: State)
    requires Inv(st) && Takes(st, s, me, after)
    ensures Inv(after)
  {
    hide Inv, Global;
    Mine(st, s);
    NoWriters(st);
    TakesGlobal(st, s, me, after);
    NotTaken(st, s);
    assert SessionOk(after, s);
    QuietKeeps(st, s, me, after);
  }

  lemma NoWriters(st: State)
    requires Inv(st)
    ensures Global(st)
    ensures !st.word.write ==> forall t :: t in Holders(st) ==> !st.sessions[t].usage.Writes()
  {
    forall t | t in Holders(st) && st.sessions[t].usage.Writes()
      ensures st.word.write
    {
      assert SessionOk(st, t);
    }
  }

  /** Session s is about to give the lock back, and the word is what it expects. */
  lemma Giving(st: State, s: Sid)
    requires Inv(st) && s in st.sessions && st.sessions[s].pc.UnlockCas? && st.word == st.sessions[s].pc.seen
    ensures st.word.count > 0 && !st.needsFlush
    ensures st.sessions[s].pc.next == Word(false, st.word.mapped, st.word.count - 1)
    ensures s in Holders(st) && forall t :: t in Holders(st) && t != s ==> !st.sessions[t].usage.Writes()
  {
    hide Global;
    Mine(st, s);
    forall t | t in Holders(st) && t != s
      ensures !st.sessions[t].usage.Writes()
    {
      if st.sessions[t].usage.Writes() { WriterAlone(st, t, s); }
    }
  }

  /** Giving the lock back. */
  lemma UnlockCasKeeps(st: State, s: Sid, me: Session, after: State)
    requires Inv(st) && s in st.sessions && st.sessions[s].pc.UnlockCas? && st.word == st.sessions[s].pc.seen
    requires me == st.sessions[s].(pc := Idle)
    requires after == st.(word := st.sessions[s].pc.next, sessions := st.sessions[s := me])
    ensures Inv(after)
  {
    hide Inv, Global, SessionOk;
    Giving(st, s);
    NoWriters(st);
    GivesGlobal(st, s, me, after);
    GivesOk(st, s, me, after);
    QuietKeeps(st, s, me, after);
  }

  lemma GivesGlobal(st: State, s: Sid, me: Session, after: State)
    requires Inv(st) && s in st.sessions && st.sessions[s].pc.UnlockCas? && st.word == st.sessions[s].pc.seen
    requires me == st.sessions[s].(pc := Idle)
    requires after == st.(word := st.sessions[s].pc.next, sessions := st.sessions[s := me])
    ensures Global(after)
  {
    hide Inv, SessionOk;
    Giving(st, s);
    NoWriters(st);
    SessionsUpdate(st, s, me);
    assert Holders(after) == Holders(st) - {s};
    if st.maps == 1 && !st.word.mapped {
      var x :| x in st.mutex && st.sessions[x].pc.OrMapped?;
      assert after.sessions[x] == st.sessions[x];
    }
  }

  lemma GivesOk(st: State, s: Sid, me: Session, after: State)
    requires Inv(st) && s in st.sessions && st.sessions[s].pc.UnlockCas?
    requires me == st.sessions[s].(pc := Idle)
    requires after == st.(word := after.word, sessions := st.sessions[s := me])
    ensures SessionOk(after, s)
  {
    hide Inv;
    Mine(st, s);
  }

  /** Stores to owner and needsFlush are made by a writer, which is alone. */
  lemma WriterStoreKeeps(st: State, s: Sid, me: Session, after: State)
    requires Inv(st) && s in Holders(st) && st.sessions[s].usage.Writes()
    requires after == st.(owner := after.owner, needsFlush := after.needsFlush, sessions := st.sessions[s := me])
    requires Holds(me.pc) && me.usage == st.sessions[s].usage
    requires !InMutex(st.sessions[s].pc) && SessionOk(after, s)
    ensures Inv(after)
  {
    assert SessionOk(st, s);
    SessionsUpdate(st, s, me);
    assert Holders(after) == Holders(st);
    forall t | t in Holders(st)
      ensures t == s
    {
      WriterAlone(st, s, t);
    }
    assert s in Holders(after) && after.sessions[s].usage.Writes();
    QuietKeeps(st, s, me, after);
  }

  /** Steps inside sMapLock, and entering and leaving it. */
  lemma MapStepKeeps(st: State, s: Sid, me: Session, after: State)
    requires Inv(st) && s in Holders(st) && st.mutex <= {s}
    requires after == st.(base := after.base, word := after.word, maps := after.maps,
                          mutex := after.mutex, sessions := st.sessions[s := me])
    requires after.word == st.word.(mapped := after.word.mapped)
    requires Holds(me.pc) && me.usage == st.sessions[s].usage
    requires st.word.mapped ==> after.word.mapped && after.base == st.base
    requires after.mutex <= {s} && after.maps <= 1
    requires after.maps == 1 && !after.word.mapped ==> after.mutex == {s} && me.pc.OrMapped?
    requires SessionOk(after, s)
    ensures Inv(after)
  {
    hide Inv, SessionOk;
    NoWriters(st);
    SessionsUpdate(st, s, me);
    assert Holders(after) == Holders(st);
    if st.word.write {
      var w :| w in Holders(st) && st.sessions[w].usage.Writes();
      WriterAlone(st, w, s);
      assert w in Holders(after) && after.sessions[w].usage.Writes();
      forall t | t in Holders(st)
        ensures t == s
      {
        WriterAlone(st, s, t);
      }
    }
    SubsetSize(after.mutex, {s});
    QuietKeeps(st, s, me, after);
  }

  lemma LockPhaseKeeps(st: State, s: Sid, env: Env)
    requires Inv(st) && s in st.sessions
    requires var pc := st.sessions[s].pc; pc.Idle? || pc.LockLoad? || pc.LockCas? || pc.NotLocked?
    ensures Inv(Step(st, s, env))
  {
    hide Inv, Holders, Encode;
    var after := Step(st, s, env);
    var me := after.sessions[s];
    Mine(st, s);
    if st.sessions[s].pc.LockCas? { SwapCompares(st, s); }
    if st.sessions[s].pc.LockCas? && st.word == st.sessions[s].pc.seen {
      LockCasKeeps(st, s, me, after);
    } else {
      LocalKeeps(st, s, me);
    }
  }

  lemma PreparePhaseKeeps(st: State, s: Sid, env: Env)
    requires Inv(st) && s in st.sessions
    requires var pc := st.sessions[s].pc; pc.StoreOwner? || pc.MarkFlush? || pc.NeedMap?
    ensures Inv(Step(st, s, env))
  {
    hide Inv, Holders;
    var after := Step(st, s, env);
    var me := after.sessions[s];
    Mine(st, s);
    if me.usage.Writes() {
      WriterStoreKeeps(st, s, me, after);
    } else {
      LocalKeeps(st, s, me);
    }
  }

  lemma MutexPhaseKeeps(st: State, s: Sid, env: Env)
    requires Inv(st) && s in st.sessions
    requires var pc := st.sessions[s].pc; pc.WaitMutex? || pc.TestMapped? || pc.LeaveMutex?
    ensures Inv(Step(st, s, env))
  {
    hide Inv, Holders;
    var after := Step(st, s, env);
    Mine(st, s);
    if !st.sessions[s].pc.WaitMutex? || st.mutex == {} {
      MapStepKeeps(st, s, after.sessions[s], after);
    }
  }

  lemma MapPhaseKeeps(st: State, s: Sid, env: Env)
    requires Inv(st) && s in st.sessions && (st.sessions[s].pc.CallMap? || st.sessions[s].pc.OrMapped?)
    ensures Inv(Step(st, s, env))
  {
    hide Inv, Holders;
    var after := Step(st, s, env);
    Mine(st, s);
    MapStepKeeps(st, s, after.sessions[s], after);
  }

  lemma FlushPhaseKeeps(st: State, s: Sid, env: Env)
    requires Inv(st) && s in st.sessions
    requires var pc := st.sessions[s].pc; pc.ReadBase? || pc.Held? || pc.TestFlush?
    ensures Inv(Step(st, s, env))
  {
    hide Inv, Holders;
    var after := Step(st, s, env);
    var me := after.sessions[s];
    Mine(st, s);
    if st.sessions[s].usage.Writes() {
      WriterStoreKeeps(st, s, me, after);
    } else {
      LocalKeeps(st, s, me);
    }
  }

  /** A writer's load finds its own word, and its test finds its own name. */
  lemma WriterUnlocks(st: State, s: Sid, env: Env)
    requires s in st.sessions && SessionOk(st, s) && st.sessions[s].usage.Writes()
    requires st.sessions[s].pc.UnlockLoad? || st.sessions[s].pc.TestOwner?
    ensures var after := Step(st, s, env); var pc := after.sessions[s].pc;
      && after == Go(st.(owner := after.owner), s, pc) && Holds(pc)
      && SessionOk(after, s)
  {
  }

  /** A reader's load finds a count to take down. */
  lemma ReaderUnlocks(st: State, s: Sid, env: Env)
    requires s in st.sessions && SessionOk(st, s) && !st.sessions[s].usage.Writes() && st.sessions[s].pc.UnlockLoad?
    requires !st.word.write && 0 < st.word.count < 0x4000_0000
    ensures var after := Step(st, s, env); var pc := after.sessions[s].pc;
      && after == Go(st, s, pc) && pc.UnlockCas?
      && SessionOk(after, s)
  {
    hide Encode;
  }

  lemma UnlockPhaseKeeps(st: State, s: Sid, env: Env)
    requires Inv(st) && s in st.sessions && (st.sessions[s].pc.UnlockLoad? || st.sessions[s].pc.TestOwner?)
    ensures Inv(Step(st, s, env))
  {
    hide Inv, Holders, Step, WriterOk, MapOk, MustFlush;
    var after := Step(st, s, env);
    Mine(st, s);
    if st.sessions[s].usage.Writes() {
      WriterUnlocks(st, s, env);
      WriterStoreKeeps(st, s, after.sessions[s], after);
    } else {
      ReaderUnlocks(st, s, env);
      LocalKeeps(st, s, after.sessions[s]);
    }
  }

  lemma ReleasePhaseKeeps(st: State, s: Sid, env: Env)
    requires Inv(st) && s in st.sessions && st.sessions[s].pc.UnlockCas?
    ensures Inv(Step(st, s, env))
  {
    hide Inv, Holders, Encode;
    var after := Step(st, s, env);
    var me := after.sessions[s];
    SwapCompares(st, s);
    if st.word == st.sessions[s].pc.seen {
      UnlockCasKeeps(st, s, me, after);
    } else {
      Mine(st, s);
      LocalKeeps(st, s, me);
    }
  }

  lemma StepKeeps(st: State, s: Sid, env: Env)
    requires Inv(st) && s in st.sessions
    ensures Inv(Step(st, s, env))
  {
    hide Inv, Step;
    var pc := st.sessions[s].pc;
    if pc.Idle? || pc.LockLoad? || pc.LockCas? || pc.NotLocked? {
      LockPhaseKeeps(st, s, env);
    } else if pc.StoreOwner? || pc.MarkFlush? || pc.NeedMap? {
      PreparePhaseKeeps(st, s, env);
    } else if pc.CallMap? || pc.OrMapped? {
      MapPhaseKeeps(st, s, env);
    } else if pc.WaitMutex? || InMutex(pc) {
      MutexPhaseKeeps(st, s, env);
    } else if pc.UnlockCas? {
      ReleasePhaseKeeps(st, s, env);
    } else if FlushDone(pc) {
      UnlockPhaseKeeps(st, s, env);
    } else {
      FlushPhaseKeeps(st, s, env);
    }
  }

  // -------------------------------------------------------------- whole runs

  /** A registered handle: nobody holds it, and every session belongs to a real thread. */
  ghost predicate Registered(st: State) {
    && !st.word.write && st.word.count == 0 && !st.needsFlush && st.mutex == {} && st.maps == 0
    && |st.sessions| < 0x4000_0000
    && (forall s :: s in st.sessions ==> st.sessions[s].pc.Idle? && st.sessions[s].tid != 0)
  }

  /** The state after the scheduler has let the listed sessions take one step each. */
  function Run(st: State, schedule: seq<(Sid, Env)>): State {
    if schedule == [] then st else
      var before := Run(st, schedule[..|schedule| - 1]);
      var (s, env) := schedule[|schedule| - 1];
      if s in before.sessions then Step(before, s, env) else before
  }

  lemma {:induction false} RunKeeps(st: State, schedule: seq<(Sid, Env)>)
    requires Registered(st)
    ensures Inv(Run(st, schedule))
    decreases |schedule|
  {
    if schedule == [] {
      assert Holders(st) == {};
    } else {
      hide Inv, Step;
      RunKeeps(st, schedule[..|schedule| - 1]);
      var before := Run(st, schedule[..|schedule| - 1]);
      var (s, env) := schedule[|schedule| - 1];
      if s in before.sessions { StepKeeps(before, s, env); }
    }
  }

  /** In every interleaving the count is the number of holders, a holder that may write is the only one, and a
      handle that nobody may write to carries no WRITE bit. */
  lemma MutualExclusion(st: State, schedule: seq<(Sid, Env)>, w: Sid, t: Sid)
    requires Registered(st)
    ensures var now := Run(st, schedule);
      && now.word.count == |Holders(now)| < 0x4000_0000
      && (w in Holders(now) && (now.sessions[w].usage.swWrite || now.sessions[w].usage.hwRender) && t in Holders(now)
          ==> t == w)
      && (now.word.write <==>
          exists x :: x in Holders(now) && (now.sessions[x].usage.swWrite || now.sessions[x].usage.hwRender))
  {
    hide Run, Inv;
    RunKeeps(st, schedule);
    var now := Run(st, schedule);
    WritersShow(now);
    if w in Holders(now) && now.sessions[w].usage.Writes() && t in Holders(now) {
      WriterAlone(now, w, t);
    }
  }

  lemma WritersShow(st: State)
    requires Inv(st)
    ensures st.word.count == |Holders(st)| < 0x4000_0000
    ensures st.word.write <==> exists x :: x in Holders(st) && st.sessions[x].usage.Writes()
  {
    HoldersBounded(st);
    NoWriters(st);
  }

  /** Some holder may write. */
  ghost predicate HeldForWriting(st: State) {
    exists x :: x in Holders(st) && (st.sessions[x].usage.swWrite || st.sessions[x].usage.hwRender)
  }

  /** A lock is refused if and only if a session that may write holds the handle, or the lock is for writing and
      any session does. */
  lemma RefusedIff(st: State, schedule: seq<(Sid, Env)>, s: Sid, env: Env)
    requires Registered(st) && s in Run(st, schedule).sessions
    ensures var now := Run(st, schedule); var me, pc := now.sessions[s], Step(now, s, env).sessions[s].pc;
      me.pc.LockLoad? ==>
        && (pc.Idle? <==>
             HeldForWriting(now) || (Holders(now) != {} && (me.usage.swWrite || me.usage.hwRender)))
        && (!pc.Idle? ==> pc == LockCas(now.word))
  {
    hide Run, Inv, Encode;
    RunKeeps(st, schedule);
    WritersShow(Run(st, schedule));
  }

  /** The swap takes the lock if the word is still the one read, and is tried again if it is not. */
  lemma TakenIff(st: State, schedule: seq<(Sid, Env)>, s: Sid, env: Env)
    requires Registered(st) && s in Run(st, schedule).sessions && Run(st, schedule).sessions[s].pc.LockCas?
    ensures var now := Run(st, schedule); var seen, after := now.sessions[s].pc.seen, Step(now, s, env);
      && (s in Holders(after) <==> now.word == seen)
      && (now.word != seen ==> after.word == now.word && after.sessions[s].pc.LockLoad?)
  {
    hide Run, Inv, Encode;
    RunKeeps(st, schedule);
    SwapCompares(Run(st, schedule), s);
  }

  /** The usage that the last lock of session s was asked for, in a schedule in which it has started one. */
  ghost function LastAsked(st: State, schedule: seq<(Sid, Env)>, s: Sid): set<Usage> {
    if schedule == [] then {} else
      var init, last := schedule[..|schedule| - 1], schedule[|schedule| - 1];
      var before := Run(st, init);
      if last.0 == s && s in before.sessions && before.sessions[s].pc.Idle? then {last.1.usage}
      else LastAsked(st, init, s)
  }

  /** A session that is in a lock works with the usage that the lock was asked for. */
  lemma {:induction false} UsageAsked(st: State, schedule: seq<(Sid, Env)>, s: Sid)
    requires Registered(st)
    ensures var now := Run(st, schedule);
      s in now.sessions && !now.sessions[s].pc.Idle? ==> LastAsked(st, schedule, s) == {now.sessions[s].usage}
    decreases |schedule|
  {
    if schedule != [] {
      hide Step;
      var init := schedule[..|schedule| - 1];
      var (t, env) := schedule[|schedule| - 1];
      UsageAsked(st, init, s);
      var before := Run(st, init);
      if t in before.sessions {
        if t == s { UsageStep(before, s, env); } else { StepFrame(before, t, env, s); }
      }
    }
  }

  lemma UsageStep(st: State, s: Sid, env: Env)
    requires s in st.sessions
    ensures Step(st, s, env).sessions[s].usage == if st.sessions[s].pc.Idle? then env.usage else st.sessions[s].usage
  {
    hide Encode, Busy, MustFlush, Go;
  }

  /** A writer's unlocking swap never fails and clears WRITE. It comes after exactly one flush if the lock was for
      software writing to a pmem buffer that is not the framebuffer, and after none otherwise. No unlock of a held
      lock is ever refused. */
  lemma UnlockSucceeds(st: State, schedule: seq<(Sid, Env)>, s: Sid, env: Env)
    requires Registered(st) && s in Run(st, schedule).sessions
    ensures var now := Run(st, schedule); var me := now.sessions[s];
      && !me.pc.NotLocked?
      && (me.pc.UnlockCas? ==> me.flushed == if me.usage.swWrite && now.pmem && !now.framebuffer then 1 else 0)
      && (me.pc.UnlockCas? && (me.usage.swWrite || me.usage.hwRender) ==>
           var after := Step(now, s, env);
           !after.word.write && after.word.count == 0 && after.sessions[s].pc.Idle? && !after.needsFlush)
  {
    RunKeeps(st, schedule);
    assert SessionOk(Run(st, schedule), s);
  }

  /** On a mapped handle nobody is about to map it, and what the swaps write is marked as mapped. */
  lemma MappedSwaps(st: State, s: Sid)
    requires Inv(st) && s in st.sessions && st.word.mapped
    ensures var pc := st.sessions[s].pc;
      && !pc.CallMap?
      && (pc.LockCas? && Encode(st.word) == Encode(pc.seen) ==> pc.seen.mapped)
      && (pc.UnlockCas? && Encode(st.word) == Encode(pc.seen) ==> pc.next.mapped)
  {
    hide Encode, Global, MustFlush;
    var pc := st.sessions[s].pc;
    if pc.LockCas? || pc.UnlockCas? { SwapCompares(st, s); }
    assert SessionOk(st, s);
  }

  lemma MappedWord(st: State, s: Sid, env: Env)
    requires s in st.sessions && st.word.mapped
    requires var pc := st.sessions[s].pc;
      && (pc.LockCas? && Encode(st.word) == Encode(pc.seen) ==> pc.seen.mapped)
      && (pc.UnlockCas? && Encode(st.word) == Encode(pc.seen) ==> pc.next.mapped)
    ensures Step(st, s, env).word.mapped
  {
    hide Encode, Go, Busy, MustFlush;
  }

  /** Once mapped, a handle keeps its mapping and its address. */
  lemma MappedStays(st: State, s: Sid, env: Env)
    requires Inv(st) && s in st.sessions && st.word.mapped
    ensures Step(st, s, env).word.mapped && Step(st, s, env).base == st.base
  {
    hide Inv, Encode, Step;
    MappedSwaps(st, s);
    AddressChanges(st, s, env);
    MappedWord(st, s, env);
  }

  lemma {:induction false} MappedStaysRun(st: State, p: seq<(Sid, Env)>, q: seq<(Sid, Env)>)
    requires Registered(st) && Run(st, p).word.mapped
    ensures Run(st, p + q).word.mapped && Run(st, p + q).base == Run(st, p).base
    decreases |q|
  {
    hide Step, Inv;
    if q == [] {
      assert p + q == p;
    } else {
      var n := |q| - 1;
      assert (p + q)[..|p + q| - 1] == p + q[..n];
      MappedStaysRun(st, p, q[..n]);
      var before := Run(st, p + q[..n]);
      RunKeeps(st, p + q[..n]);
      if q[n].0 in before.sessions { MappedStays(before, q[n].0, q[n].1); }
    }
  }

  /** Session s is inside a lock for software access that returned 0. */
  predicate Mapped(st: State, s: Sid) {
    && s in st.sessions && st.sessions[s].pc.Held? && !st.sessions[s].pc.err
    && (st.sessions[s].usage.swRead || st.sessions[s].usage.swWrite)
  }

  /** A handle is mapped at most once, and every lock that succeeds in mapping sees the address it is mapped at. */
  lemma SameAddress(st: State, p: seq<(Sid, Env)>, q: seq<(Sid, Env)>, s: Sid, t: Sid)
    requires Registered(st)
    requires Mapped(Run(st, p), s) && Mapped(Run(st, p + q), t)
    ensures Run(st, p).sessions[s].pc.vaddr == Run(st, p + q).sessions[t].pc.vaddr == Run(st, p + q).base
    ensures Run(st, p + q).maps <= 1 && Run(st, p).word.mapped
  {
    RunKeeps(st, p);
    RunKeeps(st, p + q);
    assert SessionOk(Run(st, p), s);
    assert SessionOk(Run(st, p + q), t);
    MappedStaysRun(st, p, q);
  }

  lemma MapsInCall(st: State, s: Sid, env: Env)
    requires s in st.sessions && Step(st, s, env).maps != st.maps
    ensures st.sessions[s].pc.CallMap?
  {
    hide Encode, Busy, MustFlush;
  }

  /** Only a lock for software access maps the handle. */
  lemma OnlySoftwareMaps(st: State, schedule: seq<(Sid, Env)>, s: Sid, env: Env)
    requires Registered(st) && s in Run(st, schedule).sessions
    requires Step(Run(st, schedule), s, env).maps != Run(st, schedule).maps
    ensures var me := Run(st, schedule).sessions[s]; me.usage.swRead || me.usage.swWrite
  {
    hide Run, Step;
    RunKeeps(st, schedule);
    MapsInCall(Run(st, schedule), s, env);
    assert SessionOk(Run(st, schedule), s);
  }

  /** Session s is in a lock that will return an error, or has. */
  predicate Erring(st: State, s: Sid) {
    s in st.sessions && var pc := st.sessions[s].pc; (pc.LeaveMutex? || pc.ReadBase? || pc.Held?) && pc.err
  }

  /** Session s is where it was. */
  ghost predicate Kept(st: State, after: State, s: Sid) {
    (s in after.sessions <==> s in st.sessions) && (s in st.sessions ==> after.sessions[s] == st.sessions[s])
  }

  lemma LockFrame(st: State, t: Sid, env: Env, s: Sid)
    requires t in st.sessions && s != t
    requires var pc := st.sessions[t].pc;
      pc.Idle? || pc.LockLoad? || pc.LockCas? || pc.StoreOwner? || pc.MarkFlush? || pc.NeedMap?
    ensures Kept(st, Step(st, t, env), s)
  {
    hide Encode, Busy, MustFlush, Go;
    forall pc, now: State | now.sessions == st.sessions { GoFrame(now, t, pc, s); }
  }

  lemma MapFrame(st: State, t: Sid, env: Env, s: Sid)
    requires t in st.sessions && s != t
    requires var pc := st.sessions[t].pc; pc.WaitMutex? || InMutex(pc) || pc.ReadBase? || pc.Held?
    ensures Kept(st, Step(st, t, env), s)
  {
    hide Encode, Busy, MustFlush, Go;
    forall pc, now: State | now.sessions == st.sessions { GoFrame(now, t, pc, s); }
  }

  lemma UnlockFrame(st: State, t: Sid, env: Env, s: Sid)
    requires t in st.sessions && s != t
    requires var pc := st.sessions[t].pc; pc.TestFlush? || FlushDone(pc) || pc.NotLocked?
    ensures Kept(st, Step(st, t, env), s)
  {
    hide Encode, Busy, MustFlush, Go;
    forall pc, now: State | now.sessions == st.sessions { GoFrame(now, t, pc, s); }
  }

  /** A step of one session does not move another. */
  lemma StepFrame(st: State, t: Sid, env: Env, s: Sid)
    requires t in st.sessions && s != t
    ensures Kept(st, Step(st, t, env), s)
  {
    hide Step;
    var pc := st.sessions[t].pc;
    if pc.WaitMutex? || InMutex(pc) || pc.ReadBase? || pc.Held? {
      MapFrame(st, t, env, s);
    } else if pc.TestFlush? || FlushDone(pc) || pc.NotLocked? {
      UnlockFrame(st, t, env, s);
    } else {
      LockFrame(st, t, env, s);
    }
  }

  lemma GoFrame(st: State, t: Sid, pc: Pc, s: Sid)
    requires t in st.sessions && s != t
    ensures s in Go(st, t, pc).sessions <==> s in st.sessions
    ensures s in st.sessions ==> Go(st, t, pc).sessions[s] == st.sessions[s]
  {
  }

  lemma OwnError(st: State, s: Sid, env: Env)
    requires s in st.sessions && Erring(Step(st, s, env), s) && !Erring(st, s)
    ensures st.sessions[s].pc.CallMap? && !st.framebuffer && env.mapFails
  {
    hide Encode, Busy, MustFlush, Go;
  }

  /** The step that makes a lock err is its own mapping that fails. */
  lemma ErrsBy(st: State, t: Sid, env: Env, s: Sid)
    requires t in st.sessions && Erring(Step(st, t, env), s) && !Erring(st, s)
    ensures t == s && st.sessions[s].pc.CallMap? && !st.framebuffer && env.mapFails
  {
    hide Step;
    if t == s { OwnError(st, s, env); } else { StepFrame(st, t, env, s); }
  }

  /** A lock returns an error only if its own call of gralloc_map has failed. */
  lemma {:induction false} ErrorMeans(st: State, schedule: seq<(Sid, Env)>, s: Sid) returns (k: nat)
    requires Registered(st) && Erring(Run(st, schedule), s)
    ensures k < |schedule| && schedule[k].0 == s && schedule[k].1.mapFails
    ensures var at := Run(st, schedule[..k]); s in at.sessions && at.sessions[s].pc.CallMap? && !at.framebuffer
    ensures forall j :: k < j <= |schedule| ==> Erring(Run(st, schedule[..j]), s)
    decreases |schedule|
  {
    hide Step, Erring;
    NotErring(st, s);
    var n := |schedule| - 1;
    var before := Run(st, schedule[..n]);
    if Erring(before, s) {
      k := ErrorMeans(st, schedule[..n], s);
      assert forall j :: 0 <= j <= n ==> schedule[..n][..j] == schedule[..j];
    } else {
      k := n;
      ErrsBy(before, schedule[n].0, schedule[n].1, s);
    }
    assert schedule[..|schedule|] == schedule;
  }

  lemma NotErring(st: State, s: Sid)
    requires Registered(st)
    ensures Run(st, []) == st && !Erring(st, s)
  {
  }

  // ------------------------------------------------------------------ progress

  /** The next access of session t takes the lock, gives it back, or records that the handle is mapped. */
  predicate GetsOn(st: State, t: Sid) {
    t in st.sessions &&
    match st.sessions[t].pc
    case LockCas(seen) => Encode(st.word) == Encode(seen)
    case UnlockCas(seen, _) => Encode(st.word) == Encode(seen)
    case OrMapped => true
    case _ => false
  }

  /** How far a session has come in its lock and unlock. */
  function Progress(pc: Pc): nat {
    match pc
    case Idle => 0
    case LockLoad => 1
    case LockCas(_) => 2
    case StoreOwner(_) => 3
    case MarkFlush(_) => 4
    case NeedMap(_) => 5
    case WaitMutex => 6
    case TestMapped => 7
    case CallMap => 8
    case OrMapped => 9
    case LeaveMutex(_) => 10
    case ReadBase(_) => 11
    case Held(_, _) => 12
    case TestFlush => 13
    case UnlockLoad => 14
    case TestOwner(_) => 15
    case UnlockCas(_, _) => 16
    case NotLocked => 17
  }

  /** Every step brings a session further or back to where it can start again. The exceptions are a swap that fails,
      which takes it back to its load, and the wait for sMapLock while another session has it. */
  lemma StepAdvances(st: State, schedule: seq<(Sid, Env)>, s: Sid, env: Env)
    requires Registered(st) && s in Run(st, schedule).sessions
    ensures var now := Run(st, schedule); var pc, next := now.sessions[s].pc, Step(now, s, env).sessions[s].pc;
      || Progress(next) > Progress(pc)
      || (next.Idle? && (pc.LockLoad? || pc.UnlockCas?))
      || (next.LockLoad? && pc.LockCas? && now.word != pc.seen)
      || (next.UnlockLoad? && pc.UnlockCas? && now.word != pc.seen)
      || (next == pc == WaitMutex && exists t :: t in now.sessions && t != s && InMutex(now.sessions[t].pc))
  {
    hide Run, Encode, Inv, Step, Progress;
    RunKeeps(st, schedule);
    var now := Run(st, schedule);
    Mine(now, s);
    Advances(now, s, env);
    if now.sessions[s].pc.WaitMutex? && now.mutex != {} { MutexTaken(now, s); }
    if now.sessions[s].pc.LockCas? || now.sessions[s].pc.UnlockCas? { SwapCompares(now, s); }
  }

  ghost predicate Moves(st: State, after: State, s: Sid)
    requires s in st.sessions && s in after.sessions
  {
    var pc, next := st.sessions[s].pc, after.sessions[s].pc;
    || Progress(next) > Progress(pc)
    || (next.Idle? && (pc.LockLoad? || pc.UnlockCas?))
    || (next.LockLoad? && pc.LockCas? && Encode(st.word) != Encode(pc.seen))
    || (next.UnlockLoad? && pc.UnlockCas? && Encode(st.word) != Encode(pc.seen))
    || (next == pc == WaitMutex && st.mutex != {})
  }

  lemma LockAdvances(st: State, s: Sid, env: Env)
    requires s in st.sessions
    requires var pc := st.sessions[s].pc;
      pc.Idle? || pc.LockLoad? || pc.LockCas? || pc.StoreOwner? || pc.MarkFlush? || pc.NeedMap?
    ensures Moves(st, Step(st, s, env), s)
  {
    hide Encode, Busy, MustFlush, Go;
  }

  lemma MapAdvances(st: State, s: Sid, env: Env)
    requires s in st.sessions
    requires var pc := st.sessions[s].pc;
      pc.WaitMutex? || InMutex(pc) || pc.ReadBase? || pc.Held?
    ensures Moves(st, Step(st, s, env), s)
  {
    hide Encode, Busy, MustFlush, Go;
  }

  lemma UnlockAdvances(st: State, s: Sid, env: Env)
    requires s in st.sessions
    requires var pc := st.sessions[s].pc;
      pc.TestFlush? || FlushDone(pc)
    ensures Moves(st, Step(st, s, env), s)
  {
    hide Encode, Busy, MustFlush, Go;
  }

  lemma Advances(st: State, s: Sid, env: Env)
    requires s in st.sessions && !st.sessions[s].pc.NotLocked?
    ensures Moves(st, Step(st, s, env), s)
  {
    hide Step, Moves;
    var pc := st.sessions[s].pc;
    if pc.WaitMutex? || InMutex(pc) || pc.ReadBase? || pc.Held? {
      MapAdvances(st, s, env);
    } else if pc.TestFlush? || FlushDone(pc) {
      UnlockAdvances(st, s, env);
    } else {
      LockAdvances(st, s, env);
    }
  }

  lemma MutexTaken(st: State, s: Sid)
    requires Inv(st) && s in st.sessions && st.sessions[s].pc.WaitMutex? && st.mutex != {}
    ensures exists t :: t in st.sessions && t != s && InMutex(st.sessions[t].pc)
  {
    var t :| t in st.mutex;
    OnlyMember(st.mutex, t);
    assert SessionOk(st, t) && SessionOk(st, s);
  }

  /** The address of a handle changes only when gralloc_map maps it, to what mmap returns, or fails to; the
      framebuffer stays where it is. */
  lemma AddressChanges(st: State, s: Sid, env: Env)
    requires s in st.sessions
    ensures Step(st, s, env).base ==
      if st.sessions[s].pc.CallMap? && !st.framebuffer then (if env.mapFails then 0 else env.address) else st.base
    ensures st.sessions[s].pc.CallMap? ==>
      (Step(st, s, env).sessions[s].pc == LeaveMutex(true) <==> env.mapFails && !st.framebuffer)
  {
    hide Encode, Busy, MustFlush, Go;
  }

  /** Nothing else changes the word. */
  lemma WordChanges(st: State, t: Sid, env: Env)
    requires t in st.sessions && Step(st, t, env).word != st.word
    ensures GetsOn(st, t)
  {
    hide Encode;
  }

  /** If the word has changed by the end of a schedule, one of its steps has changed it. */
  lemma {:induction false} ChangedBy(st: State, schedule: seq<(Sid, Env)>) returns (k: nat)
    requires Run(st, schedule).word != st.word
    ensures k < |schedule| && schedule[k].0 in Run(st, schedule[..k]).sessions
    ensures var before := Run(st, schedule[..k]); Step(before, schedule[k].0, schedule[k].1).word != before.word
    decreases |schedule|
  {
    hide Step;
    var n := |schedule| - 1;
    if Run(st, schedule[..n]).word != st.word {
      k := ChangedBy(st, schedule[..n]);
      assert schedule[..n][..k] == schedule[..k];
    } else {
      k := n;
    }
  }

  /** A swap fails only because another session got on: since the word was loaded, some other session has taken
      the lock, given it back, or mapped the handle. */
  lemma FailedSwap(st: State, others: seq<(Sid, Env)>, s: Sid) returns (k: nat)
    requires s in st.sessions && (st.sessions[s].pc.LockCas? || st.sessions[s].pc.UnlockCas?)
    requires st.sessions[s].pc.seen == st.word && forall i :: 0 <= i < |others| ==> others[i].0 != s
    requires Encode(Run(st, others).word) != Encode(st.word)
    ensures k < |others| && others[k].0 != s && GetsOn(Run(st, others[..k]), others[k].0)
  {
    hide Step, GetsOn;
    k := ChangedBy(st, others);
    WordChanges(Run(st, others[..k]), others[k].0, others[k].1);
  }
}
