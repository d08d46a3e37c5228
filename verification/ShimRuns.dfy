/**
 * The life of the RIL shim's requests over whole runs: the vendor library answers from its own threads, so
 * requests and the three steps of every completion interleave freely.
 */
module ShimRuns {
  import opened TokenTable

  /** A request the vendor library has not answered; request is -1 for one the shim only passes on. */
  datatype Flight = Flight(request: int, owned: nat)

  /** A completion under way: what it answers, and what the shim found in its table. */
  datatype Done = Done(flight: Flight, request: int, owned: nat, delivered: bool)

  /** Where a heap copy made by the shim is. */
  datatype Place = Flying(t: nat) | Held(i: nat) | Freed | Leaked

  datatype Shim = Shim(
    table: Table,
    flights: map<nat, Flight>,
    done: map<nat, Done>,
    blocks: nat,  // address of the next heap copy
    place: map<nat, Place>,
    frees: seq<nat>)

  datatype Event =
    | Request(t: nat, request: nat, copy: bool)  // shimOnRequest for a request the shim tracks
    | Pass(t: nat)                               // shimOnRequest for any other
    | Take(i: nat, t: nat)                       // shimOnRequestComplete, completion i: the table
    | Deliver(i: nat)                            // ... the answer to the upper layer
    | Free(i: nat)                               // ... and the copy

  const Start := Shim(seq(MAX_PENDING, _ => Slot(NULL, 0, NULL)), map[], map[], 1, map[], [])

  ghost function Tracked(s: Shim): set<nat> {
    Tokens(s.table, |s.table|)
  }

  /** Tokens are addresses of requests not yet answered; every completion goes through its steps in order. */
  predicate Legal(s: Shim, e: Event) {
    match e
    case Request(t, _, _) => t != NULL && t !in s.flights
    case Pass(t) => t != NULL && t !in s.flights
    case Take(i, t) => i !in s.done && t in s.flights
    case Deliver(i) => i in s.done && !s.done[i].delivered
    case Free(i) => i in s.done && s.done[i].delivered
  }

  function Step(s: Shim, e: Event): Shim
    requires Legal(s, e)
  {
    match e
    case Request(t, request, copy) =>
      var owned := if copy then s.blocks else NULL;
      s.(table := Put(s.table, t, request, owned),
         flights := s.flights[t := Flight(request, owned)],
         blocks := if copy then s.blocks + 1 else s.blocks,
         place := if copy then s.place[owned := Flying(t)] else s.place)
    case Pass(t) => s.(flights := s.flights[t := Flight(-1, NULL)])
    case Take(i, t) =>
      var d := Done(s.flights[t], RequestOf(s.table, t), OwnedOf(s.table, t), false);
      s.(table := Drop(s.table, t),
         flights := s.flights - {t},
         done := s.done[i := d],
         place := if d.owned != NULL then s.place[d.owned := Held(i)]
                  else if d.flight.owned != NULL then s.place[d.flight.owned := Leaked] else s.place)
    case Deliver(i) => s.(done := s.done[i := s.done[i].(delivered := true)])
    case Free(i) =>
      var b := s.done[i].owned;
      var rest := s.(done := s.done - {i});
      if b == NULL then rest else rest.(place := s.place[b := Freed], frees := s.frees + [b])
  }

  predicate LegalRun(s: Shim, es: seq<Event>)
    decreases es
  {
    es == [] || (Legal(s, es[0]) && LegalRun(Step(s, es[0]), es[1..]))
  }

  function Run(s: Shim, es: seq<Event>): Shim
    requires LegalRun(s, es)
    decreases es
  {
    if es == [] then s else Run(Step(s, es[0]), es[1..])
  }

  // ---------------------------------------------------------------- invariant

  /** The table holds, once each, requests in flight, with what they asked for and their copies. */
  ghost predicate TableOk(s: Shim) {
    && |s.table| == MAX_PENDING && Distinct(s.table)
    && forall t :: t in Tracked(s) ==>
         t in s.flights && s.flights[t].request >= 0
         && RequestOf(s.table, t) == s.flights[t].request && OwnedOf(s.table, t) == s.flights[t].owned
  }

  ghost predicate FlightsOk(s: Shim) {
    forall t :: t in s.flights ==>
      && t != NULL && s.flights[t].request >= -1
      && (s.flights[t].request == -1 ==> s.flights[t].owned == NULL)
      && (s.flights[t].owned != NULL ==> s.flights[t].owned in s.place && s.place[s.flights[t].owned] == Flying(t))
  }

  /** A completion works on its own request and copy, or on none. */
  ghost predicate DoneOk(s: Shim) {
    forall i :: i in s.done ==>
      && (s.done[i].owned != NULL ==> s.done[i].owned in s.place && s.place[s.done[i].owned] == Held(i))
      && (Flight(s.done[i].request, s.done[i].owned) in {s.done[i].flight, Flight(-1, NULL)})
  }

  /** Every copy ever made is in one place. */
  ghost predicate PlaceOk(s: Shim) {
    && s.blocks >= 1
    && (forall b :: 1 <= b < s.blocks ==> b in s.place)
    && forall b :: b in s.place ==> 1 <= b < s.blocks && At(s, b)
  }

  ghost predicate At(s: Shim, b: nat)
    requires b in s.place
  {
    match s.place[b]
    case Flying(t) => t in s.flights && s.flights[t].owned == b
    case Held(i) => i in s.done && s.done[i].owned == b
    case Freed => b in s.frees
    case Leaked => true
  }

  ghost predicate FreesOk(s: Shim) {
    && (forall j :: 0 <= j < |s.frees| ==> s.frees[j] in s.place && s.place[s.frees[j]] == Freed)
    && forall j, k :: 0 <= j < k < |s.frees| ==> s.frees[j] != s.frees[k]
  }

  ghost predicate Inv(s: Shim) {
    TableOk(s) && FlightsOk(s) && DoneOk(s) && PlaceOk(s) && FreesOk(s)
  }

  lemma StartInv()
    ensures Inv(Start)
  {
    assert forall t :: t !in Tracked(Start);
  }

  /** What pendingTake finds for a request in flight. */
  lemma Found(s: Shim, t: nat)
    requires TableOk(s) && FlightsOk(s) && t in s.flights
    ensures if t in Tracked(s)
      then RequestOf(s.table, t) == s.flights[t].request && OwnedOf(s.table, t) == s.flights[t].owned
      else RequestOf(s.table, t) == -1 && OwnedOf(s.table, t) == NULL
  {
    hide Tokens, Find, Distinct;
  }

  lemma RequestKeeps(s: Shim, e: Event)
    requires Inv(s) && Legal(s, e) && e.Request?
    ensures Inv(Step(s, e))
  {
    hide Tokens, Find, Distinct, Put, Drop, RequestOf, OwnedOf, TableOk;
    var r := Step(s, e);
    RequestTable(s, e);
    assert FlightsOk(r);
    assert DoneOk(r);
    assert PlaceOk(r);
    assert FreesOk(r);
  }

  lemma RequestTable(s: Shim, e: Event)
    requires TableOk(s) && Legal(s, e) && e.Request?
    ensures TableOk(Step(s, e))
  {
    hide Tokens, Find, Distinct;
    var r, t := Step(s, e), e.t;
    if Find(s.table, NULL) < |s.table| {
      var owned := r.flights[t].owned;
      PutTokens(s.table, t, e.request, owned);
      forall u | u in Tracked(r)
        ensures u in r.flights && r.flights[u].request >= 0
        ensures RequestOf(r.table, u) == r.flights[u].request && OwnedOf(r.table, u) == r.flights[u].owned
      {
        PutTake(s.table, t, e.request, owned, u);
      }
    }
  }

  lemma TakeTable(s: Shim, e: Event)
    requires TableOk(s) && FlightsOk(s) && Legal(s, e) && e.Take?
    ensures TableOk(Step(s, e))
  {
    hide Tokens, Find, Distinct;
    var r, t := Step(s, e), e.t;
    DropTokens(s.table, t);
    forall u | u in Tracked(r)
      ensures u in r.flights && r.flights[u].request >= 0
      ensures RequestOf(r.table, u) == r.flights[u].request && OwnedOf(r.table, u) == r.flights[u].owned
    {
      DropOthers(s.table, t, u);
    }
  }

  lemma TakeKeeps(s: Shim, e: Event)
    requires Inv(s) && Legal(s, e) && e.Take?
    ensures Inv(Step(s, e))
  {
    hide Tokens, Find, Distinct, Put, Drop, RequestOf, OwnedOf, TableOk;
    var r := Step(s, e);
    TakeTable(s, e);
    Found(s, e.t);
    assert FlightsOk(r);
    assert DoneOk(r);
    assert PlaceOk(r);
    assert FreesOk(r);
  }

  lemma FreeTable(s: Shim, e: Event)
    requires TableOk(s) && Legal(s, e) && e.Free?
    ensures TableOk(Step(s, e))
  {
    hide Tokens, Find, Distinct, RequestOf, OwnedOf;
  }

  /** The copy freed was held, so it is not among those freed before. */
  lemma FreeFrees(s: Shim, e: Event)
    requires DoneOk(s) && FreesOk(s) && Legal(s, e) && e.Free?
    ensures FreesOk(Step(s, e))
  {
    hide Tokens, Find, Distinct, RequestOf, OwnedOf;
  }

  lemma FreeKeeps(s: Shim, e: Event)
    requires Inv(s) && Legal(s, e) && e.Free?
    ensures Inv(Step(s, e))
  {
    hide Tokens, Find, Distinct, RequestOf, OwnedOf, TableOk, FreesOk;
    var r := Step(s, e);
    FreeTable(s, e);
    FreeFrees(s, e);
    assert FlightsOk(r);
    assert DoneOk(r);
    assert PlaceOk(r);
  }

  lemma StepKeeps(s: Shim, e: Event)
    requires Inv(s) && Legal(s, e)
    ensures Inv(Step(s, e))
  {
    hide Tokens, Find, Distinct, RequestOf, OwnedOf, Put, Drop;
    match e {
      case Request(_, _, _) => RequestKeeps(s, e);
      case Take(_, _) => TakeKeeps(s, e);
      case Free(_) => FreeKeeps(s, e);
      case Pass(_) => assert TableOk(Step(s, e));
      case Deliver(_) => assert TableOk(Step(s, e));
    }
  }

  lemma {:induction false} RunKeeps(s: Shim, es: seq<Event>)
    requires Inv(s) && LegalRun(s, es)
    ensures Inv(Run(s, es))
    decreases es
  {
    hide Inv, Step, Legal;
    if es != [] {
      StepKeeps(s, es[0]);
      RunKeeps(Step(s, es[0]), es[1..]);
    }
  }

  // ------------------------------------------------------------------ results

  /** A completion is translated by the request its token was issued for, and frees that request's copy,
      if and only if the token is in the table or there was nothing to file. */
  lemma PairedIff(s: Shim, t: nat)
    requires Inv(s) && t in s.flights
    ensures (Flight(RequestOf(s.table, t), OwnedOf(s.table, t)) == s.flights[t])
            <==> (t in Tracked(s) || s.flights[t].request == -1)
  {
    hide Tokens, Find, Distinct, RequestOf, OwnedOf;
    Found(s, t);
  }

  /** So is what a completion works on: the request it is translated by and the copy it frees are those of the request
      its token was issued for, if and only if that was filed or there was nothing to file, and none otherwise. */
  lemma CompletionPairedIff(s: Shim, i: nat, t: nat)
    requires Inv(s) && Legal(s, Take(i, t))
    ensures var d, flight := Step(s, Take(i, t)).done[i], s.flights[t];
      && d.flight == flight && !d.delivered
      && (d.request == flight.request && d.owned == flight.owned <==> t in Tracked(s) || flight.request == -1)
      && (t !in Tracked(s) ==> d.request == -1 && d.owned == NULL)
  {
    hide Tokens, Find, Distinct, RequestOf, OwnedOf, Drop;
    Found(s, t);
  }

  /** What the vendor library has still to answer: every request adds its token, tracked or not, and its completion
      takes it away. */
  lemma OutstandingAfter(s: Shim, e: Event)
    requires Legal(s, e)
    ensures Step(s, e).flights.Keys == match e
      case Request(t, _, _) => s.flights.Keys + {t}
      case Pass(t) => s.flights.Keys + {t}
      case Take(_, t) => s.flights.Keys - {t}
      case _ => s.flights.Keys
  {
  }

  /** A completion that is not interrupted goes through and leaves nothing of itself behind: its token is answered and
      forgotten, and the copy is freed if and only if the request had one and was filed. */
  lemma CompletionAlone(s: Shim, i: nat, t: nat)
    requires Inv(s) && Legal(s, Take(i, t))
    ensures LegalRun(s, [Take(i, t), Deliver(i), Free(i)])
    ensures var r := Run(s, [Take(i, t), Deliver(i), Free(i)]);
      && r.flights == s.flights - {t} && r.done == s.done && Tracked(r) == Tracked(s) - {t}
      && r.frees == if t in Tracked(s) && s.flights[t].owned != NULL then s.frees + [s.flights[t].owned] else s.frees
  {
    hide Tokens, Find, Distinct, RequestOf, OwnedOf, Drop;
    var es := [Take(i, t), Deliver(i), Free(i)];
    assert es[1..] == [Deliver(i), Free(i)] && es[1..][1..] == [Free(i)] && es[1..][1..][1..] == [];
    Found(s, t);
    TrackedAfter(s, Take(i, t));
    var a := Step(s, Take(i, t));
    var b := Step(a, Deliver(i));
    var c := Step(b, Free(i));
    assert c.done == s.done;
    assert LegalRun(c, []) && LegalRun(b, [Free(i)]) && LegalRun(a, es[1..]);
    assert Run(b, [Free(i)]) == c && Run(a, es[1..]) == c;
  }

  /** The requests of a run for which the shim makes a copy. */
  function Copies(es: seq<Event>): nat {
    if es == [] then 0 else (if es[0].Request? && es[0].copy then 1 else 0) + Copies(es[1..])
  }

  /** A copy is made for every such request and for no other. */
  lemma {:induction false} CopiesMade(s: Shim, es: seq<Event>)
    requires LegalRun(s, es)
    ensures Run(s, es).blocks == s.blocks + Copies(es)
    decreases es
  {
    if es != [] { CopiesMade(Step(s, es[0]), es[1..]); }
  }

  /** A request is filed if and only if fewer than 64 are, and stays filed until it is answered. */
  lemma TrackedAfter(s: Shim, e: Event)
    requires Inv(s) && Legal(s, e)
    ensures Tracked(Step(s, e)) == match e
      case Request(t, _, _) => if |Tracked(s)| < 64 then Tracked(s) + {t} else Tracked(s)
      case Take(_, t) => Tracked(s) - {t}
      case _ => Tracked(s)
  {
    hide Tokens, Find, Distinct;
    match e {
      case Request(t, request, copy) =>
        RoomIff(s.table);
        if Find(s.table, NULL) < |s.table| {
          PutTokens(s.table, t, request, if copy then s.blocks else NULL);
        }
      case Take(_, t) => DropTokens(s.table, t);
      case _ =>
    }
  }

  /** On every run: no copy is freed twice, and none while its request or its completion still needs it. */
  lemma FreedOnce(es: seq<Event>)
    requires LegalRun(Start, es)
    ensures var s := Run(Start, es);
      && (forall j, k :: 0 <= j < k < |s.frees| ==> s.frees[j] != s.frees[k])
      && (forall t :: t in s.flights ==> s.flights[t].owned !in s.frees)
      && (forall i :: i in s.done ==> s.done[i].owned !in s.frees)
  {
    hide Tokens, Find, Distinct, Step, Legal;
    StartInv();
    RunKeeps(Start, es);
  }

  // ------------------------------------------------- with room for everything

  /** Every request the shim means to track is in the table, and nothing has leaked. */
  ghost predicate Roomy(s: Shim) {
    && (forall t :: t in s.flights && s.flights[t].request >= 0 ==> t in Tracked(s))
    && (forall b :: b in s.place ==> s.place[b] != Leaked)
    && (forall i :: i in s.done ==> Flight(s.done[i].request, s.done[i].owned) == s.done[i].flight)
  }

  /** A run that never asks to track a 65th request. */
  ghost predicate Within(s: Shim, es: seq<Event>)
    requires LegalRun(s, es)
    decreases es
  {
    es == [] || ((es[0].Request? ==> |Tracked(s)| < MAX_PENDING) && Within(Step(s, es[0]), es[1..]))
  }

  lemma StepRoomy(s: Shim, e: Event)
    requires Inv(s) && Roomy(s) && Legal(s, e) && (e.Request? ==> |Tracked(s)| < MAX_PENDING)
    ensures Roomy(Step(s, e))
  {
    hide Tokens, Tracked, Find, Distinct, RequestOf, OwnedOf, Put, Drop, TableOk, FreesOk, DoneOk;
    TrackedAfter(s, e);
    if e.Take? { Found(s, e.t); }
  }

  lemma {:induction false} RunRoomy(s: Shim, es: seq<Event>)
    requires Inv(s) && Roomy(s) && LegalRun(s, es) && Within(s, es)
    ensures Inv(Run(s, es)) && Roomy(Run(s, es))
    decreases es
  {
    hide Inv, Roomy, Step, Legal;
    if es != [] {
      StepKeeps(s, es[0]);
      StepRoomy(s, es[0]);
      RunRoomy(Step(s, es[0]), es[1..]);
    }
  }

  /** When nothing is in flight or under way, the copies not leaked are the copies freed. */
  lemma Settled(s: Shim, b: nat)
    requires Inv(s) && s.flights == map[] && s.done == map[]
    ensures b in s.frees <==> b in s.place && s.place[b] != Leaked
    ensures b in s.place <==> 1 <= b < s.blocks
  {
    hide TableOk, FlightsOk, DoneOk;
    if b in s.place { assert At(s, b); }
  }

  /** With at most 64 tracked requests at a time, once everything is answered every copy ever made has been
      freed, and on the way every completion was paired with its request. */
  lemma AllFreed(es: seq<Event>)
    requires LegalRun(Start, es) && Within(Start, es)
    ensures var s := Run(Start, es);
      && (forall t :: t in s.flights ==>
            Flight(RequestOf(s.table, t), OwnedOf(s.table, t)) == s.flights[t])
      && (forall i :: i in s.done ==> Flight(s.done[i].request, s.done[i].owned) == s.done[i].flight)
      && s.blocks == 1 + Copies(es)
      && (s.flights == map[] && s.done == map[] ==> forall b: nat :: 1 <= b < s.blocks <==> b in s.frees)
  {
    hide Tokens, Find, Distinct, Step, Legal, RequestOf, OwnedOf;
    StartInv();
    assert Roomy(Start);
    CopiesMade(Start, es);
    RunRoomy(Start, es);
    var s := Run(Start, es);
    forall t | t in s.flights
      ensures Flight(RequestOf(s.table, t), OwnedOf(s.table, t)) == s.flights[t]
    {
      PairedIff(s, t);
    }
    if s.flights == map[] && s.done == map[] {
      forall b: nat
        ensures 1 <= b < s.blocks <==> b in s.frees
      {
        Settled(s, b);
      }
    }
  }

  // ------------------------------------------------------------ without room

  /** Copy b belongs to a request that is not in the table, or that was answered while it was not. */
  ghost predicate Stray(s: Shim, b: nat) {
    b in s.place && match s.place[b]
      case Flying(t) => t !in Tracked(s)
      case Leaked => true
      case _ => false
  }

  /** A request refused by a full table makes its copy a stray. */
  lemma OverflowStrays(s: Shim, e: Event)
    requires Inv(s) && Legal(s, e) && e.Request? && e.copy && |Tracked(s)| >= MAX_PENDING
    ensures Stray(Step(s, e), s.blocks)
  {
    hide Tokens, Find, Distinct, Put;
    TrackedAfter(s, e);
  }

  lemma StepStray(s: Shim, e: Event, b: nat)
    requires Inv(s) && Legal(s, e) && Stray(s, b)
    ensures Stray(Step(s, e), b)
  {
    hide Tokens, Tracked, Find, Distinct, RequestOf, OwnedOf, Put, Drop, TableOk, FreesOk;
    TrackedAfter(s, e);
    if e.Take? { Found(s, e.t); }
  }

  /** A stray copy is never freed, whatever happens after. */
  lemma {:induction false} StrayNeverFreed(s: Shim, es: seq<Event>, b: nat)
    requires Inv(s) && LegalRun(s, es) && Stray(s, b)
    ensures Stray(Run(s, es), b) && b !in Run(s, es).frees
    decreases es
  {
    hide Tokens, Find, Distinct, Step, Legal;
    if es != [] {
      StepKeeps(s, es[0]);
      StepStray(s, es[0], b);
      StrayNeverFreed(Step(s, es[0]), es[1..], b);
    }
  }

  // ------------------------------------------------------ the table overflows

  lemma {:induction false} RunMore(s: Shim, es: seq<Event>, e: Event)
    requires LegalRun(s, es) && Legal(Run(s, es), e)
    ensures LegalRun(s, es + [e]) && Run(s, es + [e]) == Step(Run(s, es), e)
    decreases es
  {
    hide Step, Legal;
    if es == [] {
      assert es + [e] == [e] && [e][1..] == [];
    } else {
      assert (es + [e])[1..] == es[1..] + [e];
      RunMore(Step(s, es[0]), es[1..], e);
    }
  }

  /** n requests with tokens 1, 2, ..., each with a copy. */
  function Requests(n: nat): seq<Event> {
    if n == 0 then [] else Requests(n - 1) + [Request(n, 1, true)]
  }

  /** The first 64 of them are filed. */
  lemma {:induction false} RequestsFiled(n: nat)
    requires n <= MAX_PENDING
    ensures LegalRun(Start, Requests(n))
    ensures var s := Run(Start, Requests(n));
      Inv(s) && s.blocks == n + 1 && |Tracked(s)| == n && forall t :: t in s.flights ==> 1 <= t <= n
  {
    hide Inv, Tokens, Tracked, Put;
    if n == 0 {
      StartInv();
      StartEmpty();
    } else {
      RequestsFiled(n - 1);
      var s, e := Run(Start, Requests(n - 1)), Request(n, 1, true);
      RunMore(Start, Requests(n - 1), e);
      StepKeeps(s, e);
      TrackedAfter(s, e);
      TrackedFlies(s, n);
    }
  }

  lemma StartEmpty()
    ensures Tracked(Start) == {}
  {
    assert forall t :: t !in Tracked(Start);
  }

  lemma TrackedFlies(s: Shim, t: nat)
    requires Inv(s) && t !in s.flights
    ensures t !in Tracked(s)
  {
  }

  /** The 65th is not, and its copy is a stray: 65 requests that the vendor library has not answered are enough. */
  lemma SixtyFiveRequests()
    ensures LegalRun(Start, Requests(65)) && Stray(Run(Start, Requests(65)), 65)
  {
    hide Inv, Tokens, Tracked, Put, Stray, Step, Run, LegalRun;
    RequestsFiled(64);
    var s, e := Run(Start, Requests(64)), Request(65, 1, true);
    RunMore(Start, Requests(64), e);
    OverflowStrays(s, e);
    assert Requests(65) == Requests(64) + [e];
  }
}
