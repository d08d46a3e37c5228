/** The RIL shim's table of requests waiting for their completion, keyed by token. */
module TokenTable {

  const MAX_PENDING := 64
  const NULL := 0  // tokens and heap blocks are addresses

  datatype Slot = Slot(t: nat, request: int, owned: nat)

  type Table = seq<Slot>

  /** The first slot that carries token t, or the length of the table; t == NULL looks for an empty slot. */
  function Find(s: Table, t: nat): (k: nat)
    ensures k <= |s| && (k < |s| ==> s[k].t == t)
    ensures forall i :: 0 <= i < k ==> s[i].t != t
  {
    if s == [] || s[0].t == t then 0 else 1 + Find(s[1..], t)
  }

  function Put(s: Table, t: nat, request: int, owned: nat): (r: Table)
  {
    var k := Find(s, NULL);
    if k < |s| then s[k := Slot(t, request, owned)] else s
  }

  function Drop(s: Table, t: nat): (r: Table)
  {
    var k := Find(s, t);
    if k < |s| then s[k := s[k].(t := NULL)] else s
  }

  function RequestOf(s: Table, t: nat): int {
    var k := Find(s, t);
    if k < |s| then s[k].request else -1
  }

  function OwnedOf(s: Table, t: nat): nat {
    var k := Find(s, t);
    if k < |s| then s[k].owned else NULL
  }

  /** No token is in the table twice. */
  ghost predicate Distinct(s: Table) {
    forall i, j :: 0 <= i < j < |s| && s[i].t != NULL ==> s[i].t != s[j].t
  }

  ghost predicate Carries(s: Table, n: nat, t: nat)
    requires n <= |s|
  {
    t != NULL && exists i :: 0 <= i < n && s[i].t == t
  }

  ghost predicate Full(s: Table, n: nat)
    requires n <= |s|
  {
    forall i :: 0 <= i < n ==> s[i].t != NULL
  }

  /** The tokens in the first n slots. */
  ghost function Tokens(s: Table, n: nat): (ts: set<nat>)
    requires n <= |s|
    ensures forall t :: t in ts <==> Carries(s, n, t)
  {
    if n == 0 then {} else
      var rest := Tokens(s, n - 1);
      if s[n - 1].t == NULL then rest else rest + {s[n - 1].t}
  }

  lemma NotBefore(s: Table, n: nat)
    requires n < |s| && Distinct(s)
    ensures s[n].t !in Tokens(s, n)
  {
    hide Tokens;
  }

  /** A table of distinct tokens has room exactly while it holds fewer tokens than slots. */
  lemma {:induction false} TokensFill(s: Table, n: nat)
    requires n <= |s| && Distinct(s)
    ensures |Tokens(s, n)| <= n
    ensures |Tokens(s, n)| == n <==> Full(s, n)
  {
    hide Distinct, Carries;
    if n > 0 {
      var t := s[n - 1].t;
      TokensFill(s, n - 1);
      NotBefore(s, n - 1);
      if t != NULL {
        assert |Tokens(s, n)| == |Tokens(s, n - 1) + {t}| == |Tokens(s, n - 1)| + 1;
      }
    }
  }

  lemma RoomIff(s: Table)
    requires Distinct(s)
    ensures Find(s, NULL) < |s| <==> |Tokens(s, |s|)| < |s|
  {
    TokensFill(s, |s|);
  }

  lemma PutTokens(s: Table, t: nat, request: int, owned: nat)
    requires Distinct(s) && t != NULL && t !in Tokens(s, |s|) && Find(s, NULL) < |s|
    ensures var r := Put(s, t, request, owned);
      Distinct(r) && |r| == |s| && Tokens(r, |r|) == Tokens(s, |s|) + {t}
  {
    hide Tokens, Find;
    var r := Put(s, t, request, owned);
    var k := Find(s, NULL);
    assert r[k].t == t;
    forall u | u in Tokens(s, |s|)
      ensures u in Tokens(r, |r|)
    {
      var i :| 0 <= i < |s| && s[i].t == u;
      assert r[i] == s[i];
    }
  }

  lemma DropTokens(s: Table, t: nat)
    requires Distinct(s) && t != NULL
    ensures var r := Drop(s, t); Distinct(r) && |r| == |s| && Tokens(r, |r|) == Tokens(s, |s|) - {t}
  {
    hide Tokens, Find;
    var r := Drop(s, t);
    forall u | u in Tokens(s, |s|) && u != t
      ensures u in Tokens(r, |r|)
    {
      var i :| 0 <= i < |s| && s[i].t == u;
      assert r[i] == s[i];
    }
  }

  /** What is put in under a token is what is taken out, and taking it out frees the slot for reuse. */
  lemma PutTake(s: Table, t: nat, request: int, owned: nat, u: nat)
    requires Distinct(s) && t != NULL && t !in Tokens(s, |s|) && Find(s, NULL) < |s|
    ensures var r := Put(s, t, request, owned);
      && RequestOf(r, t) == request && OwnedOf(r, t) == owned
      && (u != t && u != NULL ==> RequestOf(r, u) == RequestOf(s, u) && OwnedOf(r, u) == OwnedOf(s, u))
  {
    hide Tokens, Find;
    var r := Put(s, t, request, owned);
    var k := Find(s, NULL);
    assert Find(r, t) == k by {
      assert r[k].t == t;
    }
    if u != t && u != NULL {
      SameFind(s, r, k, u);
    }
  }

  lemma DropOthers(s: Table, t: nat, u: nat)
    requires u != t && u != NULL
    ensures RequestOf(Drop(s, t), u) == RequestOf(s, u) && OwnedOf(Drop(s, t), u) == OwnedOf(s, u)
  {
    var k := Find(s, t);
    if k < |s| { SameFind(s, Drop(s, t), k, u); }
  }

  /** Changing one slot that does not carry u, before or after, does not move u. */
  lemma SameFind(s: Table, r: Table, k: nat, u: nat)
    requires |r| == |s| && k < |s| && s[k].t != u && r[k].t != u
    requires forall i :: 0 <= i < |s| && i != k ==> r[i] == s[i]
    ensures Find(r, u) == Find(s, u)
  {
    var a, b := Find(s, u), Find(r, u);
    if a < |s| { assert r[a] == s[a]; }
    if b < |s| { assert r[b] == s[b]; }
  }

  /** A NULL token would be matched by an empty slot and hand out the copy of a finished request again. */
  lemma NullTakesStale(s: Table, t: nat, request: int, owned: nat)
    requires t != NULL && Find(s, NULL) < |s| && Find(s, t) == |s|
    ensures OwnedOf(Drop(Put(s, t, request, owned), t), NULL) == owned
  {
    hide Find;
    var k, r := Find(s, NULL), Put(s, t, request, owned);
    assert r[k].t == t && Find(r, t) == k;
    assert Drop(r, t)[k].t == NULL;
    assert forall i :: 0 <= i < k ==> Drop(r, t)[i] == s[i];
  }

  class Pending {
    const slots: array<Slot>

    constructor ()
      ensures fresh(slots) && slots.Length == MAX_PENDING
      ensures forall i :: 0 <= i < slots.Length ==> slots[i].t == NULL
    {
      slots := new Slot[MAX_PENDING](_ => Slot(NULL, 0, NULL));
    }

    /** pendingAdd: a full table leaves the token untracked. */
    method Add(t: nat, request: int, owned: nat)
      modifies slots
      ensures slots[..] == Put(old(slots[..]), t, request, owned)
    {
      for i := 0 to slots.Length
        invariant slots[..] == old(slots[..])
        invariant forall j :: 0 <= j < i ==> slots[j].t != NULL
      {
        if slots[i].t == NULL {
          slots[i] := Slot(t, request, owned);
          return;
        }
      }
    }

    /** pendingTake: the request and the owned copy filed under t, or -1 and no copy. */
    method Take(t: nat) returns (request: int, owned: nat)
      modifies slots
      ensures slots[..] == Drop(old(slots[..]), t)
      ensures request == RequestOf(old(slots[..]), t) && owned == OwnedOf(old(slots[..]), t)
    {
      request, owned := -1, NULL;
      for i := 0 to slots.Length
        invariant slots[..] == old(slots[..]) && request == -1 && owned == NULL
        invariant forall j :: 0 <= j < i ==> slots[j].t != t
      {
        if slots[i].t == t {
          request, owned := slots[i].request, slots[i].owned;
          slots[i] := slots[i].(t := NULL);
          return;
        }
      }
    }
  }
}
