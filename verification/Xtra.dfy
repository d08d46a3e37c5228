/** The injection of predicted-orbit (XTRA) data into the GPS engine, block by block and with retries. */
module Xtra {

  const EIO := 5
  const TRIES := 3

  /** One request to the engine: its number and the bytes it carries. */
  datatype Block = Block(part: nat, bytes: seq<int>)

  /** The length divided into blocks of 1024 bytes; C division makes it 1 for no data at all. */
  function TotalParts(length: nat): (n: nat)
    ensures 1 <= n && length <= 1024 * n && (length > 0 ==> 1024 * (n - 1) < length)
  {
    if length == 0 then 1 else (length - 1) / 1024 + 1
  }

  /** The part number is a byte, and there are no more parts than it can count. */
  predicate Countable(length: nat) {
    TotalParts(length) <= 255
  }

  /** The number of block i, counted from 1 in a byte. */
  function PartAt(i: nat): nat {
    (i + 1) % 256
  }

  /** The loop can come to block i. */
  predicate Reachable(length: nat, i: nat) {
    i < TotalParts(length) || !Countable(length)
  }

  /** Where block i (counted from 0) starts: the running length is a 16-bit field. */
  function Offset(i: nat): nat {
    (1024 * i) % 65536
  }

  lemma OffsetSmall(i: nat)
    requires i < 64
    ensures Offset(i) == 1024 * i
  {
  }

  lemma OffsetNext(i: nat)
    ensures Offset(i + 1) == (Offset(i) + 1024) % 65536
  {
  }

  function BytesOf(data: seq<int>, i: nat): (b: seq<int>)
    requires Reachable(|data|, i)
    ensures |b| <= 1024 && (Reachable(|data|, i + 1) ==> |b| == 1024)
  {
    OffsetBelow(|data|, i);
    var off := Offset(i);
    if 1024 > |data| - off then data[off..] else data[off..off + 1024]
  }

  lemma OffsetBelow(length: nat, i: nat)
    requires Reachable(length, i)
    ensures Offset(i) <= length
    ensures Reachable(length, i + 1) ==> Offset(i) + 1024 <= length
  {
    if length <= 65536 {
      assert length < 65536 || i <= 63;
      assert 1024 * i < 65536;
    }
  }

  function BlockAt(data: seq<int>, i: nat): Block
    requires Reachable(|data|, i)
  {
    Block(PartAt(i), BytesOf(data, i))
  }

  /** The first n blocks. */
  function Blocks(data: seq<int>, n: nat): (p: seq<Block>)
    requires n <= TotalParts(|data|) || !Countable(|data|)
    ensures |p| == n
  {
    seq(n, i requires 0 <= i < n => BlockAt(data, i))
  }

  /** The blocks of a whole injection. */
  function Plan(data: seq<int>): (p: seq<Block>)
    ensures |p| == TotalParts(|data|)
  {
    Blocks(data, TotalParts(|data|))
  }

  /** They are numbered from 1 if a byte can count them. */
  lemma PlanNumbered(data: seq<int>, i: nat)
    requires Countable(|data|) && i < |Plan(data)|
    ensures Plan(data)[i].part == i + 1
  {
  }

  /** The bytes of the first k blocks run together. */
  function Joined(data: seq<int>, k: nat): seq<int>
    requires k <= TotalParts(|data|)
  {
    if k == 0 then [] else Joined(data, k - 1) + Plan(data)[k - 1].bytes
  }

  /** Up to 65536 bytes the offsets do not wrap. */
  lemma BytesSmall(data: seq<int>, i: nat)
    requires |data| <= 65536 && i < TotalParts(|data|)
    ensures 1024 * i <= |data| && (i + 1 < TotalParts(|data|) ==> 1024 * i + 1024 <= |data|)
    ensures BytesOf(data, i) ==
      if i + 1 < TotalParts(|data|) then data[1024 * i..1024 * i + 1024] else data[1024 * i..]
  {
    assert TotalParts(|data|) <= 64;
    OffsetSmall(i);
  }

  lemma JoinedNext(data: seq<int>, k: nat)
    requires k <= TotalParts(|data|)
    ensures Joined(data, k) == if k == 0 then [] else Joined(data, k - 1) + BytesOf(data, k - 1)
  {
    hide Offset, TotalParts, BytesOf;
  }

  lemma SlicesJoin(data: seq<int>, a: nat, b: nat)
    requires a <= b <= |data|
    ensures data[..a] + data[a..b] == data[..b] && data[..|data|] == data && data[a..|data|] == data[a..]
  {
  }

  lemma {:induction false} JoinedIsPrefix(data: seq<int>, k: nat)
    requires k <= TotalParts(|data|) && |data| <= 65536
    ensures k < TotalParts(|data|) ==> 1024 * k <= |data|
    ensures Joined(data, k) == if k < TotalParts(|data|) then data[..1024 * k] else data
  {
    hide Offset, TotalParts, BytesOf, Joined, Plan;
    JoinedNext(data, k);
    if k > 0 {
      var off := 1024 * (k - 1);
      JoinedIsPrefix(data, k - 1);
      BytesSmall(data, k - 1);
      SlicesJoin(data, off, if k < TotalParts(|data|) then off + 1024 else |data|);
    }
  }

  lemma {:induction false} JoinedLength(data: seq<int>, k: nat)
    requires k < TotalParts(|data|)
    ensures |Joined(data, k)| == 1024 * k
  {
    if k > 0 { JoinedLength(data, k - 1); }
  }

  /** Up to 65536 bytes the blocks make up the data. */
  lemma PlanCovers(data: seq<int>)
    requires |data| <= 65536
    ensures Joined(data, TotalParts(|data|)) == data
  {
    JoinedIsPrefix(data, TotalParts(|data|));
  }

  /** Data whose first 65536 bytes differ from the rest. */
  function Marked(length: nat): seq<int> {
    seq(length, i => if i < 65536 then 0 else 1)
  }

  lemma {:induction false} JoinedKeeps(data: seq<int>, k: nat, n: nat)
    requires k <= n <= TotalParts(|data|)
    ensures Joined(data, k) <= Joined(data, n)
  {
    hide TotalParts, BytesOf, Plan;
    if k < n { JoinedKeeps(data, k, n - 1); }
  }

  /** Past 65536 bytes the offset starts again at 0, and block 65 repeats the first one. */
  lemma MarkedLost(length: nat)
    requires length > 65536
    ensures Joined(Marked(length), TotalParts(length)) != Marked(length)
  {
    var data := Marked(length);
    assert TotalParts(length) >= 65;
    JoinedLength(data, 64);
    OffsetBelow(length, 64);
    assert Offset(64) == 0;
    assert BytesOf(data, 64) == data[0..1024];
    assert Joined(data, 65) == Joined(data, 64) + data[0..1024];
    assert Joined(data, 65)[65536] == data[0] == 0;
    JoinedKeeps(data, 65, TotalParts(length));
    assert data[65536] == 1;
  }

  /** The bound is tight: all data of a length is sent as it is if and only if the length is at most 65536. */
  lemma CoversIff(length: nat)
    ensures (forall data: seq<int> :: |data| == length ==> Joined(data, TotalParts(length)) == data)
            <==> length <= 65536
  {
    if length <= 65536 {
      forall data: seq<int> | |data| == length
        ensures Joined(data, TotalParts(length)) == data
      {
        PlanCovers(data);
      }
    } else {
      MarkedLost(length);
      assert |Marked(length)| == length;
    }
  }

  // ----------------------------------------------------------------- one try

  /** The calls succeed as outcome says; all of n calls from call k on do. */
  ghost predicate AllSucceed(outcome: nat -> bool, k: nat, n: nat) {
    forall i :: k <= i < k + n ==> outcome(i)
  }

  /** After block i of a try the loop goes on: it is not the last part, and the engine has taken it. */
  predicate GoesOn(length: nat, outcome: nat -> bool, k: nat, i: nat) {
    PartAt(i) < TotalParts(length) && outcome(k + i)
  }

  /** The try that starts with call k ends with block n. */
  ghost predicate EndsAt(length: nat, outcome: nat -> bool, k: nat, n: nat) {
    !GoesOn(length, outcome, k, n) && forall i :: 0 <= i < n ==> GoesOn(length, outcome, k, i)
  }

  ghost predicate Refused(outcome: nat -> bool, k: nat, i: nat) {
    !outcome(k + i)
  }

  lemma FirstStop(length: nat, outcome: nat -> bool, k: nat, from: nat, bound: nat) returns (n: nat)
    requires from <= bound && !GoesOn(length, outcome, k, bound)
    requires forall i :: 0 <= i < from ==> GoesOn(length, outcome, k, i)
    ensures EndsAt(length, outcome, k, n)
    decreases bound - from
  {
    n := from;
    if GoesOn(length, outcome, k, from) { n := FirstStop(length, outcome, k, from + 1, bound); }
  }

  /** A try ends if and only if a byte can count its parts or the engine refuses one of them. */
  lemma EndsIff(length: nat, outcome: nat -> bool, k: nat)
    ensures (exists n :: EndsAt(length, outcome, k, n)) <==>
            Countable(length) || exists i :: Refused(outcome, k, i)
  {
    if Countable(length) {
      var _ := FirstStop(length, outcome, k, 0, TotalParts(length) - 1);
    } else {
      if i :| Refused(outcome, k, i) {
        var _ := FirstStop(length, outcome, k, 0, i);
      }
      if n :| EndsAt(length, outcome, k, n) {
        assert Refused(outcome, k, n);
      }
    }
  }

  /** Where a try ends: at its last part, or at the first one that is refused. */
  lemma EndBlock(length: nat, outcome: nat -> bool, k: nat, n: nat)
    requires EndsAt(length, outcome, k, n)
    ensures Reachable(length, n) && AllSucceed(outcome, k, n)
    ensures outcome(k + n) ==> n + 1 == TotalParts(length)
  {
    hide TotalParts;
    forall i | k <= i < k + n
      ensures outcome(i)
    {
      assert GoesOn(length, outcome, k, i - k);
    }
    if Countable(length) {
      assert !GoesOn(length, outcome, k, TotalParts(length) - 1);
    }
  }

  lemma TryStart(data: seq<int>)
    ensures Offset(0) == 0 && PartAt(0) == 1 && Blocks(data, 0) == []
  {
  }

  lemma NextBlock(data: seq<int>, i: nat)
    requires Reachable(|data|, i)
    ensures var off := Offset(i);
      var len := if 1024 > |data| - off then |data| - off else 1024;
      0 <= len && off + len <= |data| && BytesOf(data, i) == data[off..off + len]
    ensures Blocks(data, i + 1) == Blocks(data, i) + [BlockAt(data, i)]
  {
    hide Offset, TotalParts, PartAt;
    OffsetBelow(|data|, i);
  }

  /** qct_loc_eng_inject_xtra_data_one, for every try that ends; k is the number of engine calls made before. */
  method InjectOne(data: seq<int>, outcome: nat -> bool, k: nat) returns (rc: int, sent: seq<Block>)
    requires exists n :: EndsAt(|data|, outcome, k, n)
    ensures 1 <= |sent| && EndsAt(|data|, outcome, k, |sent| - 1) && Reachable(|data|, |sent| - 1)
    ensures sent == Blocks(data, |sent|) && rc == if outcome(k + |sent| - 1) then 0 else EIO
  {
    hide Offset, TotalParts, PartAt, BytesOf, Blocks;
    var length := |data|;
    var totalParts := TotalParts(length);
    TryStart(data);
    ghost var end: nat :| EndsAt(length, outcome, k, end);
    EndBlock(length, outcome, k, end);
    ghost var i: nat := 0;
    var part, lenInjected := 1, 0;
    rc, sent := 0, [];
    while part <= totalParts
      invariant i <= end && |sent| == i && part == PartAt(i) <= totalParts && lenInjected == Offset(i)
      invariant rc == 0 && sent == Blocks(data, i)
      decreases end - i
    {
      OffsetBelow(length, i);
      OffsetNext(i);
      var partLen := 1024;
      if 1024 > length - lenInjected {
        partLen := length - lenInjected;
      }
      var block := Block(part, data[lenInjected..lenInjected + partLen]);
      NextBlock(data, i);
      var accepted := outcome(k + |sent|);
      sent := sent + [block];
      if part < totalParts {
        if !accepted {
          rc := EIO;
          break;
        }
      } else {
        if !accepted {
          rc := EIO;
        }
        break;
      }
      assert GoesOn(length, outcome, k, i);
      PartNext(length, i);
      i := i + 1;
      lenInjected := (lenInjected + partLen) % 65536;
      part := (part + 1) % 256;
    }
  }

  lemma PartNext(length: nat, i: nat)
    requires Reachable(length, i) && PartAt(i) < TotalParts(length)
    ensures PartAt(i + 1) == (PartAt(i) + 1) % 256 <= TotalParts(length)
  {
  }

  /** What a try means for data whose parts a byte can count: it sends a prefix of the blocks, up to the first
      refusal, and succeeds if and only if all are accepted. */
  lemma TryMeans(data: seq<int>, outcome: nat -> bool, k: nat, n: nat)
    requires EndsAt(|data|, outcome, k, n) && Countable(|data|)
    ensures n < TotalParts(|data|) && Blocks(data, n + 1) <= Plan(data) && AllSucceed(outcome, k, n)
    ensures outcome(k + n) <==> Blocks(data, n + 1) == Plan(data) && AllSucceed(outcome, k, |Plan(data)|)
    ensures !outcome(k + n) ==> !AllSucceed(outcome, k, |Plan(data)|)
  {
    hide TotalParts, BytesOf;
    EndBlock(|data|, outcome, k, n);
  }

  // ------------------------------------------------------------------ retries

  /** The next m tries, of which the first starts with call k, end as far as they are made. */
  ghost predicate TriesEnd(length: nat, outcome: nat -> bool, k: nat, m: nat)
    decreases m
  {
    m == 0 ||
    exists n :: EndsAt(length, outcome, k, n) && (outcome(k + n) || TriesEnd(length, outcome, k + n + 1, m - 1))
  }

  /** With at most 255 parts every try ends. */
  lemma {:induction false} CountableEnds(length: nat, outcome: nat -> bool, k: nat, m: nat)
    requires Countable(length)
    ensures TriesEnd(length, outcome, k, m)
    decreases m
  {
    hide TotalParts;
    if m > 0 {
      EndsIff(length, outcome, k);
      var n :| EndsAt(length, outcome, k, n);
      CountableEnds(length, outcome, k + n + 1, m - 1);
    }
  }

  /** The engine refuses at least m calls from call k on. */
  ghost predicate Refusals(outcome: nat -> bool, k: nat, m: nat)
    decreases m
  {
    m == 0 || exists i :: Refused(outcome, k, i) && Refusals(outcome, k + i + 1, m - 1)
  }

  /** With more parts the tries end if and only if the engine refuses a call for each. */
  lemma {:induction false} UncountableEndsIff(length: nat, outcome: nat -> bool, k: nat, m: nat)
    requires !Countable(length)
    ensures TriesEnd(length, outcome, k, m) <==> Refusals(outcome, k, m)
    decreases m
  {
    hide TotalParts, EndsAt;
    if m > 0 {
      if n :| EndsAt(length, outcome, k, n) && (outcome(k + n) || TriesEnd(length, outcome, k + n + 1, m - 1)) {
        UncountableFails(length, outcome, k, n);
        UncountableEndsIff(length, outcome, k + n + 1, m - 1);
        assert Refused(outcome, k, n);
      }
      if i :| Refused(outcome, k, i) && Refusals(outcome, k + i + 1, m - 1) {
        EndsIff(length, outcome, k);
        var n :| EndsAt(length, outcome, k, n);
        EndsBefore(length, outcome, k, n, i);
        LaterRefusals(outcome, k, n, i, m - 1);
        UncountableEndsIff(length, outcome, k + n + 1, m - 1);
      }
    }
  }

  lemma EndsBefore(length: nat, outcome: nat -> bool, k: nat, n: nat, i: nat)
    requires EndsAt(length, outcome, k, n) && Refused(outcome, k, i)
    ensures n <= i
  {
    hide TotalParts, PartAt;
    assert i < n ==> GoesOn(length, outcome, k, i);
  }

  /** Refusals after call k + i come after call k + n as well. */
  lemma LaterRefusals(outcome: nat -> bool, k: nat, n: nat, i: nat, m: nat)
    requires n <= i && Refusals(outcome, k + i + 1, m)
    ensures Refusals(outcome, k + n + 1, m)
  {
    if m > 0 {
      var j :| Refused(outcome, k + i + 1, j) && Refusals(outcome, k + i + 1 + j + 1, m - 1);
      assert Refused(outcome, k + n + 1, i - n + j);
      assert k + n + 1 + (i - n + j) + 1 == k + i + 1 + j + 1;
    }
  }

  /** A try with more parts than a byte can count ends with a refusal. */
  lemma UncountableFails(length: nat, outcome: nat -> bool, k: nat, n: nat)
    requires EndsAt(length, outcome, k, n) && !Countable(length)
    ensures !outcome(k + n)
  {
  }

  /** What the tries have sent: blocks from the first one on, up to the end of each try. */
  ghost predicate Logged(data: seq<int>, outcome: nat -> bool, starts: seq<nat>, log: seq<seq<Block>>) {
    && |starts| == |log| && (log != [] ==> starts[0] == 0)
    && (forall i :: 0 < i < |log| ==> starts[i] == starts[i - 1] + |log[i - 1]|)
    && forall i :: 0 <= i < |log| ==>
         && 1 <= |log[i]| && EndsAt(|data|, outcome, starts[i], |log[i]| - 1)
         && Reachable(|data|, |log[i]| - 1) && log[i] == Blocks(data, |log[i]|)
  }

  /** The try that starts with call k gets every block accepted. */
  ghost predicate Succeeds(data: seq<int>, outcome: nat -> bool, k: nat) {
    Countable(|data|) && AllSucceed(outcome, k, |Plan(data)|)
  }

  lemma SucceedsIff(data: seq<int>, outcome: nat -> bool, k: nat, n: nat)
    requires EndsAt(|data|, outcome, k, n) && Reachable(|data|, n)
    ensures outcome(k + n) <==> Succeeds(data, outcome, k)
    ensures Succeeds(data, outcome, k) ==> Blocks(data, n + 1) == Plan(data)
  {
    hide TotalParts, Plan, Blocks, EndsAt;
    if Countable(|data|) {
      TryMeans(data, outcome, k, n);
    } else {
      UncountableFails(|data|, outcome, k, n);
    }
  }

  lemma NextTries(length: nat, outcome: nat -> bool, k: nat, m: nat, n: nat)
    requires TriesEnd(length, outcome, k, m + 1) && EndsAt(length, outcome, k, n)
    ensures outcome(k + n) || TriesEnd(length, outcome, k + n + 1, m)
  {
    hide TotalParts, PartAt, GoesOn;
    var e: nat :| EndsAt(length, outcome, k, e) && (outcome(k + e) || TriesEnd(length, outcome, k + e + 1, m));
    assert e < n ==> GoesOn(length, outcome, k, e);
    assert n < e ==> GoesOn(length, outcome, k, n);
  }

  lemma NothingLogged(data: seq<int>, outcome: nat -> bool)
    ensures Logged(data, outcome, [], [])
  {
  }

  lemma LoggedNext(data: seq<int>, outcome: nat -> bool, starts: seq<nat>, log: seq<seq<Block>>, sent: seq<Block>,
                   k: nat)
    requires Logged(data, outcome, starts, log)
    requires k == if log == [] then 0 else starts[|log| - 1] + |log[|log| - 1]|
    requires 1 <= |sent| && EndsAt(|data|, outcome, k, |sent| - 1) && Reachable(|data|, |sent| - 1)
    requires sent == Blocks(data, |sent|)
    ensures Logged(data, outcome, starts + [k], log + [sent])
  {
    hide TotalParts, Blocks, EndsAt;
  }

  /** qct_loc_eng_inject_xtra_data: at most three tries, each from the first block on. It succeeds if and only
      if a try gets every block accepted, and no try is made after that one. */
  method Inject(data: seq<int>, outcome: nat -> bool) returns (rc: int, log: seq<seq<Block>>, ghost starts: seq<nat>)
    requires TriesEnd(|data|, outcome, 0, TRIES)
    ensures 1 <= |log| <= 3 && Logged(data, outcome, starts, log)
    ensures forall i :: 0 <= i < |log| - 1 ==> !Succeeds(data, outcome, starts[i])
    ensures rc == 0 <==> Succeeds(data, outcome, starts[|log| - 1])
    ensures rc == 0 ==> log[|log| - 1] == Plan(data)
    ensures rc != 0 ==> rc == 5 && |log| == 3
  {
    hide TotalParts, Plan, Blocks, EndsAt, Logged, Succeeds;
    rc, log, starts := EIO, [], [];
    NothingLogged(data, outcome);
    var tries, k: nat := 0, 0;
    while tries < TRIES
      invariant 0 <= tries <= TRIES && |log| == tries && rc == EIO && Logged(data, outcome, starts, log)
      invariant |starts| == tries && k == if tries == 0 then 0 else starts[tries - 1] + |log[tries - 1]|
      invariant forall i :: 0 <= i < |log| ==> !Succeeds(data, outcome, starts[i])
      invariant TriesEnd(|data|, outcome, k, TRIES - tries)
    {
      tries := tries + 1;
      var sent;
      rc, sent := InjectOne(data, outcome, k);
      NextTries(|data|, outcome, k, TRIES - tries, |sent| - 1);
      SucceedsIff(data, outcome, k, |sent| - 1);
      LoggedNext(data, outcome, starts, log, sent, k);
      log, starts := log + [sent], starts + [k];
      k := k + |sent|;
      if rc == 0 { break; }
    }
  }
}
