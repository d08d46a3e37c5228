/** Sequences with one element put in or taken out, and the size of a subset. */
module Seqs {

  function Inserted<T>(s: seq<T>, k: nat, x: T): (t: seq<T>)
    requires k <= |s|
    ensures |t| == |s| + 1 && t[k] == x
    ensures forall i :: 0 <= i < k ==> t[i] == s[i]
    ensures forall i :: k < i < |t| ==> t[i] == s[i - 1]
  {
    seq(|s| + 1, i requires 0 <= i <= |s| => if i < k then s[i] else if i == k then x else s[i - 1])
  }

  function Removed<T>(s: seq<T>, k: nat): (t: seq<T>)
    requires k < |s|
    ensures |t| == |s| - 1
    ensures forall i :: 0 <= i < k ==> t[i] == s[i]
    ensures forall i :: k <= i < |t| ==> t[i] == s[i + 1]
  {
    seq(|s| - 1, i requires 0 <= i < |s| - 1 => if i < k then s[i] else s[i + 1])
  }

  lemma InsertedIsSplice<T>(s: seq<T>, k: nat, x: T)
    requires k <= |s|
    ensures Inserted(s, k, x) == s[..k] + [x] + s[k..]
  {
  }

  lemma RemovedIsSplice<T>(s: seq<T>, k: nat)
    requires k < |s|
    ensures Removed(s, k) == s[..k] + s[k + 1..]
  {
  }

  lemma InsertedIn<T>(s: seq<T>, k: nat, x: T)
    requires k <= |s|
    ensures forall e :: e in Inserted(s, k, x) <==> e == x || e in s
  {
    InsertedIsSplice(s, k, x);
    assert s == s[..k] + s[k..];
  }

  lemma RemovedIn<T>(s: seq<T>, k: nat)
    requires k < |s| && Apart(s, |s|)
    ensures forall e :: e in Removed(s, k) <==> e != s[k] && e in s
  {
    ApartAt(s, k);
    RemovedIsSplice(s, k);
    assert s == s[..k] + [s[k]] + s[k + 1..];
  }

  /** The first n elements of s differ from each other. */
  ghost predicate Apart<T>(s: seq<T>, n: nat)
    requires n <= |s|
  {
    n == 0 || (Apart(s, n - 1) && forall j :: 0 <= j < n - 1 ==> s[j] != s[n - 1])
  }

  lemma {:induction false} ApartIff<T>(s: seq<T>, n: nat)
    requires n <= |s|
    ensures Apart(s, n) <==> forall i, j :: 0 <= i < j < n ==> s[i] != s[j]
  {
    if n > 0 { ApartIff(s, n - 1); }
  }

  lemma ApartAt<T>(s: seq<T>, k: nat)
    requires k < |s| && Apart(s, |s|)
    ensures forall i :: 0 <= i < |s| && i != k ==> s[i] != s[k]
  {
    ApartIff(s, |s|);
  }

  lemma ApartInsert<T>(s: seq<T>, k: nat, x: T)
    requires k <= |s| && Apart(s, |s|) && x !in s
    ensures Apart(Inserted(s, k, x), |s| + 1)
  {
    var t := Inserted(s, k, x);
    ApartIff(s, |s|);
    ApartIff(t, |t|);
  }

  lemma ApartRemove<T>(s: seq<T>, k: nat)
    requires k < |s| && Apart(s, |s|)
    ensures Apart(Removed(s, k), |s| - 1)
  {
    var t := Removed(s, k);
    ApartIff(s, |s|);
    ApartIff(t, |t|);
  }

  lemma SubsetSize<T>(a: set<T>, b: set<T>)
    requires a <= b
    ensures |a| <= |b|
  {
    assert b == a + (b - a);
  }

  lemma OnlyMember<T>(s: set<T>, t: T)
    requires t in s && |s| <= 1
    ensures s == {t}
  {
    assert |s - {t}| == |s| - 1;
  }
}
