/** Sequences: taking out, putting in, reversing and filtering. */
module Seqs {

  /** s without its k-th element. */
  function Without<X>(s: seq<X>, k: nat): (r: seq<X>)
    requires k < |s|
  {
    s[..k] + s[k + 1..]
  }

  /** s with x put in front of its k-th element. */
  function InsertAt<X>(s: seq<X>, k: nat, x: X): (r: seq<X>)
    requires k <= |s|
  {
    s[..k] + [x] + s[k..]
  }

  /** The first element that satisfies the predicate, or the end. */
  function Position<T>(s: seq<T>, p: T -> bool): (i: nat)
    ensures i <= |s| && (i < |s| ==> p(s[i])) && forall j :: 0 <= j < i ==> !p(s[j])
  {
    if s == [] || p(s[0]) then 0 else 1 + Position(s[1..], p)
  }

  /** Looking for an element, one after the other. */
  method Search<T>(s: seq<T>, p: T -> bool) returns (i: nat)
    ensures i == Position(s, p)
  {
    i := 0;
    while i < |s| && !p(s[i])
      invariant i <= |s| && Position(s, p) == i + Position(s[i..], p)
    {
      assert s[i..][1..] == s[i + 1..];
      i := i + 1;
    }
  }

  /** The elements that satisfy the predicate, in order. */
  function Filter<T>(s: seq<T>, keep: T -> bool): seq<T> {
    if s == [] then []
    else Filter(s[..|s| - 1], keep) + if keep(s[|s| - 1]) then [s[|s| - 1]] else []
  }

  function Reversed<T>(s: seq<T>): (r: seq<T>)
    ensures |r| == |s| && forall i :: 0 <= i < |s| ==> r[i] == s[|s| - 1 - i]
  {
    seq(|s|, i requires 0 <= i < |s| => s[|s| - 1 - i])
  }

  lemma {:induction false} FilterSnoc<T>(s: seq<T>, x: T, keep: T -> bool)
    ensures Filter(s + [x], keep) == if keep(x) then Filter(s, keep) + [x] else Filter(s, keep)
  {
    assert (s + [x])[..|s|] == s;
  }

  lemma ReversedConcat<R>(a: seq<R>, b: seq<R>)
    ensures Reversed(a + b) == Reversed(b) + Reversed(a)
  {
  }

  lemma {:induction false} FilterNext<T>(s: seq<T>, n: nat, keep: T -> bool)
    requires n < |s|
    ensures Filter(s[..n + 1], keep) == if keep(s[n]) then Filter(s[..n], keep) + [s[n]] else Filter(s[..n], keep)
  {
    assert s[..n + 1] == s[..n] + [s[n]];
    FilterSnoc(s[..n], s[n], keep);
  }

  lemma {:induction false} FilterWithin<T>(s: seq<T>, keep: T -> bool)
    ensures forall i :: 0 <= i < |Filter(s, keep)| ==> Filter(s, keep)[i] in s && keep(Filter(s, keep)[i])
  {
    if s != [] {
      FilterWithin(s[..|s| - 1], keep);
    }
  }

  lemma {:induction false} FilterTwice<T>(s: seq<T>, p: T -> bool, q: T -> bool, both: T -> bool)
    requires forall i :: 0 <= i < |s| ==> both(s[i]) == (p(s[i]) && q(s[i]))
    ensures Filter(Filter(s, p), q) == Filter(s, both)
  {
    if s != [] {
      var n := |s| - 1;
      FilterTwice(s[..n], p, q, both);
      assert s == s[..n] + [s[n]];
      FilterSnoc(s[..n], s[n], p);
      FilterSnoc(s[..n], s[n], both);
      FilterSnoc(Filter(s[..n], p), s[n], q);
    }
  }

  lemma {:induction false} FilterSame<T>(s: seq<T>, p: T -> bool, q: T -> bool)
    requires forall i :: 0 <= i < |s| ==> p(s[i]) == q(s[i])
    ensures Filter(s, p) == Filter(s, q)
  {
    if s != [] {
      FilterSame(s[..|s| - 1], p, q);
    }
  }

  lemma {:induction false} FilterDistinct<T>(s: seq<T>, keep: T -> bool)
    requires forall i, j :: 0 <= i < j < |s| ==> s[i] != s[j]
    ensures forall i, j :: 0 <= i < j < |Filter(s, keep)| ==> Filter(s, keep)[i] != Filter(s, keep)[j]
  {
    if s != [] {
      FilterDistinct(s[..|s| - 1], keep);
      FilterWithin(s[..|s| - 1], keep);
    }
  }

  lemma {:induction false} FilterConcat<T>(s: seq<T>, t: seq<T>, keep: T -> bool)
    ensures Filter(s + t, keep) == Filter(s, keep) + Filter(t, keep)
  {
    if t == [] {
      assert s + t == s;
    } else {
      hide Filter;
      var n := |t| - 1;
      FilterConcat(s, t[..n], keep);
      assert s + t == s + t[..n] + [t[n]] && t == t[..n] + [t[n]];
      FilterSnoc(s + t[..n], t[n], keep);
      FilterSnoc(t[..n], t[n], keep);
    }
  }

  lemma {:induction false} FilterNone<T>(s: seq<T>, keep: T -> bool)
    requires forall i :: 0 <= i < |s| ==> !keep(s[i])
    ensures Filter(s, keep) == []
  {
    if s != [] {
      FilterNone(s[..|s| - 1], keep);
    }
  }

  lemma {:induction false} FilterAll<T>(s: seq<T>, keep: T -> bool)
    requires forall i :: 0 <= i < |s| ==> keep(s[i])
    ensures Filter(s, keep) == s
  {
    if s != [] {
      FilterAll(s[..|s| - 1], keep);
    }
  }

  /** How many elements before position t satisfy the predicate. */
  function Rank<T>(s: seq<T>, keep: T -> bool, t: nat): nat
    requires t <= |s|
  {
    |Filter(s[..t], keep)|
  }

  /** An element that satisfies the predicate is found among those that do at its rank. */
  lemma {:induction false} FoundAtRank<T>(s: seq<T>, keep: T -> bool, t: nat)
    requires t < |s| && keep(s[t])
    ensures Rank(s, keep, t) < |Filter(s, keep)| && Filter(s, keep)[Rank(s, keep, t)] == s[t]
  {
    FilterNext(s, t, keep);
    FilterConcat(s[..t + 1], s[t + 1..], keep);
    assert s[..t + 1] + s[t + 1..] == s;
  }

  lemma {:induction false} RankRises<T>(s: seq<T>, keep: T -> bool, t: nat, u: nat)
    requires t < u <= |s|
    ensures Rank(s, keep, t) <= Rank(s, keep, u)
    ensures keep(s[t]) ==> Rank(s, keep, t) < Rank(s, keep, u)
  {
    FilterNext(s, t, keep);
    FilterConcat(s[..t + 1], s[t + 1..u], keep);
    assert s[..t + 1] + s[t + 1..u] == s[..u];
  }
}
