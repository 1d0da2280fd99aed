/** Sequence facts the writer needs: a shuffle is a permutation of indices,
    and reordering by a permutation keeps the multiset of elements. */
module Sequences {

  function Range(n: nat): (r: seq<nat>)
    ensures |r| == n && forall i :: 0 <= i < n ==> r[i] == i
  {
    seq(n, i => i)
  }

  predicate InRange(p: seq<nat>, n: nat)
  {
    forall i :: 0 <= i < |p| ==> p[i] < n
  }

  /** `p` lists each of the indices 0 .. n-1 exactly once. */
  predicate IsPermutation(p: seq<nat>, n: nat)
  {
    |p| == n && InRange(p, n) && multiset(p) == multiset(Range(n))
  }

  /** The elements of `s` in the order given by `p`: position i holds s[p[i]]. */
  function Gather<T>(s: seq<T>, p: seq<nat>): (r: seq<T>)
    requires InRange(p, |s|)
    ensures |r| == |p|
  {
    seq(|p|, i requires 0 <= i < |p| => s[p[i]])
  }

  predicate Distinct<T(==)>(s: seq<T>)
  {
    forall i, j :: 0 <= i < j < |s| ==> s[i] != s[j]
  }

  lemma {:induction false} MultisetRemoveAt<T>(q: seq<T>, k: nat)
    requires k < |q|
    ensures multiset(q[..k] + q[k + 1..]) == multiset(q) - multiset{q[k]}
  {
    assert q == q[..k] + [q[k]] + q[k + 1..];
  }

  lemma {:induction false} GatherRemoveAt<T>(s: seq<T>, q: seq<nat>, k: nat)
    requires InRange(q, |s|) && k < |q|
    ensures InRange(q[..k] + q[k + 1..], |s|)
    ensures multiset(Gather(s, q)) == multiset(Gather(s, q[..k] + q[k + 1..])) + multiset{s[q[k]]}
  {
    var rest := q[..k] + q[k + 1..];
    assert Gather(s, q) == Gather(s, q[..k]) + [s[q[k]]] + Gather(s, q[k + 1..]);
    assert Gather(s, rest) == Gather(s, q[..k]) + Gather(s, q[k + 1..]);
  }

  /** Gathering by a non-empty index list: its head element, then the rest. */
  lemma {:induction false} GatherHead<T>(s: seq<T>, p: seq<nat>)
    requires InRange(p, |s|) && 0 < |p|
    ensures InRange(p[1..], |s|)
    ensures multiset(Gather(s, p)) == multiset(Gather(s, p[1..])) + multiset{s[p[0]]}
    ensures multiset(p[1..]) == multiset(p) - multiset{p[0]}
  {
    assert p == [p[0]] + p[1..];
    assert Gather(s, p) == [s[p[0]]] + Gather(s, p[1..]);
  }

  /** Gathering by index lists with the same multiset gives the same multiset
      of elements. */
  lemma {:induction false} GatherKeepsMultiset<T>(s: seq<T>, p: seq<nat>, q: seq<nat>)
    requires InRange(p, |s|) && InRange(q, |s|) && multiset(p) == multiset(q)
    ensures multiset(Gather(s, p)) == multiset(Gather(s, q))
    decreases |p|
  {
    if |p| == 0 {
      assert |q| == |multiset(q)| == |multiset(p)| == 0;
    } else {
      var x := p[0];
      assert x in multiset(p) by { assert p == [x] + p[1..]; }
      assert x in q;
      var k :| 0 <= k < |q| && q[k] == x;
      var rest := q[..k] + q[k + 1..];
      GatherHead(s, p);
      MultisetRemoveAt(q, k);
      GatherRemoveAt(s, q, k);
      GatherKeepsMultiset(s, p[1..], rest);
    }
  }

  lemma {:induction false} ExtendedPrefix<T>(s: seq<T>, i: nat)
    requires i < |s|
    ensures s[..i + 1] == s[..i] + [s[i]]
  {
  }

  /** A sequence one element longer than `rest`, which ends in `tail` after
      `k` elements, ends in `tail` after `k + 1` elements. */
  lemma {:induction false} ConsSuffix<T>(s: seq<T>, rest: seq<T>, tail: seq<T>, k: nat)
    requires |s| == |rest| + 1 && s[1..] == rest
    requires |rest| == k + |tail| && rest[k..] == tail
    ensures |s| == k + 1 + |tail| && s[k + 1..] == tail
  {
    assert s[k + 1..] == s[1..][k..];
  }

  /** Reordering a sequence by a permutation keeps its multiset. */
  lemma {:induction false} PermutationKeepsMultiset<T>(s: seq<T>, p: seq<nat>)
    requires IsPermutation(p, |s|)
    ensures multiset(Gather(s, p)) == multiset(s)
  {
    GatherKeepsMultiset(s, p, Range(|s|));
    assert Gather(s, Range(|s|)) == s;
  }

  /** In a duplicate-free sequence every element occurs once. */
  lemma {:induction false} DistinctCount<T>(s: seq<T>, x: T)
    requires Distinct(s)
    ensures multiset(s)[x] == if x in s then 1 else 0
    decreases |s|
  {
    if |s| > 0 {
      var k := |s| - 1;
      assert s == s[..k] + [s[k]];
      assert Distinct(s[..k]);
      DistinctCount(s[..k], x);
      assert s[k] !in s[..k];
    }
  }

  /** A sequence with the multiset of a duplicate-free one is duplicate-free. */
  lemma {:induction false} DistinctByMultiset<T>(s: seq<T>, t: seq<T>)
    requires Distinct(s) && multiset(t) == multiset(s)
    ensures Distinct(t)
  {
    forall i, j | 0 <= i < j < |t| ensures t[i] != t[j] {
      if t[i] == t[j] {
        var x := t[i];
        assert t == t[..i] + [x] + t[i + 1..j] + [x] + t[j + 1..];
        assert multiset(t)[x] >= 2;
        DistinctCount(s, x);
        assert false;
      }
    }
  }

  /** Two duplicate-free sequences with the same elements have the same
      multiset, hence the same length. */
  lemma {:induction false} DistinctSameElements<T>(s: seq<T>, t: seq<T>)
    requires Distinct(s) && Distinct(t)
    requires forall x :: x in s <==> x in t
    ensures multiset(s) == multiset(t) && |s| == |t|
  {
    forall x ensures multiset(s)[x] == multiset(t)[x] {
      DistinctCount(s, x);
      DistinctCount(t, x);
    }
    assert multiset(s) == multiset(t);
    assert |s| == |multiset(s)| == |multiset(t)| == |t|;
  }
}
