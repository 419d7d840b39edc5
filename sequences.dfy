/**
  Sequence vocabulary shared by the model: duplicates, first occurrences,
  subsequences, and the iteration order of a JavaScript `Set` built from an
  array (insertion order, later duplicates ignored).
*/
module Sequences {

  predicate NoDup<T(==)>(s: seq<T>)
  {
    forall i, j :: 0 <= i < j < |s| ==> s[i] != s[j]
  }

  /** The position of the first occurrence of `x` in `s`. */
  function IndexOf<T(==)>(s: seq<T>, x: T): (i: nat)
    requires x in s
    ensures i < |s| && s[i] == x
    ensures forall j :: 0 <= j < i ==> s[j] != x
  {
    if s[0] == x then 0 else 1 + IndexOf(s[1..], x)
  }

  /** Every element of `r` occurs in `base`, and `r` lists them in the order of their first occurrence there. */
  predicate FirstSeenOrder<T(==)>(r: seq<T>, base: seq<T>)
  {
    && (forall i :: 0 <= i < |r| ==> r[i] in base)
    && (forall i, j :: 0 <= i < j < |r| ==> IndexOf(base, r[i]) < IndexOf(base, r[j]))
  }

  /** `a` can be obtained from `b` by deleting elements. */
  predicate IsSubsequence<T(==)>(a: seq<T>, b: seq<T>)
    decreases |b|
  {
    if |a| == 0 then true
    else if |b| == 0 then false
    else if a[0] == b[0] then IsSubsequence(a[1..], b[1..])
    else IsSubsequence(a, b[1..])
  }

  lemma PrefixSnoc<T>(s: seq<T>, i: nat)
    requires i < |s|
    ensures s[..i + 1] == s[..i] + [s[i]]
  {
  }

  lemma PrefixAll<T>(s: seq<T>)
    ensures s[..|s|] == s
  {
  }

  lemma PrefixOfPrefix<T>(s: seq<T>, n: nat)
    requires n < |s|
    ensures s[..n + 1][..n] == s[..n] && s[..n + 1][n] == s[n]
  {
  }

  lemma {:induction false} IndexOfPrefix<T>(s: seq<T>, n: nat, x: T)
    requires n <= |s| && x in s[..n]
    ensures IndexOf(s, x) == IndexOf(s[..n], x)
  {
    var i := IndexOf(s[..n], x);
    var k := IndexOf(s, x);
    assert s[i] == x;
    assert k <= i;
    assert s[..n][k] == x;
  }

  /**
    The elements of `s` in the iteration order of `new Set(s)`: each distinct
    element once, at the place of its first occurrence (see DedupOrder).
  */
  function Dedup<T(==,!new)>(s: seq<T>): (r: seq<T>)
    ensures NoDup(r)
    ensures forall x :: x in r <==> x in s
    ensures |r| <= |s| && (|r| == 0 <==> |s| == 0)
    decreases |s|
  {
    if |s| == 0 then []
    else
      var d := Dedup(s[..|s| - 1]);
      var last := s[|s| - 1];
      assert s == s[..|s| - 1] + [last];
      if last in d then d else d + [last]
  }

  /** Adding one element to the end adds it to the set unless it is there already. */
  lemma DedupSnoc<T(!new)>(s: seq<T>, x: T)
    ensures Dedup(s + [x]) == if x in Dedup(s) then Dedup(s) else Dedup(s) + [x]
  {
    var t := s + [x];
    assert t[..|t| - 1] == s;
  }

  /** `Dedup` lists the distinct elements in the order of their first occurrence. */
  lemma {:induction false} DedupOrder<T(!new)>(s: seq<T>)
    ensures FirstSeenOrder(Dedup(s), s)
    decreases |s|
  {
    if |s| > 0 {
      var front := s[..|s| - 1];
      var last := s[|s| - 1];
      var d := Dedup(front);
      DedupOrder(front);
      assert s == front + [last];
      forall i | 0 <= i < |d| ensures IndexOf(s, d[i]) == IndexOf(front, d[i]) {
        IndexOfPrefix(s, |s| - 1, d[i]);
      }
      if last !in d {
        assert IndexOf(s, last) == |s| - 1;
      }
    }
  }

  /** A sequence without duplicates is its own `Dedup`. */
  lemma {:induction false} DedupOfNoDup<T(!new)>(s: seq<T>)
    requires NoDup(s)
    ensures Dedup(s) == s
  {
    if |s| > 0 {
      DedupOfNoDup(s[..|s| - 1]);
    }
  }

  /** `s.filter(x => allowed.has(x))`: the elements of `s` that are in `allowed`, in order. */
  function Keep<T(==,!new)>(s: seq<T>, allowed: seq<T>): (r: seq<T>)
    ensures |r| <= |s|
    ensures forall x :: x in r <==> x in s && x in allowed
    ensures NoDup(s) ==> NoDup(r)
  {
    if |s| == 0 then []
    else if s[0] in allowed then [s[0]] + Keep(s[1..], allowed)
    else Keep(s[1..], allowed)
  }

  lemma FirstSeenOrderTail<T>(s: seq<T>, base: seq<T>)
    requires |s| > 0 && FirstSeenOrder(s, base)
    ensures FirstSeenOrder(s[1..], base)
  {
    var tail := s[1..];
    forall i, j | 0 <= i < j < |tail| ensures IndexOf(base, tail[i]) < IndexOf(base, tail[j]) {
      assert tail[i] == s[i + 1] && tail[j] == s[j + 1];
    }
  }

  lemma FirstSeenOrderCons<T>(x: T, k: seq<T>, base: seq<T>)
    requires x in base && FirstSeenOrder(k, base)
    requires forall j :: 0 <= j < |k| ==> IndexOf(base, x) < IndexOf(base, k[j])
    ensures FirstSeenOrder([x] + k, base)
  {
    var r := [x] + k;
    forall i, j | 0 <= i < j < |r| ensures IndexOf(base, r[i]) < IndexOf(base, r[j]) {
      assert r[j] == k[j - 1];
      if i > 0 {
        assert r[i] == k[i - 1];
      }
    }
  }

  /** Filtering keeps the order of first occurrence with respect to any base sequence. */
  lemma {:induction false} KeepOrder<T(!new)>(s: seq<T>, allowed: seq<T>, base: seq<T>)
    requires FirstSeenOrder(s, base)
    ensures FirstSeenOrder(Keep(s, allowed), base)
  {
    if |s| > 0 {
      var tail := s[1..];
      FirstSeenOrderTail(s, base);
      KeepOrder(tail, allowed, base);
      if s[0] in allowed {
        var k := Keep(tail, allowed);
        forall j | 0 <= j < |k| ensures IndexOf(base, s[0]) < IndexOf(base, k[j]) {
          assert k[j] in tail;
          var m :| 0 <= m < |tail| && tail[m] == k[j];
          assert s[m + 1] == k[j];
        }
        FirstSeenOrderCons(s[0], k, base);
      }
    }
  }

  /** Filtering keeps the whole list exactly when every element passes. */
  lemma {:induction false} KeepAll<T(!new)>(s: seq<T>, allowed: seq<T>)
    ensures |Keep(s, allowed)| == |s| <==> forall x :: x in s ==> x in allowed
  {
    if |s| > 0 {
      KeepAll(s[1..], allowed);
      assert forall x :: x in s <==> x == s[0] || x in s[1..];
    }
  }
}
