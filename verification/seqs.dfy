/** Sequence helpers behind `Array.prototype.filter` and `includes`. */
module Seqs {

  /** `a` is an order-preserving subsequence of `b`: `a` can be obtained from
      `b` by deleting elements. Greedy matching decides it. */
  predicate IsSubsequence<T(==)>(a: seq<T>, b: seq<T>)
    decreases |b|
  {
    if |a| == 0 then true
    else if |b| == 0 then false
    else if a[0] == b[0] then IsSubsequence(a[1..], b[1..])
    else IsSubsequence(a, b[1..])
  }

  lemma {:induction false} SubsequenceReflexive<T>(s: seq<T>)
    ensures IsSubsequence(s, s)
  {
    if |s| > 0 {
      SubsequenceReflexive(s[1..]);
    }
  }

  lemma {:induction false} SubsequenceTransitive<T>(a: seq<T>, b: seq<T>, c: seq<T>)
    requires IsSubsequence(a, b) && IsSubsequence(b, c)
    ensures IsSubsequence(a, c)
    decreases |c|
  {
    if |a| > 0 && |c| > 0 {
      if b[0] == c[0] {
        if a[0] == b[0] {
          SubsequenceTransitive(a[1..], b[1..], c[1..]);
        } else {
          SubsequenceTransitive(a, b[1..], c[1..]);
        }
      } else {
        SubsequenceTransitive(a, b, c[1..]);
        if a[0] == c[0] {
          SubsequenceDropHead(a, c[1..]);
        }
      }
    }
  }

  /** Dropping the first element of a subsequence leaves a subsequence. */
  lemma {:induction false} SubsequenceDropHead<T>(a: seq<T>, b: seq<T>)
    requires |a| > 0 && IsSubsequence(a, b)
    ensures IsSubsequence(a[1..], b)
    decreases |b|
  {
    if a[0] != b[0] {
      SubsequenceDropHead(a, b[1..]);
      if |a| > 1 && a[1] == b[0] {
        SubsequenceDropHead(a[1..], b[1..]);
        assert a[1..][1..] == a[2..];
      }
    } else if |a| > 1 && a[1] == b[0] {
      SubsequenceDropHead(a[1..], b[1..]);
      assert a[1..][1..] == a[2..];
    }
  }

  /** `s.filter(p)`: exactly the elements satisfying `p`, in their order,
      each as often as it occurs in `s`. */
  function Filter<T(==,!new)>(s: seq<T>, p: T -> bool): (r: seq<T>)
    ensures |r| <= |s|
    ensures forall x :: x in r <==> x in s && p(x)
    ensures forall x :: multiset(r)[x] == if p(x) then multiset(s)[x] else 0
    ensures IsSubsequence(r, s)
  {
    if |s| == 0 then []
    else
      var rest := Filter(s[1..], p);
      if p(s[0]) then
        FilterKeepsHead(s, p, rest);
        [s[0]] + rest
      else
        FilterDropsHead(s, p, rest);
        rest
  }

  /** One step of `Filter` whose head is kept: the head followed by the
      filtered tail is the filtered whole. */
  lemma FilterKeepsHead<T>(s: seq<T>, p: T -> bool, rest: seq<T>)
    requires |s| > 0 && p(s[0])
    requires forall x :: x in rest <==> x in s[1..] && p(x)
    requires forall x :: multiset(rest)[x] == if p(x) then multiset(s[1..])[x] else 0
    requires IsSubsequence(rest, s[1..])
    ensures forall x :: x in [s[0]] + rest <==> x in s && p(x)
    ensures forall x :: multiset([s[0]] + rest)[x] == if p(x) then multiset(s)[x] else 0
    ensures IsSubsequence([s[0]] + rest, s)
  {
    var r := [s[0]] + rest;
    assert s == [s[0]] + s[1..];
    assert r[0] == s[0] && r[1..] == rest;
    assert multiset(s) == multiset{s[0]} + multiset(s[1..]);
    assert multiset(r) == multiset{s[0]} + multiset(rest);
  }

  /** One step of `Filter` whose head is dropped: the filtered tail is the
      filtered whole. */
  lemma FilterDropsHead<T>(s: seq<T>, p: T -> bool, rest: seq<T>)
    requires |s| > 0 && !p(s[0])
    requires forall x :: x in rest <==> x in s[1..] && p(x)
    requires forall x :: multiset(rest)[x] == if p(x) then multiset(s[1..])[x] else 0
    requires IsSubsequence(rest, s[1..])
    ensures forall x :: x in rest <==> x in s && p(x)
    ensures forall x :: multiset(rest)[x] == if p(x) then multiset(s)[x] else 0
    ensures IsSubsequence(rest, s)
  {
    assert s == [s[0]] + s[1..];
    assert multiset(s) == multiset{s[0]} + multiset(s[1..]);
    if |rest| > 0 {
      assert rest[0] in rest;
    }
  }

  /** Filtering with a predicate every element satisfies changes nothing. */
  lemma {:induction false} FilterKeepsAll<T(!new)>(s: seq<T>, p: T -> bool)
    requires forall i :: 0 <= i < |s| ==> p(s[i])
    ensures Filter(s, p) == s
  {
    if |s| > 0 {
      FilterKeepsAll(s[1..], p);
    }
  }

  /** Filtering twice with the same predicate is filtering once. */
  lemma FilterIdempotent<T(!new)>(s: seq<T>, p: T -> bool)
    ensures Filter(Filter(s, p), p) == Filter(s, p)
  {
    var r := Filter(s, p);
    assert forall i :: 0 <= i < |r| ==> p(r[i]) by {
      forall i | 0 <= i < |r| ensures p(r[i]) { assert r[i] in r; }
    }
    FilterKeepsAll(r, p);
  }

  /** No value occurs twice. */
  predicate NoDuplicates<T(==)>(s: seq<T>) {
    forall i, j :: 0 <= i < j < |s| ==> s[i] != s[j]
  }

  /** A subsequence of a duplicate-free sequence is duplicate-free. */
  lemma {:induction false} SubsequenceNoDuplicates<T>(a: seq<T>, b: seq<T>)
    requires IsSubsequence(a, b) && NoDuplicates(b)
    ensures NoDuplicates(a)
    decreases |b|
  {
    if |a| > 0 && |b| > 0 {
      if a[0] == b[0] {
        SubsequenceNoDuplicates(a[1..], b[1..]);
        SubsequenceMembers(a[1..], b[1..]);
        assert forall j :: 0 < j < |a| ==> a[j] in b[1..];
      } else {
        SubsequenceNoDuplicates(a, b[1..]);
      }
    }
  }

  /** Every element of a subsequence is an element of the whole. */
  lemma {:induction false} SubsequenceMembers<T>(a: seq<T>, b: seq<T>)
    requires IsSubsequence(a, b)
    ensures forall x :: x in a ==> x in b
    decreases |b|
  {
    if |a| > 0 && |b| > 0 {
      if a[0] == b[0] {
        SubsequenceMembers(a[1..], b[1..]);
        assert forall x :: x in a ==> x == a[0] || x in a[1..];
      } else {
        SubsequenceMembers(a, b[1..]);
      }
    }
  }

  /** Filtering distributes over concatenation. */
  lemma {:induction false} FilterConcat<T(!new)>(a: seq<T>, b: seq<T>, p: T -> bool)
    ensures Filter(a + b, p) == Filter(a, p) + Filter(b, p)
  {
    if |a| > 0 {
      var ab := a + b;
      assert ab[0] == a[0];
      assert ab[1..] == a[1..] + b;
      FilterConcat(a[1..], b, p);
      if p(a[0]) {
        assert Filter(ab, p) == [a[0]] + Filter(a[1..] + b, p);
        assert Filter(a, p) == [a[0]] + Filter(a[1..], p);
      } else {
        assert Filter(ab, p) == Filter(a[1..] + b, p);
        assert Filter(a, p) == Filter(a[1..], p);
      }
    } else {
      assert a + b == b;
    }
  }
}
