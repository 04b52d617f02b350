/** Sorting by a total preorder and taking the first k elements: the
    "sort, then head(k)" step shared by both rankers. The sort is an
    insertion sort; its contract fixes the result only up to the order of
    equal elements, which is all the rankers rely on. */
module Ranking {
  import opened Relations

  /** Every element comes no later, under `le`, than every element after it. */
  predicate Sorted<T>(s: seq<T>, le: (T, T) -> bool) {
    forall i, j :: 0 <= i < j < |s| ==> le(s[i], s[j])
  }

  function Min(a: int, b: int): int {
    if a <= b then a else b
  }

  /** Applies `f` to every element, keeping the order. */
  function MapSeq<A, B>(s: seq<A>, f: A -> B): (r: seq<B>)
    ensures |r| == |s|
    ensures forall i :: 0 <= i < |s| ==> r[i] == f(s[i])
  {
    seq(|s|, i requires 0 <= i < |s| => f(s[i]))
  }

  /** Places `x` into the sorted sequence `s`, before the first element it
      does not come after. */
  function Insert<T(!new)>(x: T, s: seq<T>, le: (T, T) -> bool): (r: seq<T>)
    requires TotalPreorder(le)
    requires Sorted(s, le)
    ensures multiset(r) == multiset(s) + multiset{x}
    ensures Sorted(r, le)
  {
    if s == [] then [x]
    else if le(x, s[0]) then
      InsertFront(x, s, le);
      [x] + s
    else
      var rest := Insert(x, s[1..], le);
      InsertAfterHead(x, s, rest, le);
      [s[0]] + rest
  }

  /** An element that comes no later than the head of a sorted sequence
      can be put in front of it. */
  lemma InsertFront<T(!new)>(x: T, s: seq<T>, le: (T, T) -> bool)
    requires Transitive(le)
    requires Sorted(s, le)
    requires s != [] && le(x, s[0])
    ensures Sorted([x] + s, le)
  {
    var r := [x] + s;
    forall i, j | 0 <= i < j < |r| ensures le(r[i], r[j]) {
      assert r[j] == s[j - 1];
      if i == 0 {
        if j > 1 {
          assert le(s[0], s[j - 1]);
        }
      } else {
        assert r[i] == s[i - 1];
      }
    }
  }

  /** An element that comes after the head of a sorted sequence, inserted
      into its tail, leaves the head first. */
  lemma InsertAfterHead<T(!new)>(x: T, s: seq<T>, rest: seq<T>, le: (T, T) -> bool)
    requires Total(le)
    requires Sorted(s, le)
    requires s != [] && !le(x, s[0])
    requires multiset(rest) == multiset(s[1..]) + multiset{x}
    requires Sorted(rest, le)
    ensures multiset([s[0]] + rest) == multiset(s) + multiset{x}
    ensures Sorted([s[0]] + rest, le)
  {
    assert s == [s[0]] + s[1..];
    var r := [s[0]] + rest;
    forall i, j | 0 <= i < j < |r| ensures le(r[i], r[j]) {
      assert r[j] == rest[j - 1];
      if i == 0 {
        assert rest[j - 1] in multiset(rest);
        if rest[j - 1] != x {
          assert rest[j - 1] in s[1..];
          var m :| 0 <= m < |s[1..]| && s[1..][m] == rest[j - 1];
          assert s[m + 1] == rest[j - 1];
        }
      } else {
        assert r[i] == rest[i - 1];
      }
    }
  }

  /** A rearrangement of `s` that is sorted under `le`. */
  function SortBy<T(!new)>(s: seq<T>, le: (T, T) -> bool): (r: seq<T>)
    requires TotalPreorder(le)
    ensures multiset(r) == multiset(s)
    ensures Sorted(r, le)
  {
    if s == [] then []
    else
      assert s == [s[0]] + s[1..];
      Insert(s[0], SortBy(s[1..], le), le)
  }

  /** The first `k` elements of `s` sorted under `le`: at most `k` elements
      of `s`, in order, such that every element of `s` left out comes no
      earlier than the last one taken. */
  function TopK<T(!new)>(s: seq<T>, k: nat, le: (T, T) -> bool): (r: seq<T>)
    requires TotalPreorder(le)
    requires 0 < k
    ensures |r| == Min(k, |s|)
    ensures Sorted(r, le)
    ensures multiset(r) <= multiset(s)
    ensures forall x :: x in multiset(s) - multiset(r) ==> 0 < |r| && le(r[|r| - 1], x)
  {
    var sorted := SortBy(s, le);
    PrefixIsTop(s, sorted, Min(k, |s|), le);
    sorted[..Min(k, |s|)]
  }

  /** The first n elements of a sorted rearrangement of `s` are n elements
      of `s`, in order, and every element of `s` left out comes no earlier
      than the last one taken. */
  lemma PrefixIsTop<T>(s: seq<T>, sorted: seq<T>, n: nat, le: (T, T) -> bool)
    requires Sorted(sorted, le)
    requires multiset(sorted) == multiset(s)
    requires n <= |s|
    requires 0 < n || s == []
    ensures n <= |sorted|
    ensures Sorted(sorted[..n], le)
    ensures multiset(sorted[..n]) <= multiset(s)
    ensures forall x :: x in multiset(s) - multiset(sorted[..n]) ==>
      0 < |sorted[..n]| && le(sorted[..n][|sorted[..n]| - 1], x)
  {
    assert |multiset(sorted)| == |multiset(s)|;
    assert sorted == sorted[..n] + sorted[n..];
    assert multiset(s) - multiset(sorted[..n]) == multiset(sorted[n..]);
    forall x | x in multiset(sorted[n..])
      ensures 0 < n && le(sorted[n - 1], x)
    {
      assert x in sorted[n..];
      var j :| 0 <= j < |sorted[n..]| && sorted[n..][j] == x;
      assert sorted[n + j] == x;
    }
  }

  /** A sequence whose neighbours are in order is sorted, for a transitive
      order. */
  lemma {:induction false} SortedFromNeighbours<T(!new)>(s: seq<T>, le: (T, T) -> bool)
    requires TotalPreorder(le)
    requires forall i :: 0 <= i < |s| - 1 ==> le(s[i], s[i + 1])
    ensures Sorted(s, le)
  {
    if |s| > 1 {
      SortedFromNeighbours(s[1..], le);
      forall j | 1 <= j < |s| ensures le(s[0], s[j]) {
        assert s[1..][j - 1] == s[j];
        if j > 1 {
          assert s[1..][0] == s[1];
        }
      }
    }
  }

  /** Insertion commutes with a map `f` whenever `f` preserves the order:
      inserting and then mapping gives what mapping and then inserting
      gives. */
  lemma {:induction false} InsertCommutes<A(!new), B(!new)>(
    x: A, s: seq<A>, f: A -> B, leA: (A, A) -> bool, leB: (B, B) -> bool)
    requires TotalPreorder(leA) && TotalPreorder(leB)
    requires Preserves(f, leA, leB)
    requires Sorted(s, leA)
    ensures Sorted(MapSeq(s, f), leB)
    ensures MapSeq(Insert(x, s, leA), f) == Insert(f(x), MapSeq(s, f), leB)
  {
    var fs := MapSeq(s, f);
    assert Sorted(fs, leB) by {
      forall i, j | 0 <= i < j < |fs|
        ensures leB(fs[i], fs[j])
      {
        assert leA(s[i], s[j]);
      }
    }
    if s == [] {
      assert MapSeq([x], f) == [f(x)];
    } else if leA(x, s[0]) {
      assert leB(f(x), fs[0]);
      assert MapSeq([x] + s, f) == [f(x)] + fs;
    } else {
      assert !leB(f(x), fs[0]);
      InsertCommutes(x, s[1..], f, leA, leB);
      var rest := Insert(x, s[1..], leA);
      assert MapSeq(s[1..], f) == fs[1..];
      assert MapSeq([s[0]] + rest, f) == [f(s[0])] + MapSeq(rest, f);
    }
  }

  /** Sorting commutes with an order-preserving map. */
  lemma {:induction false} SortCommutes<A(!new), B(!new)>(
    s: seq<A>, f: A -> B, leA: (A, A) -> bool, leB: (B, B) -> bool)
    requires TotalPreorder(leA) && TotalPreorder(leB)
    requires Preserves(f, leA, leB)
    ensures MapSeq(SortBy(s, leA), f) == SortBy(MapSeq(s, f), leB)
  {
    if s != [] {
      var fs := MapSeq(s, f);
      var tail := SortBy(s[1..], leA);
      assert MapSeq(tail, f) == SortBy(fs[1..], leB) by {
        SortCommutes(s[1..], f, leA, leB);
        assert MapSeq(s[1..], f) == fs[1..];
      }
      assert MapSeq(Insert(s[0], tail, leA), f) == Insert(fs[0], MapSeq(tail, f), leB) by {
        InsertCommutes(s[0], tail, f, leA, leB);
      }
    }
  }

  /** Taking the top k commutes with an order-preserving map. */
  lemma TopKCommutes<A(!new), B(!new)>(
    s: seq<A>, k: nat, f: A -> B, leA: (A, A) -> bool, leB: (B, B) -> bool)
    requires TotalPreorder(leA) && TotalPreorder(leB)
    requires Preserves(f, leA, leB)
    requires 0 < k
    ensures MapSeq(TopK(s, k, leA), f) == TopK(MapSeq(s, f), k, leB)
  {
    SortCommutes(s, f, leA, leB);
  }
}
