/**
 * The top-K pick of `chat`: `sorted(range(len(scores)), key=scores.__getitem__,
 * reverse=True)[:k]`. Python's sort is stable also with `reverse=True`, so
 * the order is by descending score and, among equal scores, by ascending
 * index. Scores are modelled as reals.
 */
module Ranking {
  import opened Seqs

  /** Index `i` comes before index `j`: a higher score, or the same score and an earlier position. */
  predicate Before(scores: seq<real>, i: nat, j: nat) {
    i < |scores| && j < |scores| && (scores[i] > scores[j] || (scores[i] == scores[j] && i < j))
  }

  /** Every entry of `s` is an index into `scores`. */
  predicate InRange(scores: seq<real>, s: seq<nat>) {
    forall a :: 0 <= a < |s| ==> s[a] < |scores|
  }

  /** `s` lists indices in the order of the sort: each before every later one. */
  ghost predicate Ranked(scores: seq<real>, s: seq<nat>) {
    forall a, b :: 0 <= a < b < |s| ==> Before(scores, s[a], s[b])
  }

  /** Two distinct indices are always ordered one way or the other, never both. */
  lemma BeforeTotal(scores: seq<real>, i: nat, j: nat)
    requires i < |scores| && j < |scores| && i != j
    ensures Before(scores, i, j) != Before(scores, j, i)
  {
  }

  /** Inserting one index into a ranked list at its place. */
  function Insert(scores: seq<real>, x: nat, s: seq<nat>): (r: seq<nat>)
    ensures multiset(r) == multiset(s) + multiset{x}
    ensures |r| == |s| + 1
  {
    if s == [] then [x]
    else if Before(scores, x, s[0]) then [x] + s
    else
      assert s == [s[0]] + s[1..];
      [s[0]] + Insert(scores, x, s[1..])
  }

  /** The entries of an insertion are the inserted index and the old entries. */
  lemma InsertEntries(scores: seq<real>, x: nat, s: seq<nat>)
    ensures forall y :: y in Insert(scores, x, s) <==> y == x || y in s
  {
    var r := Insert(scores, x, s);
    forall y ensures y in r <==> y == x || y in s {
      assert y in r <==> y in multiset(r);
      assert y in s <==> y in multiset(s);
    }
  }

  /** Insertion keeps a list of valid indices valid. */
  lemma InsertInRange(scores: seq<real>, x: nat, s: seq<nat>)
    requires x < |scores| && InRange(scores, s)
    ensures InRange(scores, Insert(scores, x, s))
  {
    var r := Insert(scores, x, s);
    InsertEntries(scores, x, s);
    forall a | 0 <= a < |r| ensures r[a] < |scores| {
      assert r[a] in r;
    }
  }

  /** Insertion keeps a ranked list of valid indices ranked. */
  lemma {:induction false} InsertRanked(scores: seq<real>, x: nat, s: seq<nat>)
    requires x < |scores| && InRange(scores, s) && Ranked(scores, s) && x !in s
    ensures Ranked(scores, Insert(scores, x, s))
  {
    if s == [] {
    } else if Before(scores, x, s[0]) {
      var r := [x] + s;
      forall b | 0 <= b < |s| ensures Before(scores, x, s[b]) {
        if b > 0 {
          assert Before(scores, s[0], s[b]);
        }
      }
      assert forall a :: 0 < a < |r| ==> r[a] == s[a - 1];
    } else {
      var rest := Insert(scores, x, s[1..]);
      var r := [s[0]] + rest;
      assert s == [s[0]] + s[1..];
      InsertRanked(scores, x, s[1..]);
      InsertEntries(scores, x, s[1..]);
      forall b | 0 <= b < |rest| ensures Before(scores, s[0], rest[b]) {
        assert rest[b] in rest;
        if rest[b] == x {
          BeforeTotal(scores, x, s[0]);
        } else {
          var c :| 0 <= c < |s[1..]| && s[1..][c] == rest[b];
          assert s[c + 1] == rest[b];
        }
      }
      assert forall a :: 0 < a < |r| ==> r[a] == rest[a - 1];
    }
  }

  /** The indices of `s` in sorted order (insertion sort). */
  function Rank(scores: seq<real>, s: seq<nat>): (r: seq<nat>)
    ensures multiset(r) == multiset(s)
    ensures |r| == |s|
  {
    if s == [] then []
    else
      assert s == [s[0]] + s[1..];
      Insert(scores, s[0], Rank(scores, s[1..]))
  }

  /** Sorting distinct valid indices yields them ranked. */
  lemma {:induction false} RankRanked(scores: seq<real>, s: seq<nat>)
    requires InRange(scores, s) && Distinct(s)
    ensures InRange(scores, Rank(scores, s)) && Ranked(scores, Rank(scores, s))
  {
    if s != [] {
      var tail := Rank(scores, s[1..]);
      assert s == [s[0]] + s[1..];
      RankRanked(scores, s[1..]);
      assert s[0] !in multiset(s[1..]);
      InsertInRange(scores, s[0], tail);
      InsertRanked(scores, s[0], tail);
    }
  }

  /** `range(n)`. */
  function Range(n: nat): (r: seq<nat>)
    ensures |r| == n && forall a :: 0 <= a < n ==> r[a] == a
  {
    seq(n, a requires 0 <= a => a)
  }

  function Min(a: nat, b: nat): nat {
    if a <= b then a else b
  }

  /** The first `k` indices in descending score order. */
  function TopK(scores: seq<real>, k: nat): (r: seq<nat>)
    ensures |r| == Min(k, |scores|)
    ensures multiset(r) <= multiset(Range(|scores|))
  {
    var ranked := Rank(scores, Range(|scores|));
    var m := Min(k, |ranked|);
    assert ranked == ranked[..m] + ranked[m..];
    ranked[..m]
  }

  lemma RangeFacts(n: nat)
    ensures Distinct(Range(n))
    ensures forall scores: seq<real> :: |scores| == n ==> InRange(scores, Range(n))
    ensures forall i :: 0 <= i < n <==> i in multiset(Range(n))
  {
    forall i | 0 <= i < n ensures i in multiset(Range(n)) {
      assert Range(n)[i] == i;
    }
  }

  /** A ranked list never repeats an index. */
  lemma RankedDistinct(scores: seq<real>, s: seq<nat>)
    requires Ranked(scores, s)
    ensures Distinct(s)
  {
    forall a, b | 0 <= a < b < |s| ensures s[a] != s[b] {
      assert Before(scores, s[a], s[b]);
    }
  }

  /**
   * The pick has `min(k, n)` distinct valid indices, in sort order, and
   * every index it leaves out comes after every index it keeps.
   */
  lemma {:induction false} TopKSelects(scores: seq<real>, k: nat)
    ensures var t := TopK(scores, k);
      && |t| == Min(k, |scores|)
      && InRange(scores, t) && Ranked(scores, t) && Distinct(t)
      && forall i: nat, j: nat :: i in t && j < |scores| && j !in t ==> Before(scores, i, j)
  {
    var n := |scores|;
    RangeFacts(n);
    var ranked := Rank(scores, Range(n));
    RankRanked(scores, Range(n));
    var t := TopK(scores, k);
    var m := Min(k, n);
    assert t == ranked[..m];
    RankedDistinct(scores, ranked);
    forall i: nat, j: nat | i in t && j < n && j !in t ensures Before(scores, i, j) {
      var a :| 0 <= a < m && ranked[a] == i;
      assert j in multiset(ranked);
      var b :| 0 <= b < n && ranked[b] == j;
    }
  }

  /** Two ranked arrangements of the same indices start with the same index. */
  lemma RankedHead(scores: seq<real>, a: seq<nat>, b: seq<nat>)
    requires Ranked(scores, a) && Ranked(scores, b) && multiset(a) == multiset(b)
    requires InRange(scores, a) && a != []
    ensures b != [] && a[0] == b[0]
  {
    assert a[0] in multiset(b) && a[0] in b;
    var i :| 0 <= i < |b| && b[i] == a[0];
    assert b[0] in multiset(a);
    var j :| 0 <= j < |a| && a[j] == b[0];
  }

  /** Without its first index, a ranked list is still ranked and holds the other indices. */
  lemma RankedTail(scores: seq<real>, a: seq<nat>)
    requires Ranked(scores, a) && a != []
    ensures Ranked(scores, a[1..])
    ensures multiset(a[1..]) == multiset(a) - multiset{a[0]}
  {
    assert a == [a[0]] + a[1..];
  }

  /**
   * The sort order is unique: any arrangement of the same indices that is
   * ranked is the one `Rank` computes. So `TopK` is the stable descending sort.
   */
  lemma {:induction false} RankedUnique(scores: seq<real>, a: seq<nat>, b: seq<nat>)
    requires Ranked(scores, a) && Ranked(scores, b) && multiset(a) == multiset(b)
    requires InRange(scores, a)
    ensures a == b
    decreases |a|
  {
    if a == [] {
      assert |b| == |multiset(b)| == 0;
    } else {
      RankedHead(scores, a, b);
      RankedTail(scores, a);
      RankedTail(scores, b);
      assert InRange(scores, a[1..]);
      RankedUnique(scores, a[1..], b[1..]);
      assert a == [a[0]] + a[1..] && b == [b[0]] + b[1..];
    }
  }

  /** The order `TopK` keeps is the stable descending sort of all indices, cut at `k`. */
  lemma {:induction false} TopKIsSortPrefix(scores: seq<real>, k: nat, sorted: seq<nat>)
    requires multiset(sorted) == multiset(Range(|scores|)) && Ranked(scores, sorted)
    ensures TopK(scores, k) == sorted[..Min(k, |sorted|)]
  {
    RangeFacts(|scores|);
    var ranked := Rank(scores, Range(|scores|));
    RankRanked(scores, Range(|scores|));
    RankedUnique(scores, ranked, sorted);
  }
}
