/** Small facts about sequences that several components share. */
module Seqs {

  /** No element occurs twice (a Python list used as a queue without repeats, or a dict's key list). */
  ghost predicate Distinct<T>(s: seq<T>) {
    forall i, j :: 0 <= i < j < |s| ==> s[i] != s[j]
  }

  /** `p` occurs contiguously in `s`, starting at index `k`. */
  predicate OccursAt<T(==)>(p: seq<T>, s: seq<T>, k: int) {
    0 <= k <= |s| - |p| && s[k..k + |p|] == p
  }

  /** An occurrence stays put when more is appended. */
  lemma OccursInPrefix<T>(p: seq<T>, a: seq<T>, b: seq<T>, k: int)
    requires OccursAt(p, a, k)
    ensures OccursAt(p, a + b, k)
  {
    assert (a + b)[k..k + |p|] == a[k..k + |p|];
  }

  /** The appended part occurs right after the front. */
  lemma OccursAtEnd<T>(a: seq<T>, b: seq<T>)
    ensures OccursAt(b, a + b, |a|)
  {
    assert (a + b)[|a|..|a| + |b|] == b;
  }

  /** The set of elements of a sequence. */
  function Elems<T>(s: seq<T>): set<T> {
    set x | x in s
  }

  /** A sequence without repeats has as many elements as its set. */
  lemma {:induction false} DistinctCard<T>(s: seq<T>)
    requires Distinct(s)
    ensures |Elems(s)| == |s|
  {
    if s != [] {
      DistinctCard(s[1..]);
      assert Elems(s) == Elems(s[1..]) + {s[0]};
      assert s[0] !in Elems(s[1..]) by {
        forall i | 1 <= i < |s| ensures s[i] != s[0] { }
      }
    }
  }

  /** Appending a new element keeps a sequence without repeats and adds it to the set. */
  lemma DistinctAppend<T>(s: seq<T>, x: T)
    requires Distinct(s) && x !in s
    ensures Distinct(s + [x]) && Elems(s + [x]) == Elems(s) + {x}
  {
  }

  /** An element of an extension of `a` is in `a` or in what was added. */
  lemma InPrefixOrRest<T>(a: seq<T>, b: seq<T>, x: T)
    requires a <= b && x in b
    ensures x in a || x in b[|a|..]
  {
    assert b == a + b[|a|..];
  }

  /** All the elements of `s` except the occurrences of `x`, in order. */
  function Without<T(==,!new)>(s: seq<T>, x: T): (r: seq<T>)
    ensures forall y :: y in r <==> y in s && y != x
    ensures Distinct(s) ==> Distinct(r)
    ensures |r| <= |s|
  {
    if s == [] then []
    else if s[0] == x then Without(s[1..], x)
    else
      var rest := Without(s[1..], x);
      assert forall i :: 0 <= i < |rest| ==> rest[i] in s[1..];
      [s[0]] + rest
  }

  /** The concatenation of a sequence of sequences (Python's `list.extend` applied in turn). */
  function Concat<T>(ss: seq<seq<T>>): seq<T> {
    if ss == [] then [] else ss[0] + Concat(ss[1..])
  }

  /** The sum of the lengths of a list of strings (the running `char_count`). */
  function SumLen<T>(ss: seq<seq<T>>): nat {
    if ss == [] then 0 else |ss[0]| + SumLen(ss[1..])
  }

  lemma {:induction false} ConcatLength<T>(ss: seq<seq<T>>)
    ensures |Concat(ss)| == SumLen(ss)
  {
    if ss != [] { ConcatLength(ss[1..]); }
  }

  lemma {:induction false} SumLenAppend<T>(ss: seq<seq<T>>, t: seq<T>)
    ensures SumLen(ss + [t]) == SumLen(ss) + |t|
  {
    if ss != [] {
      assert (ss + [t])[1..] == ss[1..] + [t];
      SumLenAppend(ss[1..], t);
    }
  }
}
