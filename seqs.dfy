/** Facts about sequences used by the validator and the aggregator: distinctness,
    first-occurrence deduplication and occurrence counts. */
module Seqs {

  /** No element occurs twice. */
  predicate Distinct<T(==)>(s: seq<T>)
  {
    forall i, j :: 0 <= i < j < |s| ==> s[i] != s[j]
  }

  /** The set of the elements of `s` (Python's `set(v)`). */
  function Elements<T>(s: seq<T>): set<T>
  {
    set x | x in s
  }

  lemma DistinctSnoc<T>(t: seq<T>, x: T)
    ensures Distinct(t + [x]) <==> Distinct(t) && x !in t
  {
    var s := t + [x];
    if Distinct(s) {
      forall i, j | 0 <= i < j < |t| ensures t[i] != t[j] {
        assert s[i] == t[i] && s[j] == t[j];
      }
      forall k | 0 <= k < |t| ensures t[k] != x {
        assert s[k] == t[k] && s[|t|] == x;
      }
    }
  }

  /** `len(v) == len(set(v))` holds exactly when `v` has no repeated element. */
  lemma {:induction false} ElementsCardinality<T>(s: seq<T>)
    ensures |Elements(s)| <= |s|
    ensures |Elements(s)| == |s| <==> Distinct(s)
  {
    if |s| > 0 {
      var t, x := s[..|s| - 1], s[|s| - 1];
      assert s == t + [x];
      ElementsCardinality(t);
      DistinctSnoc(t, x);
      assert Elements(s) == Elements(t) + {x};
      if x in t {
        assert Elements(s) == Elements(t);
      } else {
        assert x !in Elements(t);
      }
    }
  }

  /** The elements of `s`, each kept at its first occurrence, in input order:
      the order in which a Python dict sees its keys inserted. */
  function Dedup<T(==,!new)>(s: seq<T>): (r: seq<T>)
    ensures Distinct(r)
    ensures forall x :: x in r <==> x in s
    ensures |r| <= |s|
  {
    if |s| == 0 then []
    else
      var t, x := s[..|s| - 1], s[|s| - 1];
      assert s == t + [x];
      var d := Dedup(t);
      DistinctSnoc(d, x);
      if x in d then d else d + [x]
  }

  lemma DedupSnoc<T(!new)>(t: seq<T>, x: T)
    ensures Dedup(t + [x]) == if x in t then Dedup(t) else Dedup(t) + [x]
  {
    assert (t + [x])[..|t|] == t;
  }

  lemma ConcatAssoc<T>(a: seq<T>, b: seq<T>, c: seq<T>)
    ensures a + (b + c) == a + b + c
  {
  }

  lemma ConcatTail<T>(a: seq<T>, b: seq<T>)
    requires |a| > 0
    ensures (a + b)[0] == a[0] && (a + b)[1..] == a[1..] + b
  {
  }

  lemma HeadTail<T>(s: seq<T>)
    requires |s| > 0
    ensures s == [s[0]] + s[1..]
  {
  }

  lemma PrefixSnoc<T>(s: seq<T>, j: nat)
    requires j < |s|
    ensures s[..j + 1] == s[..j] + [s[j]]
  {
  }

  /** Position of the first occurrence of `x` in `s`. */
  function IndexOf<T(==)>(s: seq<T>, x: T): (i: nat)
    requires x in s
    ensures i < |s| && s[i] == x && x !in s[..i]
  {
    if s[0] == x then 0 else 1 + IndexOf(s[1..], x)
  }

  lemma {:induction false} IndexOfSnoc<T>(t: seq<T>, y: T, x: T)
    requires x in t
    ensures IndexOf(t + [y], x) == IndexOf(t, x)
  {
    if t[0] != x {
      assert (t + [y])[1..] == t[1..] + [y];
      IndexOfSnoc(t[1..], y, x);
    }
  }

  /** Deduplication keeps the order of first occurrences. */
  lemma {:induction false} DedupFirstOccurrenceOrder<T(!new)>(s: seq<T>, j: nat, k: nat)
    requires j < k < |Dedup(s)|
    ensures IndexOf(s, Dedup(s)[j]) < IndexOf(s, Dedup(s)[k])
  {
    var t, x := s[..|s| - 1], s[|s| - 1];
    assert s == t + [x];
    DedupSnoc(t, x);
    var d := Dedup(t);
    if k < |d| {
      DedupFirstOccurrenceOrder(t, j, k);
      IndexOfSnoc(t, x, d[j]);
      IndexOfSnoc(t, x, d[k]);
    } else {
      assert x !in t && Dedup(s)[k] == x;
      IndexOfSnoc(t, x, d[j]);
      assert IndexOf(s, x) == |t|;
    }
  }

  /** The sum of the counts `m[k]` over the keys `ks`. */
  function SumCounts<T>(ks: seq<T>, m: multiset<T>): int
  {
    if |ks| == 0 then 0 else SumCounts(ks[..|ks| - 1], m) + m[ks[|ks| - 1]]
  }

  lemma {:induction false} SumCountsAdd<T>(ks: seq<T>, m: multiset<T>, x: T)
    requires Distinct(ks)
    ensures SumCounts(ks, m + multiset{x}) == SumCounts(ks, m) + (if x in ks then 1 else 0)
  {
    if |ks| > 0 {
      var t, k := ks[..|ks| - 1], ks[|ks| - 1];
      assert ks == t + [k];
      DistinctSnoc(t, k);
      SumCountsAdd(t, m, x);
    }
  }

  lemma SumCountsSnoc<T>(ks: seq<T>, k: T, m: multiset<T>)
    ensures SumCounts(ks + [k], m) == SumCounts(ks, m) + m[k]
  {
    assert (ks + [k])[..|ks|] == ks;
  }

  /** Counting every distinct element once, by its number of occurrences,
      gives back the length of the sequence. */
  lemma {:induction false} SumCountsOfDedup<T(!new)>(s: seq<T>)
    ensures SumCounts(Dedup(s), multiset(s)) == |s|
  {
    if |s| > 0 {
      var t, x := s[..|s| - 1], s[|s| - 1];
      assert s == t + [x];
      assert multiset(s) == multiset(t) + multiset{x};
      DedupSnoc(t, x);
      SumCountsOfDedup(t);
      SumCountsAdd(Dedup(t), multiset(t), x);
      if x !in t {
        SumCountsSnoc(Dedup(t), x, multiset(s));
        assert multiset(t)[x] == 0;
      }
    }
  }
}
