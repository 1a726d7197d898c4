/** Python's `dict`: a finite map that also remembers the order in which its keys
    were first inserted, which is the order `dict.values()` and `dict.items()` yield. */
module Dicts {
  import opened Seqs

  datatype Dict<K(==,!new), V> = Dict(keys: seq<K>, entries: map<K, V>)

  /** The insertion order lists every key of the map exactly once. */
  ghost predicate Valid<K(!new), V>(d: Dict<K, V>)
  {
    Distinct(d.keys) && forall k :: k in d.entries <==> k in d.keys
  }

  /** `d[k] = v`: overwrites the value of a present key in its place, appends a new key at the end. */
  function Put<K(==,!new), V>(d: Dict<K, V>, k: K, v: V): (r: Dict<K, V>)
    ensures r.entries == d.entries[k := v]
    ensures k in d.entries ==> r.keys == d.keys
    ensures k !in d.entries ==> r.keys == d.keys + [k]
  {
    if k in d.entries then Dict(d.keys, d.entries[k := v])
    else Dict(d.keys + [k], d.entries[k := v])
  }

  /** Storing a value keeps the insertion order listing every key exactly once. */
  lemma PutValid<K(!new), V>(d: Dict<K, V>, k: K, v: V)
    requires Valid(d)
    ensures Valid(Put(d, k, v))
  {
    if k !in d.entries {
      DistinctSnoc(d.keys, k);
    }
  }

  /** `d.get(k, default)`. */
  function GetOr<K(==,!new), V>(d: Dict<K, V>, k: K, default: V): V
  {
    if k in d.entries then d.entries[k] else default
  }

  /** The table that `d[k] = d.get(k, 0) + 1` builds over `ks`, starting from `{}`. */
  function Tally<K(==,!new)>(ks: seq<K>): Dict<K, int>
  {
    if |ks| == 0 then Dict([], map[])
    else
      var d, k := Tally(ks[..|ks| - 1]), ks[|ks| - 1];
      Put(d, k, GetOr(d, k, 0) + 1)
  }

  lemma TallySnoc<K(!new)>(ks: seq<K>, k: K)
    ensures Tally(ks + [k]) == Put(Tally(ks), k, GetOr(Tally(ks), k, 0) + 1)
  {
    assert (ks + [k])[..|ks|] == ks;
  }

  /** The tally lists each element once, in order of first occurrence. */
  lemma {:induction false} TallyKeys<K(!new)>(ks: seq<K>)
    ensures Valid(Tally(ks))
    ensures Tally(ks).keys == Dedup(ks)
  {
    if |ks| > 0 {
      var t, k := ks[..|ks| - 1], ks[|ks| - 1];
      assert ks == t + [k];
      TallyKeys(t);
      DedupSnoc(t, k);
      PutValid(Tally(t), k, GetOr(Tally(t), k, 0) + 1);
    }
  }

  /** The tally maps each element to its number of occurrences. */
  lemma {:induction false} TallyCounts<K(!new)>(ks: seq<K>)
    ensures forall k :: k in Tally(ks).entries ==> Tally(ks).entries[k] == multiset(ks)[k]
  {
    if |ks| > 0 {
      var t, x := ks[..|ks| - 1], ks[|ks| - 1];
      assert ks == t + [x];
      TallyCounts(t);
      var d := Tally(t);
      assert multiset(ks) == multiset(t) + multiset{x};
      forall k | k in Tally(ks).entries ensures Tally(ks).entries[k] == multiset(ks)[k] {
        if k != x {
          assert k in d.entries;
        } else if x !in d.entries {
          TallyKeys(t);
          assert x !in t;
        }
      }
    }
  }

  /** The table that `d[key(x)] = d.get(key(x), 0) + 1` builds over the elements `x` of `s`, starting from `{}`. */
  function TallyBy<T, K(==,!new)>(s: seq<T>, key: T -> K): Dict<K, int>
  {
    if |s| == 0 then Dict([], map[])
    else
      var d, k := TallyBy(s[..|s| - 1], key), key(s[|s| - 1]);
      Put(d, k, GetOr(d, k, 0) + 1)
  }

  /** The keys of the elements of `s`, in order. */
  function KeysBy<T, K>(s: seq<T>, key: T -> K): seq<K>
  {
    seq(|s|, i requires 0 <= i < |s| => key(s[i]))
  }

  lemma TallyBySnoc<T, K(!new)>(s: seq<T>, x: T, key: T -> K)
    ensures TallyBy(s + [x], key) == Put(TallyBy(s, key), key(x), GetOr(TallyBy(s, key), key(x), 0) + 1)
  {
    assert (s + [x])[..|s|] == s;
  }

  /** Tallying elements by key is tallying their keys. */
  lemma {:induction false} TallyByIsTally<T, K(!new)>(s: seq<T>, key: T -> K)
    ensures TallyBy(s, key) == Tally(KeysBy(s, key))
  {
    if |s| > 0 {
      var t, x := s[..|s| - 1], s[|s| - 1];
      TallyByIsTally(t, key);
      assert KeysBy(s, key) == KeysBy(t, key) + [key(x)];
      TallySnoc(KeysBy(t, key), key(x));
    }
  }
}
