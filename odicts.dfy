/**
 * Python's `dict` keeps its keys in insertion order, and the pipeline's
 * output order depends on it (lemma lines, ties between equally scored
 * documents). An ODict is a map together with the order its keys were
 * first inserted; `Counter` is an ODict of counts.
 */
module ODicts {

  datatype ODict<K, V> = ODict(keys: seq<K>, at: map<K, V>)

  predicate Distinct<K(==)>(s: seq<K>) {
    forall i, j :: 0 <= i < j < |s| ==> s[i] != s[j]
  }

  /** The order lists every key of the map exactly once. */
  ghost predicate Valid<K(!new), V>(d: ODict<K, V>) {
    Distinct(d.keys) && forall k :: k in d.at <==> k in d.keys
  }

  /** `{}` */
  function Empty<K(==,!new), V>(): (r: ODict<K, V>)
    ensures Valid(r) && r.keys == [] && r.at == map[]
  {
    ODict([], map[])
  }

  /**
   * `d[k] = v`: the value is replaced, and a key that is already present
   * keeps its original position; a new key goes last.
   */
  function Put<K(==,!new), V>(d: ODict<K, V>, k: K, v: V): (r: ODict<K, V>)
    requires Valid(d)
    ensures Valid(r) && r.at == d.at[k := v]
    ensures r.keys == if k in d.at then d.keys else d.keys + [k]
  {
    if k in d.at then ODict(d.keys, d.at[k := v])
    else ODict(d.keys + [k], d.at[k := v])
  }

  /** `d.get(k, dflt)` */
  function Get<K, V>(d: ODict<K, V>, k: K, dflt: V): V {
    if k in d.at then d.at[k] else dflt
  }

  /** `list(d.values())` */
  function Values<K(==,!new), V>(d: ODict<K, V>): (r: seq<V>)
    requires Valid(d)
    ensures |r| == |d.keys| && forall i :: 0 <= i < |r| ==> r[i] == d.at[d.keys[i]]
  {
    seq(|d.keys|, i requires 0 <= i < |d.keys| => d.at[d.keys[i]])
  }

  /** Replacing the value of a present key replaces it in place in the values. */
  lemma ValuesPutPresent<K(!new), V>(d: ODict<K, V>, k: K, v: V) returns (i: nat)
    requires Valid(d) && k in d.at
    ensures i < |d.keys| && d.keys[i] == k
    ensures Values(Put(d, k, v)) == Values(d)[i := v]
  {
    i :| 0 <= i < |d.keys| && d.keys[i] == k;
    var a, b := Values(Put(d, k, v)), Values(d)[i := v];
    assert |a| == |b|;
    forall j | 0 <= j < |a| ensures a[j] == b[j] {
      if j != i {
        assert d.keys[j] != k;
      }
    }
  }

  /** A new key appends its value to the values. */
  lemma ValuesPutNew<K(!new), V>(d: ODict<K, V>, k: K, v: V)
    requires Valid(d) && k !in d.at
    ensures Values(Put(d, k, v)) == Values(d) + [v]
  {
    var a, b := Values(Put(d, k, v)), Values(d) + [v];
    assert |a| == |b|;
    forall j | 0 <= j < |a| ensures a[j] == b[j] {
      if j < |d.keys| {
        assert d.keys[j] != k;
      }
    }
  }

  // ---------------------------------------------------------------------
  // Counter

  /** Number of occurrences of `x` in `s` (`s.count(x)`). */
  function Occurrences<K(==)>(s: seq<K>, x: K): nat {
    if s == [] then 0
    else Occurrences(s[..|s| - 1], x) + (if s[|s| - 1] == x then 1 else 0)
  }

  /** `Counter(s)`: each distinct element, in order of first occurrence, with its count. */
  function Tally<K(==,!new)>(s: seq<K>): (r: ODict<K, nat>)
    ensures Valid(r)
    ensures forall x :: x in r.at <==> x in s
    decreases |s|
  {
    if s == [] then Empty()
    else
      var d := Tally(s[..|s| - 1]);
      var x := s[|s| - 1];
      assert forall y :: y in s <==> y in s[..|s| - 1] || y == x;
      Put(d, x, Get(d, x, 0) + 1)
  }

  /** Every count of `Counter(s)` is the number of occurrences, and is positive. */
  lemma {:induction false} TallyCounts<K(!new)>(s: seq<K>, x: K)
    requires x in s
    ensures Tally(s).at[x] == Occurrences(s, x) > 0
    decreases |s|
  {
    var init := s[..|s| - 1];
    if x in init {
      TallyCounts(init, x);
    } else {
      OccurrencesAbsent(init, x);
    }
  }

  lemma {:induction false} OccurrencesAbsent<K>(s: seq<K>, x: K)
    requires x !in s
    ensures Occurrences(s, x) == 0
    decreases |s|
  {
    if s != [] {
      assert s[..|s| - 1] <= s;
      OccurrencesAbsent(s[..|s| - 1], x);
    }
  }
}
