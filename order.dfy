/**
 * Python's orderings and its `sorted`: integers, strings (code-point
 * lexicographic order) and a stable descending sort on scores.
 */
module Order {

  // ---------------------------------------------------------------------
  // Strings

  /** Python's `a <= b` on str. */
  predicate StrLe(a: string, b: string)
    decreases |a|
  {
    if a == [] then true
    else if b == [] then false
    else if a[0] != b[0] then a[0] < b[0]
    else StrLe(a[1..], b[1..])
  }

  predicate StrLt(a: string, b: string) {
    StrLe(a, b) && a != b
  }

  lemma {:induction false} StrLeTotal(a: string, b: string)
    ensures StrLe(a, b) || StrLe(b, a)
    decreases |a|
  {
    if a != [] && b != [] && a[0] == b[0] {
      StrLeTotal(a[1..], b[1..]);
    }
  }

  lemma {:induction false} StrLeAntisymmetric(a: string, b: string)
    requires StrLe(a, b) && StrLe(b, a)
    ensures a == b
    decreases |a|
  {
    if a != [] && b != [] {
      StrLeAntisymmetric(a[1..], b[1..]);
      assert a == [a[0]] + a[1..] && b == [b[0]] + b[1..];
    }
  }

  lemma {:induction false} StrLeTransitive(a: string, b: string, c: string)
    requires StrLe(a, b) && StrLe(b, c)
    ensures StrLe(a, c)
    decreases |a|
  {
    if a != [] && b != [] && c != [] && a[0] == b[0] && b[0] == c[0] {
      StrLeTransitive(a[1..], b[1..], c[1..]);
    }
  }

  lemma {:induction false} StrLeReflexive(a: string)
    ensures StrLe(a, a)
    decreases |a|
  {
    if a != [] {
      StrLeReflexive(a[1..]);
    }
  }

  lemma StrLeAntisymmetricAll()
    ensures forall a, b :: StrLe(a, b) && StrLe(b, a) ==> a == b
  {
    forall a, b | StrLe(a, b) && StrLe(b, a) ensures a == b {
      StrLeAntisymmetric(a, b);
    }
  }

  // ---------------------------------------------------------------------
  // Sorted sequences

  predicate Increasing(s: seq<int>) {
    forall i, j :: 0 <= i < j < |s| ==> s[i] < s[j]
  }

  predicate NonDecreasing(s: seq<int>) {
    forall i, j :: 0 <= i < j < |s| ==> s[i] <= s[j]
  }

  predicate StrIncreasing(s: seq<string>) {
    forall i, j :: 0 <= i < j < |s| ==> StrLt(s[i], s[j])
  }

  predicate IsMin(m: int, s: set<int>) {
    m in s && forall x :: x in s ==> m <= x
  }

  predicate IsStrMin(m: string, s: set<string>) {
    m in s && forall x :: x in s ==> StrLe(m, x)
  }

  lemma IntMinExists(s: set<int>)
    requires s != {}
    ensures exists m :: IsMin(m, s)
    decreases |s|
  {
    var y := Pick(s);
    if s == {y} {
      assert IsMin(y, s);
    } else {
      var t := s - {y};
      IntMinExists(t);
      var m :| IsMin(m, t);
      var k := if y < m then y else m;
      forall x | x in s ensures k <= x {
        if x != y {
          assert x in t;
        }
      }
      assert IsMin(k, s);
    }
  }

  /** Some element of a non-empty set. */
  ghost function Pick<T>(s: set<T>): (x: T)
    requires s != {}
    ensures x in s
  {
    var x :| x in s; x
  }

  lemma IntMinUnique(s: set<int>)
    ensures forall m, m' :: IsMin(m, s) && IsMin(m', s) ==> m == m'
  {
  }

  lemma StrMinExists(s: set<string>)
    requires s != {}
    ensures exists m :: IsStrMin(m, s)
    decreases |s|
  {
    var y :| y in s;
    StrLeReflexive(y);
    if s == {y} {
      assert IsStrMin(y, s);
    } else {
      var t := s - {y};
      StrMinExists(t);
      var m :| IsStrMin(m, t);
      StrLeTotal(y, m);
      if StrLe(y, m) {
        forall x | x in s ensures StrLe(y, x) {
          if x != y {
            assert x in t;
            StrLeTransitive(y, m, x);
          }
        }
        assert IsStrMin(y, s);
      } else {
        forall x | x in s ensures StrLe(m, x) {
          if x != y {
            assert x in t;
          }
        }
        assert IsStrMin(m, s);
      }
    }
  }

  lemma StrMinUnique(s: set<string>)
    ensures forall m, m' :: IsStrMin(m, s) && IsStrMin(m', s) ==> m == m'
  {
    forall m, m' | IsStrMin(m, s) && IsStrMin(m', s) ensures m == m' {
      StrLeAntisymmetric(m, m');
    }
  }

  /** `sorted(s)` for a set of integers: ascending and duplicate-free. */
  function SortedSet(s: set<int>): (r: seq<int>)
    ensures Increasing(r) && |r| == |s|
    ensures forall x :: x in r <==> x in s
    decreases |s|
  {
    if s == {} then []
    else
      IntMinExists(s);
      IntMinUnique(s);
      var m :| IsMin(m, s);
      var rest := SortedSet(s - {m});
      assert forall j :: 0 <= j < |rest| ==> m < rest[j] by {
        forall j | 0 <= j < |rest| ensures m < rest[j] {
          assert rest[j] in s - {m};
        }
      }
      [m] + rest
  }

  /** `sorted(s)` for a set of strings: ascending and duplicate-free. */
  function SortedStrSet(s: set<string>): (r: seq<string>)
    ensures StrIncreasing(r) && |r| == |s|
    ensures forall x :: x in r <==> x in s
    decreases |s|
  {
    if s == {} then []
    else
      StrMinExists(s);
      StrMinUnique(s);
      var m :| IsStrMin(m, s);
      var rest := SortedStrSet(s - {m});
      assert forall j :: 0 <= j < |rest| ==> StrLt(m, rest[j]) by {
        forall j | 0 <= j < |rest| ensures StrLt(m, rest[j]) {
          assert rest[j] in s - {m};
        }
      }
      StrIncreasingCons(m, rest);
      [m] + rest
  }

  lemma StrIncreasingCons(m: string, rest: seq<string>)
    requires StrIncreasing(rest)
    requires forall j :: 0 <= j < |rest| ==> StrLt(m, rest[j])
    ensures StrIncreasing([m] + rest)
  {
    var r := [m] + rest;
    forall i, j | 0 <= i < j < |r| ensures StrLt(r[i], r[j]) {
      if i > 0 {
        assert r[i] == rest[i - 1] && r[j] == rest[j - 1];
      } else {
        assert r[j] == rest[j - 1];
      }
    }
  }

  /** A strictly ascending sequence holds each element at one position only. */
  lemma StrIncreasingInjective(s: seq<string>, i: nat, j: nat)
    requires StrIncreasing(s) && i < |s| && j < |s| && s[i] == s[j]
    ensures i == j
  {
  }

  /**
   * An ascending duplicate-free sequence is determined by its elements:
   * whatever computes `sorted(s)` for a set agrees with SortedSet.
   */
  lemma {:induction false} IncreasingUnique(a: seq<int>, b: seq<int>)
    requires Increasing(a) && Increasing(b)
    requires forall x :: x in a <==> x in b
    ensures a == b
    decreases |a|
  {
    assert a != [] ==> a[0] in a && a[0] in b;
    assert b != [] ==> b[0] in b && b[0] in a;
    if a != [] && b != [] {
      HeadsAgree(a, b);
      TailsAgree(a, b);
      IncreasingUnique(a[1..], b[1..]);
      assert a == [a[0]] + a[1..] && b == [b[0]] + b[1..];
    }
  }

  lemma HeadsAgree(a: seq<int>, b: seq<int>)
    requires Increasing(a) && Increasing(b) && a != [] && b != []
    requires forall x :: x in a <==> x in b
    ensures a[0] == b[0]
  {
    assert a[0] in b && b[0] in a;
    var i :| 0 <= i < |a| && a[i] == b[0];
    var j :| 0 <= j < |b| && b[j] == a[0];
    assert a[0] <= a[i] && b[0] <= b[j];
  }

  lemma TailsAgree(a: seq<int>, b: seq<int>)
    requires Increasing(a) && Increasing(b) && a != [] && b != [] && a[0] == b[0]
    requires forall x :: x in a <==> x in b
    ensures Increasing(a[1..]) && Increasing(b[1..])
    ensures forall x :: x in a[1..] <==> x in b[1..]
  {
    forall x ensures x in a[1..] <==> x in b[1..] {
      if x in a[1..] {
        var i :| 1 <= i < |a| && a[i] == x;
        assert x in b && x != b[0];
      }
      if x in b[1..] {
        var j :| 1 <= j < |b| && b[j] == x;
        assert x in a && x != a[0];
      }
    }
  }

  // ---------------------------------------------------------------------
  // sorted(list) on integers

  /** Where `x` goes into a non-decreasing list: after every smaller element. */
  function InsertPos(x: int, s: seq<int>): (k: nat)
    ensures k <= |s| && (forall i :: 0 <= i < k ==> s[i] < x) && (k < |s| ==> x <= s[k])
  {
    if s == [] || x <= s[0] then 0 else 1 + InsertPos(x, s[1..])
  }

  function InsertInt(x: int, s: seq<int>): (r: seq<int>)
    requires NonDecreasing(s)
    ensures NonDecreasing(r) && multiset(r) == multiset(s) + multiset{x}
  {
    var k := InsertPos(x, s);
    InsertAtSorted(x, s, k);
    InsertAtCounts(x, s, k);
    s[..k] + [x] + s[k..]
  }

  lemma InsertAtSorted(x: int, s: seq<int>, k: nat)
    requires NonDecreasing(s) && k <= |s|
    requires (forall i :: 0 <= i < k ==> s[i] < x) && (k < |s| ==> x <= s[k])
    ensures NonDecreasing(s[..k] + [x] + s[k..])
  {
    var r := s[..k] + [x] + s[k..];
    assert forall i :: 0 <= i < |r| ==> r[i] == if i < k then s[i] else if i == k then x else s[i - 1];
    forall i, j | 0 <= i < j < |r| ensures r[i] <= r[j] {
      if i < k && k < j {
        assert s[i] <= s[k] <= s[j - 1];
      }
    }
  }

  lemma InsertAtCounts(x: int, s: seq<int>, k: nat)
    requires k <= |s|
    ensures multiset(s[..k] + [x] + s[k..]) == multiset(s) + multiset{x}
  {
    assert s == s[..k] + s[k..];
  }

  /** `sorted(list)` on integers: non-decreasing and a permutation. */
  function SortInts(s: seq<int>): (r: seq<int>)
    ensures NonDecreasing(r) && multiset(r) == multiset(s)
  {
    if s == [] then []
    else
      assert s == [s[0]] + s[1..];
      InsertInt(s[0], SortInts(s[1..]))
  }

  /** A list that is already ascending comes back from `sorted` unchanged. */
  lemma {:induction false} SortIntsOfIncreasing(s: seq<int>)
    requires Increasing(s)
    ensures SortInts(s) == s
  {
    if s != [] {
      SortIntsOfIncreasing(s[1..]);
      assert InsertPos(s[0], s[1..]) == 0;
      assert s == [s[0]] + s[1..];
    }
  }

  // ---------------------------------------------------------------------
  // sorted(items, key=score, reverse=True), which is stable

  predicate ScoreDescending<T>(s: seq<(T, real)>) {
    forall i, j :: 0 <= i < j < |s| ==> s[i].1 >= s[j].1
  }

  /** The entries of `s` whose score is `v`, in order. */
  function Ties<T>(s: seq<(T, real)>, v: real): seq<(T, real)> {
    if s == [] then []
    else (if s[0].1 == v then [s[0]] else []) + Ties(s[1..], v)
  }

  /** Where `x` goes into a score-descending list: after every higher score. */
  function ScorePos<T>(x: (T, real), s: seq<(T, real)>): (k: nat)
    ensures k <= |s| && (forall i :: 0 <= i < k ==> s[i].1 > x.1) && (k < |s| ==> s[k].1 <= x.1)
  {
    if s == [] || s[0].1 <= x.1 then 0 else 1 + ScorePos(x, s[1..])
  }

  function InsertByScore<T(==)>(x: (T, real), s: seq<(T, real)>): (r: seq<(T, real)>)
    requires ScoreDescending(s)
    ensures ScoreDescending(r) && multiset(r) == multiset(s) + multiset{x}
  {
    var k := ScorePos(x, s);
    assert s == s[..k] + s[k..];
    InsertedDescending(x, s, k);
    s[..k] + [x] + s[k..]
  }

  lemma InsertedDescending<T>(x: (T, real), s: seq<(T, real)>, k: nat)
    requires ScoreDescending(s) && k <= |s|
    requires (forall i :: 0 <= i < k ==> s[i].1 > x.1) && (k < |s| ==> s[k].1 <= x.1)
    ensures ScoreDescending(s[..k] + [x] + s[k..])
  {
    var r := s[..k] + [x] + s[k..];
    forall i, j | 0 <= i < j < |r| ensures r[i].1 >= r[j].1 {
      if j < k {
        assert r[i] == s[i] && r[j] == s[j];
      } else if j == k {
        assert r[i] == s[i] && r[j] == x;
      } else if i == k {
        assert r[j] == s[j - 1] && s[k].1 >= s[j - 1].1;
      } else if i < k {
        assert r[i] == s[i] && r[j] == s[j - 1];
      } else {
        assert r[i] == s[i - 1] && r[j] == s[j - 1];
      }
    }
  }

  /**
   * Python's stable `sorted(..., key=lambda x: x[1], reverse=True)`:
   * non-increasing scores, a permutation of the input.
   */
  function SortByScore<T(==)>(s: seq<(T, real)>): (r: seq<(T, real)>)
    ensures ScoreDescending(r) && multiset(r) == multiset(s)
  {
    if s == [] then []
    else
      assert s == [s[0]] + s[1..];
      InsertByScore(s[0], SortByScore(s[1..]))
  }

  lemma {:induction false} TiesAppend<T>(a: seq<(T, real)>, b: seq<(T, real)>, v: real)
    ensures Ties(a + b, v) == Ties(a, v) + Ties(b, v)
    decreases |a|
  {
    if a == [] {
      assert a + b == b;
    } else {
      assert (a + b)[0] == a[0] && (a + b)[1..] == a[1..] + b;
      TiesAppend(a[1..], b, v);
      var h := if a[0].1 == v then [a[0]] else [];
      assert Ties(a + b, v) == h + Ties(a[1..] + b, v);
      assert h + (Ties(a[1..], v) + Ties(b, v)) == (h + Ties(a[1..], v)) + Ties(b, v);
    }
  }

  lemma {:induction false} TiesAbove<T>(a: seq<(T, real)>, v: real)
    requires forall i :: 0 <= i < |a| ==> a[i].1 > v
    ensures Ties(a, v) == []
    decreases |a|
  {
    if a != [] {
      TiesAbove(a[1..], v);
    }
  }

  lemma InsertByScoreTies<T>(x: (T, real), s: seq<(T, real)>, v: real)
    requires ScoreDescending(s)
    ensures Ties(InsertByScore(x, s), v) == (if x.1 == v then [x] else []) + Ties(s, v)
  {
    var k := ScorePos(x, s);
    assert s == s[..k] + s[k..];
    TiesInsertAt(s[..k], x, s[k..], v);
  }

  lemma TiesInsertAt<T>(a: seq<(T, real)>, x: (T, real), b: seq<(T, real)>, v: real)
    requires forall i :: 0 <= i < |a| ==> a[i].1 > x.1
    ensures Ties(a + [x] + b, v) == (if x.1 == v then [x] else []) + Ties(a + b, v)
  {
    TiesAppend(a, b, v);
    TiesAppend(a + [x], b, v);
    TiesAppend(a, [x], v);
    assert Ties([x], v) == (if x.1 == v then [x] else []) + Ties([], v);
    if x.1 == v {
      TiesAbove(a, v);
    }
  }

  /** Entries with equal scores keep their input order: the sort is stable. */
  lemma {:induction false} SortByScoreStable<T>(s: seq<(T, real)>, v: real)
    ensures Ties(SortByScore(s), v) == Ties(s, v)
  {
    if s != [] {
      SortByScoreStable(s[1..], v);
      InsertByScoreTies(s[0], SortByScore(s[1..]), v);
    }
  }
}
