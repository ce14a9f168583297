/**
 * The ranked retrieval engine of one mode (tokens or lemmas): every weight
 * file `term idf tf-idf` of the mode's directory is a document vector over
 * the sorted vocabulary, a query becomes a vector of TF-IDF weights in the
 * same space, and documents are ranked by cosine similarity.
 *
 * The file system is a map from file name to the file's lines together
 * with the listing order; `float()`, `np.linalg.norm` and the
 * morphological analyser's `normal_form` are parameters.
 */
module VectorSearch {
  import opened Wrappers
  import opened Text
  import opened Order
  import opened ODicts
  import TfIdf

  datatype Mode = Tokens | Lemmas

  /** Abbreviations that never become query terms. */
  const QueryStopwords: set<string> := {"т.д.", "др.", "т.п."}

  /** A norm below this counts as zero (`1e-9`). */
  const NormFloor: real := 0.000000001

  /** Only documents scoring above this are results (`1e-6`). */
  const ScoreFloor: real := 0.000001

  // ---------------------------------------------------------------------
  // Loading, pass one: `term_idf` and the vocabulary

  /** The state of the first pass: `self.term_idf` and the local `terms`. */
  datatype Vocabulary = Vocabulary(idf: map<string, real>, seen: set<string>)

  /** `term, idf, _ = line.strip().split()`, then `float(idf)`. */
  function IdfLine(acc: Result<Vocabulary>, f: seq<string>, parseFloat: string -> Option<real>): Result<Vocabulary> {
    match acc
    case Err(why) => Err(why)
    case Ok(v) =>
      if |f| != 3 then Err("ValueError")
      else match parseFloat(f[1])
        case None => Err("ValueError")
        case Some(x) => Ok(Vocabulary(v.idf[f[0] := x], v.seen + {f[0]}))
  }

  /** Pass one over the fields of the lines of one file. */
  function IdfLines(acc: Result<Vocabulary>, fs: seq<seq<string>>, parseFloat: string -> Option<real>): Result<Vocabulary>
    decreases |fs|
  {
    if fs == [] then acc else IdfLine(IdfLines(acc, fs[..|fs| - 1], parseFloat), fs[|fs| - 1], parseFloat)
  }

  /** Pass one over every file of the listing, in listing order. */
  function IdfFiles(acc: Result<Vocabulary>, dir: map<string, seq<string>>, names: seq<string>,
                    parseFloat: string -> Option<real>): Result<Vocabulary>
    requires forall k :: 0 <= k < |names| ==> names[k] in dir
    decreases |names|
  {
    if names == [] then acc
    else IdfLines(IdfFiles(acc, dir, names[..|names| - 1], parseFloat), FieldsOf(dir[names[|names| - 1]]), parseFloat)
  }

  lemma {:induction false} IdfLinesErr(why: string, fs: seq<seq<string>>, parseFloat: string -> Option<real>)
    ensures IdfLines(Err(why), fs, parseFloat) == Err(why)
    decreases |fs|
  {
    if fs != [] {
      IdfLinesErr(why, fs[..|fs| - 1], parseFloat);
    }
  }

  /** A failing line ends pass one with its error. */
  lemma {:induction false} IdfLinesFails(acc: Result<Vocabulary>, fs: seq<seq<string>>, j: nat, why: string,
                                         parseFloat: string -> Option<real>)
    requires j < |fs| && IdfLines(acc, fs[..j + 1], parseFloat) == Err(why)
    ensures IdfLines(acc, fs, parseFloat) == Err(why)
    decreases |fs|
  {
    if j + 1 == |fs| {
      assert fs[..j + 1] == fs;
    } else {
      var init := fs[..|fs| - 1];
      assert init[..j + 1] == fs[..j + 1];
      IdfLinesFails(acc, init, j, why, parseFloat);
    }
  }

  lemma IdfLinesStep(acc: Result<Vocabulary>, fs: seq<seq<string>>, j: nat, parseFloat: string -> Option<real>)
    requires j < |fs|
    ensures IdfLines(acc, fs[..j + 1], parseFloat) == IdfLine(IdfLines(acc, fs[..j], parseFloat), fs[j], parseFloat)
  {
    assert fs[..j + 1][..j] == fs[..j];
  }

  lemma IdfFilesStep(acc: Result<Vocabulary>, dir: map<string, seq<string>>, names: seq<string>, i: nat,
                     parseFloat: string -> Option<real>)
    requires i < |names| && forall k :: 0 <= k < |names| ==> names[k] in dir
    ensures IdfFiles(acc, dir, names[..i + 1], parseFloat)
         == IdfLines(IdfFiles(acc, dir, names[..i], parseFloat), FieldsOf(dir[names[i]]), parseFloat)
  {
    assert names[..i + 1][..i] == names[..i];
  }

  lemma {:induction false} IdfFilesErr(why: string, dir: map<string, seq<string>>, names: seq<string>,
                                       parseFloat: string -> Option<real>)
    requires forall k :: 0 <= k < |names| ==> names[k] in dir
    ensures IdfFiles(Err(why), dir, names, parseFloat) == Err(why)
    decreases |names|
  {
    if names != [] {
      IdfFilesErr(why, dir, names[..|names| - 1], parseFloat);
      IdfLinesErr(why, FieldsOf(dir[names[|names| - 1]]), parseFloat);
    }
  }

  /** A failing file ends pass one with its error. */
  lemma {:induction false} IdfFilesFails(acc: Result<Vocabulary>, dir: map<string, seq<string>>, names: seq<string>,
                                         i: nat, why: string, parseFloat: string -> Option<real>)
    requires i < |names| && forall k :: 0 <= k < |names| ==> names[k] in dir
    requires IdfFiles(acc, dir, names[..i + 1], parseFloat) == Err(why)
    ensures IdfFiles(acc, dir, names, parseFloat) == Err(why)
    decreases |names|
  {
    if i + 1 == |names| {
      assert names[..i + 1] == names;
    } else {
      var init := names[..|names| - 1];
      assert init[..i + 1] == names[..i + 1];
      IdfFilesFails(acc, dir, init, i, why, parseFloat);
      IdfLinesErr(why, FieldsOf(dir[names[|names| - 1]]), parseFloat);
    }
  }

  /** Every line has three fields and its term was registered. */
  predicate WellFormed(fs: seq<seq<string>>, terms: set<string>) {
    forall k :: 0 <= k < |fs| ==> |fs[k]| == 3 && fs[k][0] in terms
  }

  /** After pass one succeeds on a file, every line of it was well formed, and no term was forgotten. */
  lemma {:induction false} IdfLinesOk(acc: Vocabulary, fs: seq<seq<string>>, parseFloat: string -> Option<real>)
    requires IdfLines(Ok(acc), fs, parseFloat).Ok?
    ensures acc.seen <= IdfLines(Ok(acc), fs, parseFloat).value.seen
    ensures WellFormed(fs, IdfLines(Ok(acc), fs, parseFloat).value.seen)
    decreases |fs|
  {
    if fs != [] {
      var init := fs[..|fs| - 1];
      IdfLinesOk(acc, init, parseFloat);
      var last := IdfLines(Ok(acc), fs, parseFloat).value;
      assert WellFormed(fs, last.seen) by {
        forall k | 0 <= k < |fs| ensures |fs[k]| == 3 && fs[k][0] in last.seen {
          if k < |fs| - 1 {
            assert fs[k] == init[k];
          }
        }
      }
    }
  }

  lemma WellFormedWider(fs: seq<seq<string>>, a: set<string>, b: set<string>)
    requires WellFormed(fs, a) && a <= b
    ensures WellFormed(fs, b)
  {
  }

  /** After pass one succeeds, every line of every file was well formed. */
  lemma {:induction false} IdfFilesOk(acc: Vocabulary, dir: map<string, seq<string>>, names: seq<string>,
                                      parseFloat: string -> Option<real>)
    requires forall k :: 0 <= k < |names| ==> names[k] in dir
    requires IdfFiles(Ok(acc), dir, names, parseFloat).Ok?
    ensures acc.seen <= IdfFiles(Ok(acc), dir, names, parseFloat).value.seen
    ensures forall k :: 0 <= k < |names| ==>
      WellFormed(FieldsOf(dir[names[k]]), IdfFiles(Ok(acc), dir, names, parseFloat).value.seen)
    decreases |names|
  {
    if names != [] {
      var init := names[..|names| - 1];
      var fs := FieldsOf(dir[names[|names| - 1]]);
      var mid := IdfFiles(Ok(acc), dir, init, parseFloat);
      if mid.Err? {
        IdfLinesErr(mid.why, fs, parseFloat);
        assert false;
      }
      IdfFilesOk(acc, dir, init, parseFloat);
      IdfLinesOk(mid.value, fs, parseFloat);
      var last := IdfFiles(Ok(acc), dir, names, parseFloat).value;
      forall k | 0 <= k < |names| ensures WellFormed(FieldsOf(dir[names[k]]), last.seen) {
        if k < |names| - 1 {
          assert names[k] == init[k];
          WellFormedWider(FieldsOf(dir[init[k]]), mid.value.seen, last.seen);
        }
      }
    }
  }

  // ---------------------------------------------------------------------
  // The term index

  /** `{term: idx for idx, term in enumerate(s)}` */
  function Positions(s: seq<string>): (m: map<string, int>)
    ensures forall t :: t in m <==> t in s
    ensures forall t :: t in m ==> 0 <= m[t] < |s| && s[m[t]] == t
    decreases |s|
  {
    if s == [] then map[]
    else Positions(s[..|s| - 1])[s[|s| - 1] := |s| - 1]
  }

  /** `term_index`: each term of the vocabulary numbered by its place in sorted order. */
  function TermIndexOf(terms: set<string>): (m: map<string, int>)
    ensures m.Keys == terms
    ensures forall t :: t in m ==> 0 <= m[t] < |terms|
  {
    Positions(SortedStrSet(terms))
  }

  /** Distinct terms get distinct numbers. */
  predicate Injective(index: map<string, int>) {
    forall a, b :: a in index && b in index && index[a] == index[b] ==> a == b
  }

  /** The k-th term in sorted order is numbered k, so every number 0 .. n-1 is used. */
  lemma TermIndexDense(terms: set<string>)
    ensures forall k :: 0 <= k < |terms| ==> TermIndexOf(terms)[SortedStrSet(terms)[k]] == k
  {
    var s := SortedStrSet(terms);
    var m := TermIndexOf(terms);
    forall k | 0 <= k < |terms| ensures m[s[k]] == k {
      StrIncreasingInjective(s, m[s[k]], k);
    }
  }

  /** The term index is injective. */
  lemma TermIndexInjective(terms: set<string>)
    ensures Injective(TermIndexOf(terms))
  {
    var m := TermIndexOf(terms);
    var s := SortedStrSet(terms);
    forall a, b | a in m && b in m && m[a] == m[b] ensures a == b {
      assert a == s[m[a]] && b == s[m[b]];
    }
  }

  /** Numbers follow the terms' sorted order. */
  lemma TermIndexOrdered(terms: set<string>, a: string, b: string)
    requires a in terms && b in terms
    ensures StrLt(a, b) <==> TermIndexOf(terms)[a] < TermIndexOf(terms)[b]
  {
    var s := SortedStrSet(terms);
    var m := TermIndexOf(terms);
    assert a == s[m[a]] && b == s[m[b]];
    if StrLt(a, b) && m[a] >= m[b] {
      if m[a] > m[b] {
        assert StrLt(b, a);
        StrLeAntisymmetric(a, b);
      }
      assert false;
    }
  }

  // ---------------------------------------------------------------------
  // Loading, pass two: the document vectors

  /** `term, _, tfidf = line.strip().split()`; `self.term_index[term]`; `float(tfidf)`. */
  function VectorLine(acc: Result<map<int, real>>, f: seq<string>, index: map<string, int>,
                      parseFloat: string -> Option<real>): Result<map<int, real>> {
    match acc
    case Err(why) => Err(why)
    case Ok(v) =>
      if |f| != 3 then Err("ValueError")
      else if f[0] !in index then Err("KeyError")
      else match parseFloat(f[2])
        case None => Err("ValueError")
        case Some(x) => Ok(v[index[f[0]] := x])
  }

  function VectorLines(acc: Result<map<int, real>>, fs: seq<seq<string>>, index: map<string, int>,
                       parseFloat: string -> Option<real>): Result<map<int, real>>
    decreases |fs|
  {
    if fs == [] then acc else VectorLine(VectorLines(acc, fs[..|fs| - 1], index, parseFloat), fs[|fs| - 1], index, parseFloat)
  }

  /** `filename.split('-')[0]` */
  function DocId(filename: string): string {
    Split(filename, '-')[0]
  }

  /** Pass two: one vector per file, stored under the file's document id. */
  function VectorFiles(acc: Result<ODict<string, map<int, real>>>, dir: map<string, seq<string>>, names: seq<string>,
                       index: map<string, int>, parseFloat: string -> Option<real>): (r: Result<ODict<string, map<int, real>>>)
    requires forall k :: 0 <= k < |names| ==> names[k] in dir
    requires acc.Ok? ==> Valid(acc.value)
    ensures r.Ok? ==> Valid(r.value)
    decreases |names|
  {
    if names == [] then acc
    else match VectorFiles(acc, dir, names[..|names| - 1], index, parseFloat)
      case Err(why) => Err(why)
      case Ok(d) =>
        var name := names[|names| - 1];
        match VectorLines(Ok(map[]), FieldsOf(dir[name]), index, parseFloat)
        case Err(why) => Err(why)
        case Ok(v) => Ok(Put(d, DocId(name), v))
  }

  lemma {:induction false} VectorLinesErr(why: string, fs: seq<seq<string>>, index: map<string, int>,
                                          parseFloat: string -> Option<real>)
    ensures VectorLines(Err(why), fs, index, parseFloat) == Err(why)
    decreases |fs|
  {
    if fs != [] {
      VectorLinesErr(why, fs[..|fs| - 1], index, parseFloat);
    }
  }

  lemma {:induction false} VectorLinesFails(acc: Result<map<int, real>>, fs: seq<seq<string>>, j: nat, why: string,
                                            index: map<string, int>, parseFloat: string -> Option<real>)
    requires j < |fs| && VectorLines(acc, fs[..j + 1], index, parseFloat) == Err(why)
    ensures VectorLines(acc, fs, index, parseFloat) == Err(why)
    decreases |fs|
  {
    if j + 1 == |fs| {
      assert fs[..j + 1] == fs;
    } else {
      var init := fs[..|fs| - 1];
      assert init[..j + 1] == fs[..j + 1];
      VectorLinesFails(acc, init, j, why, index, parseFloat);
    }
  }

  lemma VectorLinesStep(acc: Result<map<int, real>>, fs: seq<seq<string>>, j: nat,
                        index: map<string, int>, parseFloat: string -> Option<real>)
    requires j < |fs|
    ensures VectorLines(acc, fs[..j + 1], index, parseFloat)
         == VectorLine(VectorLines(acc, fs[..j], index, parseFloat), fs[j], index, parseFloat)
  {
    assert fs[..j + 1][..j] == fs[..j];
  }

  lemma VectorFilesStep(acc: Result<ODict<string, map<int, real>>>, dir: map<string, seq<string>>, names: seq<string>,
                        i: nat, index: map<string, int>, parseFloat: string -> Option<real>)
    requires i < |names| && forall k :: 0 <= k < |names| ==> names[k] in dir
    requires acc.Ok? ==> Valid(acc.value)
    ensures VectorFiles(acc, dir, names[..i + 1], index, parseFloat)
         == match VectorFiles(acc, dir, names[..i], index, parseFloat)
            case Err(why) => Err(why)
            case Ok(d) =>
              match VectorLines(Ok(map[]), FieldsOf(dir[names[i]]), index, parseFloat)
              case Err(why) => Err(why)
              case Ok(v) => Ok(Put(d, DocId(names[i]), v))
  {
    assert names[..i + 1][..i] == names[..i];
  }

  /** One more file whose vector loads is one more entry. */
  lemma VectorFilesOk(acc: Result<ODict<string, map<int, real>>>, dir: map<string, seq<string>>, names: seq<string>,
                      i: nat, index: map<string, int>, parseFloat: string -> Option<real>,
                      d: ODict<string, map<int, real>>, v: map<int, real>)
    requires i < |names| && forall k :: 0 <= k < |names| ==> names[k] in dir
    requires acc.Ok? ==> Valid(acc.value)
    requires VectorFiles(acc, dir, names[..i], index, parseFloat) == Ok(d)
    requires VectorLines(Ok(map[]), FieldsOf(dir[names[i]]), index, parseFloat) == Ok(v)
    ensures Valid(d)
    ensures VectorFiles(acc, dir, names[..i + 1], index, parseFloat) == Ok(Put(d, DocId(names[i]), v))
  {
    VectorFilesStep(acc, dir, names, i, index, parseFloat);
  }

  /** A file whose vector fails to load fails the whole pass. */
  lemma VectorFilesStops(acc: Result<ODict<string, map<int, real>>>, dir: map<string, seq<string>>, names: seq<string>,
                         i: nat, index: map<string, int>, parseFloat: string -> Option<real>,
                         d: ODict<string, map<int, real>>, why: string)
    requires i < |names| && forall k :: 0 <= k < |names| ==> names[k] in dir
    requires acc.Ok? ==> Valid(acc.value)
    requires VectorFiles(acc, dir, names[..i], index, parseFloat) == Ok(d)
    requires VectorLines(Ok(map[]), FieldsOf(dir[names[i]]), index, parseFloat) == Err(why)
    ensures VectorFiles(acc, dir, names, index, parseFloat) == Err(why)
  {
    VectorFilesStep(acc, dir, names, i, index, parseFloat);
    VectorFilesFails(acc, dir, names, i, why, index, parseFloat);
  }

  lemma {:induction false} VectorFilesErr(why: string, dir: map<string, seq<string>>, names: seq<string>,
                                          index: map<string, int>, parseFloat: string -> Option<real>)
    requires forall k :: 0 <= k < |names| ==> names[k] in dir
    ensures VectorFiles(Err(why), dir, names, index, parseFloat) == Err(why)
    decreases |names|
  {
    if names != [] {
      VectorFilesErr(why, dir, names[..|names| - 1], index, parseFloat);
    }
  }

  lemma {:induction false} VectorFilesFails(acc: Result<ODict<string, map<int, real>>>, dir: map<string, seq<string>>,
                                            names: seq<string>, i: nat, why: string,
                                            index: map<string, int>, parseFloat: string -> Option<real>)
    requires i < |names| && forall k :: 0 <= k < |names| ==> names[k] in dir
    requires acc.Ok? ==> Valid(acc.value)
    requires VectorFiles(acc, dir, names[..i + 1], index, parseFloat) == Err(why)
    ensures VectorFiles(acc, dir, names, index, parseFloat) == Err(why)
    decreases |names|
  {
    if i + 1 == |names| {
      assert names[..i + 1] == names;
    } else {
      var init := names[..|names| - 1];
      assert init[..i + 1] == names[..i + 1];
      VectorFilesFails(acc, dir, init, i, why, index, parseFloat);
    }
  }

  /** Every value stored in a vector is the number of some term of the index. */
  predicate IndexedBy(v: map<int, real>, index: map<string, int>) {
    forall i :: i in v ==> exists t :: t in index && index[t] == i
  }

  /**
   * On well-formed lines whose terms are all indexed, pass two over a file
   * fails only where `float(tfidf)` does, and only fills in indexed slots.
   */
  lemma {:induction false} VectorLinesIndexed(v: map<int, real>, fs: seq<seq<string>>, index: map<string, int>,
                                              parseFloat: string -> Option<real>)
    requires WellFormed(fs, index.Keys) && IndexedBy(v, index)
    ensures VectorLines(Ok(v), fs, index, parseFloat).Err? ==> VectorLines(Ok(v), fs, index, parseFloat).why == "ValueError"
    ensures VectorLines(Ok(v), fs, index, parseFloat).Ok? ==> IndexedBy(VectorLines(Ok(v), fs, index, parseFloat).value, index)
    decreases |fs|
  {
    if fs != [] {
      var init := fs[..|fs| - 1];
      assert WellFormed(init, index.Keys) by {
        forall k | 0 <= k < |init| ensures |init[k]| == 3 && init[k][0] in index.Keys {
          assert init[k] == fs[k];
        }
      }
      VectorLinesIndexed(v, init, index, parseFloat);
      var f := fs[|fs| - 1];
      assert |f| == 3 && f[0] in index;
      match VectorLines(Ok(v), init, index, parseFloat)
      case Err(why) =>
      case Ok(w) =>
        match parseFloat(f[2])
        case None =>
        case Some(x) =>
          var w' := w[index[f[0]] := x];
          assert IndexedBy(w', index) by {
            forall i | i in w' ensures exists t :: t in index && index[t] == i {
              if i != index[f[0]] {
                assert i in w;
              }
            }
          }
    }
  }

  /** Every vector of the store lives in the space of the index. */
  ghost predicate AllIndexed(d: ODict<string, map<int, real>>, index: map<string, int>) {
    forall doc :: doc in d.at ==> IndexedBy(d.at[doc], index)
  }

  lemma PutIndexed(d: ODict<string, map<int, real>>, doc: string, v: map<int, real>, index: map<string, int>)
    requires Valid(d) && AllIndexed(d, index) && IndexedBy(v, index)
    ensures AllIndexed(Put(d, doc, v), index)
  {
    var r := Put(d, doc, v);
    forall e | e in r.at ensures IndexedBy(r.at[e], index) {
      if e != doc {
        assert r.at[e] == d.at[e];
      }
    }
  }

  /** Pass two over several files, all of them well formed for the index. */
  lemma {:induction false} VectorFilesIndexed(acc: ODict<string, map<int, real>>, dir: map<string, seq<string>>,
                                              names: seq<string>, index: map<string, int>,
                                              parseFloat: string -> Option<real>)
    requires forall k :: 0 <= k < |names| ==> names[k] in dir
    requires forall k :: 0 <= k < |names| ==> WellFormed(FieldsOf(dir[names[k]]), index.Keys)
    requires Valid(acc) && AllIndexed(acc, index)
    ensures var r := VectorFiles(Ok(acc), dir, names, index, parseFloat);
      (r.Err? ==> r.why == "ValueError") && (r.Ok? ==> AllIndexed(r.value, index))
    decreases |names|
  {
    if names != [] {
      var init := names[..|names| - 1];
      var name := names[|names| - 1];
      assert forall k :: 0 <= k < |init| ==> init[k] == names[k];
      VectorFilesIndexed(acc, dir, init, index, parseFloat);
      match VectorFiles(Ok(acc), dir, init, index, parseFloat)
      case Err(why) =>
      case Ok(d) =>
        VectorLinesIndexed(map[], FieldsOf(dir[name]), index, parseFloat);
        match VectorLines(Ok(map[]), FieldsOf(dir[name]), index, parseFloat)
        case Err(why) =>
        case Ok(v) =>
          PutIndexed(d, DocId(name), v, index);
    }
  }

  /**
   * Once pass one has read every file, pass two over the same files never
   * looks a term up in vain: it can fail only on an unparsable weight, and
   * every slot it fills is the number of a vocabulary term, so lies in
   * 0 .. n-1.
   */
  lemma LoadLookupsSucceed(idf0: map<string, real>, vectors0: ODict<string, map<int, real>>,
                           dir: map<string, seq<string>>, names: seq<string>, parseFloat: string -> Option<real>)
    requires forall k :: 0 <= k < |names| ==> names[k] in dir
    requires Valid(vectors0) && AllIndexed(vectors0, map[])
    requires IdfFiles(Ok(Vocabulary(idf0, {})), dir, names, parseFloat).Ok?
    ensures var terms := IdfFiles(Ok(Vocabulary(idf0, {})), dir, names, parseFloat).value.seen;
      var r := VectorFiles(Ok(vectors0), dir, names, TermIndexOf(terms), parseFloat);
      (r.Err? ==> r.why == "ValueError")
      && (r.Ok? ==> forall doc, i :: doc in r.value.at && i in r.value.at[doc] ==> 0 <= i < |terms|)
  {
    var terms := IdfFiles(Ok(Vocabulary(idf0, {})), dir, names, parseFloat).value.seen;
    var index := TermIndexOf(terms);
    IdfFilesOk(Vocabulary(idf0, {}), dir, names, parseFloat);
    assert forall doc :: doc in vectors0.at ==> IndexedBy(vectors0.at[doc], index) by {
      forall doc | doc in vectors0.at ensures IndexedBy(vectors0.at[doc], index) {
        assert IndexedBy(vectors0.at[doc], map[]);
        assert forall i :: i !in vectors0.at[doc];
      }
    }
    VectorFilesIndexed(vectors0, dir, names, index, parseFloat);
  }

  // ---------------------------------------------------------------------
  // The query: `re.findall(r'\b[а-яё-]+\b', query.lower())`

  predicate InQueryClass(c: char) {
    IsCyrLower(c) || c == '-'
  }

  /** End of the run of `[а-яё-]` characters starting at `i`. */
  function ClassRunEnd(s: string, i: nat): (e: nat)
    requires i <= |s|
    ensures i <= e <= |s| && (e == |s| || !InQueryClass(s[e]))
    ensures forall k :: i <= k < e ==> InQueryClass(s[k])
    decreases |s| - i
  {
    if i == |s| || !InQueryClass(s[i]) then i else ClassRunEnd(s, i + 1)
  }

  /** The greatest `k` with `lo < k <= hi` at which `\b` holds: where the greedy run backs off to. */
  function LastBoundary(s: string, lo: nat, hi: nat): (r: Option<nat>)
    requires lo < hi <= |s|
    ensures r.Some? ==> lo < r.value <= hi && Boundary(s, r.value)
    ensures r.Some? ==> forall k :: r.value < k <= hi ==> !Boundary(s, k)
    ensures r.None? ==> forall k :: lo < k <= hi ==> !Boundary(s, k)
    decreases hi
  {
    if Boundary(s, hi) then Some(hi)
    else if hi - 1 > lo then LastBoundary(s, lo, hi - 1)
    else None
  }

  /** The matches at or after position `i`. */
  function QueryWordsFrom(s: string, i: nat): (r: seq<string>)
    requires i <= |s|
    ensures forall k, m :: 0 <= k < |r| && 0 <= m < |r[k]| ==> InQueryClass(r[k][m])
    ensures forall k :: 0 <= k < |r| ==> r[k] != []
    decreases |s| - i
  {
    if i == |s| then []
    else if InQueryClass(s[i]) && Boundary(s, i) then
      match LastBoundary(s, i, ClassRunEnd(s, i))
      case Some(j) =>
        var w, rest := s[i..j], QueryWordsFrom(s, j);
        assert forall m :: 0 <= m < |w| ==> w[m] == s[i + m];
        var r := [w] + rest;
        assert forall k :: 1 <= k < |r| ==> r[k] == rest[k - 1];
        r
      case None => QueryWordsFrom(s, i + 1)
    else QueryWordsFrom(s, i + 1)
  }

  function QueryWords(s: string): seq<string> {
    QueryWordsFrom(s, 0)
  }

  /** `_process_term`: the normal form in lemma mode, the word itself in token mode. */
  function ProcessTerm(mode: Mode, normalForm: string -> string, part: string): string {
    if mode == Lemmas then normalForm(part) else part
  }

  /** `len(term) > 2 and term not in custom_stopwords` */
  predicate KeptTerm(term: string) {
    |term| > 2 && term !in QueryStopwords
  }

  /** The terms the parts of one word contribute, in order. */
  function PartTerms(mode: Mode, normalForm: string -> string, parts: seq<string>): (r: seq<string>)
    ensures forall k :: 0 <= k < |r| ==> KeptTerm(r[k])
    decreases |parts|
  {
    if parts == [] then []
    else
      var init := PartTerms(mode, normalForm, parts[..|parts| - 1]);
      var term := ProcessTerm(mode, normalForm, parts[|parts| - 1]);
      if KeptTerm(term) then init + [term] else init
  }

  function WordTerms(mode: Mode, normalForm: string -> string, words: seq<string>): (r: seq<string>)
    ensures forall k :: 0 <= k < |r| ==> KeptTerm(r[k])
    decreases |words|
  {
    if words == [] then []
    else WordTerms(mode, normalForm, words[..|words| - 1]) + PartTerms(mode, normalForm, Split(words[|words| - 1], '-'))
  }

  /** `_tokenize_query` */
  function QueryTerms(mode: Mode, normalForm: string -> string, query: string): seq<string> {
    WordTerms(mode, normalForm, QueryWords(LowerStr(query)))
  }

  lemma {:induction false} PartTermsMembers(mode: Mode, normalForm: string -> string, parts: seq<string>, t: string)
    ensures t in PartTerms(mode, normalForm, parts)
        <==> exists p :: p in parts && t == ProcessTerm(mode, normalForm, p) && KeptTerm(t)
    decreases |parts|
  {
    if parts != [] {
      var init := parts[..|parts| - 1];
      PartTermsMembers(mode, normalForm, init, t);
      assert forall p :: p in parts <==> p in init || p == parts[|parts| - 1];
    }
  }

  /** A query term is exactly a term contributed by the parts of one of the matched words. */
  lemma {:induction false} WordTermsMembers(mode: Mode, normalForm: string -> string, words: seq<string>, t: string)
    ensures t in WordTerms(mode, normalForm, words)
        <==> exists w :: w in words && t in PartTerms(mode, normalForm, Split(w, '-'))
    decreases |words|
  {
    if words != [] {
      var init := words[..|words| - 1];
      var last := words[|words| - 1];
      WordTermsMembers(mode, normalForm, init, t);
      if t in WordTerms(mode, normalForm, words) {
        if t in WordTerms(mode, normalForm, init) {
          var w :| w in init && t in PartTerms(mode, normalForm, Split(w, '-'));
          assert w in words;
        } else {
          assert last in words;
        }
      }
      if exists w :: w in words && t in PartTerms(mode, normalForm, Split(w, '-')) {
        var w :| w in words && t in PartTerms(mode, normalForm, Split(w, '-'));
        var k :| 0 <= k < |words| && words[k] == w;
        if k < |words| - 1 {
          assert init[k] == w;
        }
      }
    }
  }

  /** The loop of `_tokenize_query` over the query's words. */
  method CollectWordTerms(mode: Mode, normalForm: string -> string, words: seq<string>) returns (tokens: seq<string>)
    ensures tokens == WordTerms(mode, normalForm, words)
  {
    tokens := [];
    for i := 0 to |words|
      invariant tokens == WordTerms(mode, normalForm, words[..i])
    {
      assert words[..i + 1][..i] == words[..i];
      tokens := AddPartTerms(mode, normalForm, tokens, Split(words[i], '-'));
    }
    assert words[..|words|] == words;
  }

  /** The inner loop of `_tokenize_query`: appends the kept terms of one word's parts. */
  method AddPartTerms(mode: Mode, normalForm: string -> string, tokens: seq<string>, parts: seq<string>)
    returns (r: seq<string>)
    ensures r == tokens + PartTerms(mode, normalForm, parts)
  {
    r := tokens;
    for j := 0 to |parts|
      invariant r == tokens + PartTerms(mode, normalForm, parts[..j])
    {
      assert parts[..j + 1][..j] == parts[..j];
      var term := ProcessTerm(mode, normalForm, parts[j]);
      if KeptTerm(term) {
        r := r + [term];
      }
    }
    assert parts[..|parts|] == parts;
  }

  /** In token mode a query term is made of lower-case Russian letters only. */
  lemma {:induction false} TokenTermsLetters(words: seq<string>, normalForm: string -> string)
    requires forall k, m :: 0 <= k < |words| && 0 <= m < |words[k]| ==> InQueryClass(words[k][m])
    ensures forall k, x :: 0 <= k < |WordTerms(Tokens, normalForm, words)| && x in WordTerms(Tokens, normalForm, words)[k] ==> IsCyrLower(x)
  {
    var r := WordTerms(Tokens, normalForm, words);
    forall k, x | 0 <= k < |r| && x in r[k] ensures IsCyrLower(x) {
      WordTermsMembers(Tokens, normalForm, words, r[k]);
      var w :| w in words && r[k] in PartTerms(Tokens, normalForm, Split(w, '-'));
      PartTermsMembers(Tokens, normalForm, Split(w, '-'), r[k]);
      var p :| p in Split(w, '-') && r[k] == ProcessTerm(Tokens, normalForm, p) && KeptTerm(r[k]);
      SplitChars(w, '-');
      var i :| 0 <= i < |Split(w, '-')| && Split(w, '-')[i] == p;
      assert x in w;
      var j :| 0 <= j < |words| && words[j] == w;
      var m :| 0 <= m < |w| && w[m] == x;
      assert InQueryClass(words[j][m]);
    }
  }

  /** The query terms keep the filter's promise, and in token mode are plain lower-case words. */
  lemma QueryTermsShape(mode: Mode, normalForm: string -> string, query: string)
    ensures forall k :: 0 <= k < |QueryTerms(mode, normalForm, query)| ==>
      |QueryTerms(mode, normalForm, query)[k]| > 2 && QueryTerms(mode, normalForm, query)[k] !in QueryStopwords
    ensures mode == Tokens ==> forall k, x :: 0 <= k < |QueryTerms(mode, normalForm, query)| && x in QueryTerms(mode, normalForm, query)[k] ==> IsCyrLower(x)
  {
    if mode == Tokens {
      TokenTermsLetters(QueryWords(LowerStr(query)), normalForm);
    }
  }

  // ---------------------------------------------------------------------
  // The query vector

  /** `tf * idf` for one query term: its share of the query times its IDF (0.0 when unknown). */
  function QueryWeight(count: nat, total: nat, idf: map<string, real>, t: string): real
    requires total > 0
  {
    TfIdf.Share(count, total) * TfIdf.Lookup(idf, t)
  }

  /** The loop of `_vectorize_query` over the first `keys` of the query's Counter. */
  function QueryVectorOf(keys: seq<string>, counts: map<string, nat>, total: nat,
                         index: map<string, int>, idf: map<string, real>): map<int, real>
    requires total > 0 && forall k :: 0 <= k < |keys| ==> keys[k] in counts
    decreases |keys|
  {
    if keys == [] then map[]
    else
      var v := QueryVectorOf(keys[..|keys| - 1], counts, total, index, idf);
      var t := keys[|keys| - 1];
      if t in index then v[index[t] := QueryWeight(counts[t], total, idf, t)] else v
  }

  /** `_vectorize_query(terms)` */
  function QueryVector(terms: seq<string>, index: map<string, int>, idf: map<string, real>): map<int, real> {
    var c := Tally(terms);
    if terms == [] then map[] else QueryVectorOf(c.keys, c.at, |terms|, index, idf)
  }

  lemma {:induction false} QueryVectorOfAt(keys: seq<string>, counts: map<string, nat>, total: nat,
                                           index: map<string, int>, idf: map<string, real>, t: string)
    requires total > 0 && forall k :: 0 <= k < |keys| ==> keys[k] in counts
    requires Injective(index)
    ensures forall i :: i in QueryVectorOf(keys, counts, total, index, idf) ==>
      exists u :: u in keys && u in index && index[u] == i
    ensures t in keys && t in index ==>
      index[t] in QueryVectorOf(keys, counts, total, index, idf)
      && QueryVectorOf(keys, counts, total, index, idf)[index[t]] == QueryWeight(counts[t], total, idf, t)
    decreases |keys|
  {
    if keys != [] {
      var init := keys[..|keys| - 1];
      assert forall k :: 0 <= k < |init| ==> init[k] == keys[k];
      QueryVectorOfAt(init, counts, total, index, idf, t);
      assert forall u :: u in keys <==> u in init || u == keys[|keys| - 1];
    }
  }

  /** Every slot of the query vector belongs to an indexed query term. */
  lemma QueryVectorSlots(terms: seq<string>, index: map<string, int>, idf: map<string, real>)
    requires Injective(index)
    ensures forall i :: i in QueryVector(terms, index, idf) ==> exists u :: u in terms && u in index && index[u] == i
  {
    if terms != [] {
      var c := Tally(terms);
      QueryVectorOfAt(c.keys, c.at, |terms|, index, idf, "");
    }
  }

  /** Each indexed query term has its slot, holding its share of the query times its IDF. */
  lemma QueryVectorAt(terms: seq<string>, index: map<string, int>, idf: map<string, real>, t: string)
    requires Injective(index) && t in terms && t in index
    ensures index[t] in QueryVector(terms, index, idf)
    ensures QueryVector(terms, index, idf)[index[t]] == QueryWeight(Occurrences(terms, t), |terms|, idf, t)
  {
    var c := Tally(terms);
    QueryVectorOfAt(c.keys, c.at, |terms|, index, idf, t);
    TallyCounts(terms, t);
  }

  // ---------------------------------------------------------------------
  // Scoring and ranking

  /** `np.linalg.norm` is a norm at least in these respects. */
  ghost predicate NormLike(norm: map<int, real> -> real) {
    norm(map[]) == 0.0 && forall v :: norm(v) >= 0.0
  }

  function Products(ks: seq<int>, dv: map<int, real>, qv: map<int, real>): seq<real>
    requires forall k :: 0 <= k < |ks| ==> ks[k] in dv && ks[k] in qv
  {
    seq(|ks|, k requires 0 <= k < |ks| => dv[ks[k]] * qv[ks[k]])
  }

  /** `sum(doc_vector[i] * query_vector[i] for i in common)` */
  function Dot(dv: map<int, real>, qv: map<int, real>): real {
    var ks := SortedSet(dv.Keys * qv.Keys);
    assert forall k :: 0 <= k < |ks| ==> ks[k] in dv && ks[k] in qv by {
      forall k | 0 <= k < |ks| ensures ks[k] in dv && ks[k] in qv {
        assert ks[k] in ks;
      }
    }
    TfIdf.SumReals(Products(ks, dv, qv))
  }

  /** `dot_product / (doc_norm * query_norm)` */
  function Cosine(dot: real, dn: real, qn: real): real
    requires dn >= NormFloor && qn >= NormFloor
  {
    assert dn * qn > 0.0 by { TfIdf.SignOfProduct(dn, qn); }
    dot / (dn * qn)
  }

  /** One document's score, or None where the loop skips it or the score is too small. */
  function DocScore(dv: map<int, real>, qv: map<int, real>, qn: real, norm: map<int, real> -> real): (r: Option<real>)
    requires qn >= NormFloor
    ensures r.Some? <==> norm(dv) >= NormFloor && dv.Keys * qv.Keys != {} && Cosine(Dot(dv, qv), norm(dv), qn) > ScoreFloor
    ensures r.Some? ==> r.value == Cosine(Dot(dv, qv), norm(dv), qn)
  {
    var dn := norm(dv);
    if dn < NormFloor then None
    else if dv.Keys * qv.Keys == {} then None
    else
      var cosine := Cosine(Dot(dv, qv), dn, qn);
      if cosine > ScoreFloor then Some(cosine) else None
  }

  /** `scores`: the documents that score, in the store's order, with their cosine. */
  function Scores(keys: seq<string>, vectors: map<string, map<int, real>>, qv: map<int, real>, qn: real,
                  norm: map<int, real> -> real): (r: seq<(string, real)>)
    requires qn >= NormFloor && forall k :: 0 <= k < |keys| ==> keys[k] in vectors
    decreases |keys|
  {
    if keys == [] then []
    else
      var init := Scores(keys[..|keys| - 1], vectors, qv, qn, norm);
      var d := keys[|keys| - 1];
      match DocScore(vectors[d], qv, qn, norm)
      case None => init
      case Some(c) => init + [(d, c)]
  }

  /** The scoring loop of `search`, over the stored documents in order. */
  method ScoreAll(keys: seq<string>, vectors: map<string, map<int, real>>, qv: map<int, real>, qn: real,
                  norm: map<int, real> -> real) returns (scores: seq<(string, real)>)
    requires qn >= NormFloor && forall k :: 0 <= k < |keys| ==> keys[k] in vectors
    ensures scores == Scores(keys, vectors, qv, qn, norm)
  {
    scores := [];
    for i := 0 to |keys|
      invariant scores == Scores(keys[..i], vectors, qv, qn, norm)
    {
      assert keys[..i + 1][..i] == keys[..i];
      var d := keys[i];
      var dv := vectors[d];
      var dn := norm(dv);
      if dn < NormFloor {
        continue;
      }
      if dv.Keys * qv.Keys == {} {
        continue;
      }
      var cosine := Cosine(Dot(dv, qv), dn, qn);
      if cosine > ScoreFloor {
        scores := scores + [(d, cosine)];
      }
    }
    assert keys[..|keys|] == keys;
  }

  /** A document and a score are in `scores` exactly when the document is stored and scores that. */
  lemma {:induction false} ScoresMembers(keys: seq<string>, vectors: map<string, map<int, real>>, qv: map<int, real>,
                                         qn: real, norm: map<int, real> -> real, d: string, c: real)
    requires qn >= NormFloor && forall k :: 0 <= k < |keys| ==> keys[k] in vectors
    ensures (d, c) in Scores(keys, vectors, qv, qn, norm) <==> d in keys && DocScore(vectors[d], qv, qn, norm) == Some(c)
    decreases |keys|
  {
    if keys != [] {
      var init := keys[..|keys| - 1];
      assert forall k :: 0 <= k < |init| ==> init[k] == keys[k];
      ScoresMembers(init, vectors, qv, qn, norm, d, c);
      assert forall u :: u in keys <==> u in init || u == keys[|keys| - 1];
    }
  }

  /** Every score in `scores` is above the floor. */
  lemma {:induction false} ScoresAboveFloor(keys: seq<string>, vectors: map<string, map<int, real>>, qv: map<int, real>,
                                            qn: real, norm: map<int, real> -> real)
    requires qn >= NormFloor && forall k :: 0 <= k < |keys| ==> keys[k] in vectors
    ensures forall k :: 0 <= k < |Scores(keys, vectors, qv, qn, norm)| ==> Scores(keys, vectors, qv, qn, norm)[k].1 > ScoreFloor
    decreases |keys|
  {
    if keys != [] {
      var init := keys[..|keys| - 1];
      assert forall k :: 0 <= k < |init| ==> init[k] == keys[k];
      ScoresAboveFloor(init, vectors, qv, qn, norm);
    }
  }

  /** `s[:n]`, with Python's reading of a negative `n` (all but the last `-n`). */
  function Take<T>(s: seq<T>, n: int): (r: seq<T>)
    ensures r <= s
    ensures n >= 0 ==> |r| == if n < |s| then n else |s|
    ensures n < 0 ==> |r| == if |s| + n > 0 then |s| + n else 0
  {
    if n >= 0 then (if n < |s| then s[..n] else s)
    else if |s| + n > 0 then s[..|s| + n]
    else []
  }

  /** `[(self.documents[doc_id], score) for doc_id, score in ranked if doc_id in self.documents]` */
  function Named(documents: map<string, string>, ranked: seq<(string, real)>): (r: seq<(string, real)>)
    ensures |r| <= |ranked|
    decreases |ranked|
  {
    if ranked == [] then []
    else
      var init := Named(documents, ranked[..|ranked| - 1]);
      var e := ranked[|ranked| - 1];
      if e.0 in documents then init + [(documents[e.0], e.1)] else init
  }

  /** The positions of the entries of `ranked` whose document has a page, ascending. */
  ghost function Known(documents: map<string, string>, ranked: seq<(string, real)>): (p: seq<nat>)
    ensures forall i, j :: 0 <= i < j < |p| ==> p[i] < p[j]
    ensures forall m :: m in p <==> 0 <= m < |ranked| && ranked[m].0 in documents
    decreases |ranked|
  {
    if ranked == [] then []
    else
      var n := |ranked| - 1;
      var init := Known(documents, ranked[..n]);
      assert forall m :: 0 <= m < n ==> ranked[..n][m] == ranked[m];
      assert forall k :: 0 <= k < |init| ==> init[k] in init && init[k] < n;
      if ranked[n].0 in documents then init + [n] else init
  }

  /**
   * `r` is what the list comprehension makes of `ranked`: one entry for each
   * ranked document that has a page, in ranked order, naming the page and
   * keeping the score.
   */
  ghost predicate NamesOf(documents: map<string, string>, ranked: seq<(string, real)>, r: seq<(string, real)>) {
    var p := Known(documents, ranked);
    |r| == |p| &&
    forall k :: 0 <= k < |p| ==>
      p[k] < |ranked| && ranked[p[k]].0 in documents && r[k] == (documents[ranked[p[k]].0], ranked[p[k]].1)
  }

  /** The results are exactly the ranked documents that have a page, in order, named and with their scores. */
  lemma {:induction false} NamedFrom(documents: map<string, string>, ranked: seq<(string, real)>)
    ensures NamesOf(documents, ranked, Named(documents, ranked))
    decreases |ranked|
  {
    if ranked != [] {
      var n := |ranked| - 1;
      var init := ranked[..n];
      NamedFrom(documents, init);
      var q := Known(documents, init);
      var p := Known(documents, ranked);
      var r := Named(documents, ranked);
      var t := Named(documents, init);
      assert forall m :: 0 <= m < n ==> init[m] == ranked[m];
      forall k | 0 <= k < |p|
        ensures p[k] < |ranked| && ranked[p[k]].0 in documents && r[k] == (documents[ranked[p[k]].0], ranked[p[k]].1)
      {
        assert p[k] in p;
        if k < |q| {
          assert p[k] == q[k] && r[k] == t[k];
          assert q[k] in q;
        }
      }
    }
  }

  /** Naming the ranked documents keeps the best-first order. */
  lemma {:induction false} NamedDescending(documents: map<string, string>, ranked: seq<(string, real)>)
    requires ScoreDescending(ranked)
    ensures ScoreDescending(Named(documents, ranked))
    decreases |ranked|
  {
    NamedFrom(documents, ranked);
    var p := Known(documents, ranked);
    var r := Named(documents, ranked);
    forall i, j | 0 <= i < j < |r| ensures r[i].1 >= r[j].1 {
      assert p[i] < p[j];
    }
  }

  /**
   * `top` is the best `n` entries of `scores`, as a stable descending sort
   * cut at `n` gives them: best first, drawn from `scores`, as many as
   * Python's slice keeps, nothing left out scoring above anything kept, and
   * equal scores in their order in `scores`.
   */
  ghost predicate BestOf(top: seq<(string, real)>, scores: seq<(string, real)>, n: int) {
    ScoreDescending(top)
    && multiset(top) <= multiset(scores)
    && |top| == (if n >= 0 then (if n < |scores| then n else |scores|) else if |scores| + n > 0 then |scores| + n else 0)
    && (forall e, k :: e in scores && e !in top && 0 <= k < |top| ==> e.1 <= top[k].1)
    && forall v :: Ties(top, v) <= Ties(scores, v)
  }

  /** `sorted(scores, key=score, reverse=True)[:top_n]` is the best `top_n` of the scores. */
  lemma TopIsBest(scores: seq<(string, real)>, topN: int)
    ensures BestOf(Take(SortByScore(scores), topN), scores, topN)
  {
    var sorted := SortByScore(scores);
    var top := Take(sorted, topN);
    assert |sorted| == |scores| by {
      assert |multiset(sorted)| == |multiset(scores)|;
    }
    forall v ensures Ties(sorted, v) == Ties(scores, v) {
      SortByScoreStable(scores, v);
    }
    CutOfSorted(scores, sorted, |top|);
    assert top == sorted[..|top|];
  }

  /** A prefix of a stable descending sort of `scores` keeps the best of them, ties in order. */
  lemma CutOfSorted(scores: seq<(string, real)>, sorted: seq<(string, real)>, m: nat)
    requires ScoreDescending(sorted) && multiset(sorted) == multiset(scores) && m <= |sorted|
    requires forall v :: Ties(sorted, v) == Ties(scores, v)
    ensures ScoreDescending(sorted[..m]) && multiset(sorted[..m]) <= multiset(scores)
    ensures forall e, k :: e in scores && e !in sorted[..m] && 0 <= k < m ==> e.1 <= sorted[..m][k].1
    ensures forall v :: Ties(sorted[..m], v) <= Ties(scores, v)
  {
    var top, rest := sorted[..m], sorted[m..];
    assert sorted == top + rest;
    assert multiset(top) <= multiset(scores) by {
      assert multiset(sorted) == multiset(top) + multiset(rest);
    }
    CutLeavesWorse(scores, sorted, m);
    CutTies(scores, sorted, m);
  }

  lemma CutTies(scores: seq<(string, real)>, sorted: seq<(string, real)>, m: nat)
    requires m <= |sorted| && forall v :: Ties(sorted, v) == Ties(scores, v)
    ensures forall v :: Ties(sorted[..m], v) <= Ties(scores, v)
  {
    var top, rest := sorted[..m], sorted[m..];
    assert sorted == top + rest;
    forall v ensures Ties(top, v) <= Ties(scores, v) {
      TiesAppend(top, rest, v);
    }
  }

  lemma CutLeavesWorse(scores: seq<(string, real)>, sorted: seq<(string, real)>, m: nat)
    requires ScoreDescending(sorted) && multiset(sorted) == multiset(scores) && m <= |sorted|
    ensures forall e, k :: e in scores && e !in sorted[..m] && 0 <= k < m ==> e.1 <= sorted[..m][k].1
  {
    forall e, k | e in scores && e !in sorted[..m] && 0 <= k < m ensures e.1 <= sorted[..m][k].1 {
      assert e in multiset(sorted);
      var i :| 0 <= i < |sorted| && sorted[i] == e;
      assert sorted[..m][k] == sorted[k];
    }
  }

  /** A result that names the page of one of the scored documents, with its score. */
  ghost predicate FromScores(documents: map<string, string>, scores: seq<(string, real)>, x: (string, real)) {
    exists e :: e in scores && NamedAfter(documents, e, x)
  }

  /** The ranked entry a result comes from: its document has that page, and the scores agree. */
  predicate NamedAfter(documents: map<string, string>, e: (string, real), x: (string, real)) {
    e.0 in documents && documents[e.0] == x.0 && e.1 == x.1
  }

  /**
   * Ranking and naming: the results name, in order, exactly those of the
   * best `top_n` scores whose document has a page; so they come best first,
   * there are at most `top_n` of them, and each names a scored document
   * with its score.
   */
  lemma RankedResults(documents: map<string, string>, scores: seq<(string, real)>, topN: int)
    ensures var top := Take(SortByScore(scores), topN);
      var r := Named(documents, top);
      BestOf(top, scores, topN)
      && NamesOf(documents, top, r)
      && ScoreDescending(r)
      && (topN >= 0 ==> |r| <= topN)
      && forall k :: 0 <= k < |r| ==> FromScores(documents, scores, r[k])
  {
    var sorted := SortByScore(scores);
    var top := Take(sorted, topN);
    var r := Named(documents, top);
    TopIsBest(scores, topN);
    NamedDescending(documents, top);
    NamedFrom(documents, top);
    var p := Known(documents, top);
    forall k | 0 <= k < |r| ensures FromScores(documents, scores, r[k]) {
      var m := p[k];
      assert top[m] in multiset(scores) by {
        assert top[m] in multiset(top);
      }
      assert top[m] in scores && NamedAfter(documents, top[m], r[k]);
    }
  }

  /** A result that names the page of a stored document, with the score the document earns. */
  ghost predicate Earned(documents: map<string, string>, vectors: ODict<string, map<int, real>>,
                         qv: map<int, real>, qn: real, norm: map<int, real> -> real, x: (string, real))
    requires qn >= NormFloor
  {
    exists d :: d in documents && documents[d] == x.0 && d in vectors.at && DocScore(vectors.at[d], qv, qn, norm) == Some(x.1)
  }

  /** `keys` holds `a` before `b`. */
  ghost predicate StoredBefore(keys: seq<string>, a: string, b: string) {
    exists i, j :: 0 <= i < j < |keys| && keys[i] == a && keys[j] == b
  }

  /** The scores list the documents in the store's order. */
  lemma {:induction false} ScoresInStoreOrder(keys: seq<string>, vectors: map<string, map<int, real>>, qv: map<int, real>,
                                              qn: real, norm: map<int, real> -> real)
    requires qn >= NormFloor && forall k :: 0 <= k < |keys| ==> keys[k] in vectors
    ensures var r := Scores(keys, vectors, qv, qn, norm);
      forall i, j :: 0 <= i < j < |r| ==> StoredBefore(keys, r[i].0, r[j].0)
    decreases |keys|
  {
    if keys != [] {
      var n := |keys| - 1;
      var init := keys[..n];
      assert forall k :: 0 <= k < n ==> init[k] == keys[k];
      ScoresInStoreOrder(init, vectors, qv, qn, norm);
      var t := Scores(init, vectors, qv, qn, norm);
      forall i | 0 <= i < |t| ensures t[i].0 in init {
        ScoresMembers(init, vectors, qv, qn, norm, t[i].0, t[i].1);
        assert t[i] in t;
      }
      StoredBeforeSnoc(keys, t, Scores(keys, vectors, qv, qn, norm));
    }
  }

  /** Appending an entry for the last stored document keeps the entries in store order. */
  lemma StoredBeforeSnoc(keys: seq<string>, t: seq<(string, real)>, r: seq<(string, real)>)
    requires keys != []
    requires forall i, j :: 0 <= i < j < |t| ==> StoredBefore(keys[..|keys| - 1], t[i].0, t[j].0)
    requires forall i :: 0 <= i < |t| ==> t[i].0 in keys[..|keys| - 1]
    requires r == t || (|r| == |t| + 1 && r[..|t|] == t && r[|t|].0 == keys[|keys| - 1])
    ensures forall i, j :: 0 <= i < j < |r| ==> StoredBefore(keys, r[i].0, r[j].0)
  {
    var n := |keys| - 1;
    var init := keys[..n];
    forall i, j | 0 <= i < j < |r| ensures StoredBefore(keys, r[i].0, r[j].0) {
      assert r[i] == t[i];
      if j < |t| {
        assert r[j] == t[j];
        var x, y :| 0 <= x < y < |init| && init[x] == t[i].0 && init[y] == t[j].0;
        assert keys[x] == r[i].0 && keys[y] == r[j].0;
      } else {
        var x :| 0 <= x < n && init[x] == t[i].0;
        assert keys[x] == r[i].0 && keys[n] == r[j].0;
      }
    }
  }

  /** The ranking part of `search`: score, sort, cut at `top_n`, name. */
  function Ranking(documents: map<string, string>, vectors: ODict<string, map<int, real>>,
                   qv: map<int, real>, qn: real, norm: map<int, real> -> real, topN: int): seq<(string, real)>
    requires Valid(vectors) && qn >= NormFloor
  {
    Named(documents, Take(SortByScore(Scores(vectors.keys, vectors.at, qv, qn, norm)), topN))
  }

  /** `r` names, in order, those of the best `n` of `scores` whose document has a page. */
  ghost predicate BestNamed(documents: map<string, string>, scores: seq<(string, real)>, n: int, r: seq<(string, real)>) {
    exists top :: BestOf(top, scores, n) && NamesOf(documents, top, r)
  }

  /**
   * The ranking names, in order, those of the best `top_n` scores whose
   * document has a page (a document without one still takes its place in
   * the cut); so it comes best first, a non-negative `top_n` bounds its
   * length, and each entry is the page of a stored document paired with the
   * cosine score, above the floor, that the document earns.
   */
  lemma RankingShape(documents: map<string, string>, vectors: ODict<string, map<int, real>>,
                     qv: map<int, real>, qn: real, norm: map<int, real> -> real, topN: int)
    requires Valid(vectors) && qn >= NormFloor
    ensures var r := Ranking(documents, vectors, qv, qn, norm, topN);
      BestNamed(documents, Scores(vectors.keys, vectors.at, qv, qn, norm), topN, r)
      && ScoreDescending(r)
      && (topN >= 0 ==> |r| <= topN)
      && (forall k :: 0 <= k < |r| ==> r[k].1 > ScoreFloor)
      && forall k :: 0 <= k < |r| ==> Earned(documents, vectors, qv, qn, norm, r[k])
  {
    var scores := Scores(vectors.keys, vectors.at, qv, qn, norm);
    var r := Ranking(documents, vectors, qv, qn, norm, topN);
    RankedResults(documents, scores, topN);
    var top := Take(SortByScore(scores), topN);
    assert BestOf(top, scores, topN) && NamesOf(documents, top, r);
    RankingEarned(documents, vectors, qv, qn, norm, topN);
  }

  lemma RankingEarned(documents: map<string, string>, vectors: ODict<string, map<int, real>>,
                      qv: map<int, real>, qn: real, norm: map<int, real> -> real, topN: int)
    requires Valid(vectors) && qn >= NormFloor
    requires var scores := Scores(vectors.keys, vectors.at, qv, qn, norm);
      forall k :: 0 <= k < |Ranking(documents, vectors, qv, qn, norm, topN)| ==>
        FromScores(documents, scores, Ranking(documents, vectors, qv, qn, norm, topN)[k])
    ensures var r := Ranking(documents, vectors, qv, qn, norm, topN);
      (forall k :: 0 <= k < |r| ==> r[k].1 > ScoreFloor)
      && forall k :: 0 <= k < |r| ==> Earned(documents, vectors, qv, qn, norm, r[k])
  {
    var scores := Scores(vectors.keys, vectors.at, qv, qn, norm);
    var r := Ranking(documents, vectors, qv, qn, norm, topN);
    ScoresAboveFloor(vectors.keys, vectors.at, qv, qn, norm);
    forall k | 0 <= k < |r|
      ensures r[k].1 > ScoreFloor
      ensures Earned(documents, vectors, qv, qn, norm, r[k])
    {
      assert FromScores(documents, scores, r[k]);
      var e :| e in scores && NamedAfter(documents, e, r[k]);
      var m :| 0 <= m < |scores| && scores[m] == e;
      ScoresMembers(vectors.keys, vectors.at, qv, qn, norm, e.0, e.1);
    }
  }

  /** `search(query, top_n)` */
  function SearchOf(mode: Mode, normalForm: string -> string, documents: map<string, string>,
                    idf: map<string, real>, index: map<string, int>, vectors: ODict<string, map<int, real>>,
                    query: string, topN: int, norm: map<int, real> -> real): seq<(string, real)>
    requires Valid(vectors)
  {
    var terms := QueryTerms(mode, normalForm, query);
    if terms == [] then []
    else
      var qv := QueryVector(terms, index, idf);
      var qn := norm(qv);
      if qn < NormFloor then [] else Ranking(documents, vectors, qv, qn, norm, topN)
  }

  /**
   * A query without terms, or whose vector has a norm below the floor, has
   * no results. Otherwise the results name, in order, those of the best
   * `top_n` cosine scores above the floor whose document has a page; they
   * come best first, a non-negative `top_n` bounds their number, and each
   * is the page of a stored document with the score it earns.
   */
  lemma SearchRanked(mode: Mode, normalForm: string -> string, documents: map<string, string>,
                     idf: map<string, real>, index: map<string, int>, vectors: ODict<string, map<int, real>>,
                     query: string, topN: int, norm: map<int, real> -> real)
    requires Valid(vectors)
    ensures var r := SearchOf(mode, normalForm, documents, idf, index, vectors, query, topN, norm);
      var terms := QueryTerms(mode, normalForm, query);
      var qv := QueryVector(terms, index, idf);
      (terms == [] || norm(qv) < NormFloor ==> r == [])
      && (terms != [] && norm(qv) >= NormFloor ==> BestNamed(documents, Scores(vectors.keys, vectors.at, qv, norm(qv), norm), topN, r))
      && ScoreDescending(r)
      && (topN >= 0 ==> |r| <= topN)
      && (forall k :: 0 <= k < |r| ==> r[k].1 > ScoreFloor)
      && (r != [] ==> forall k :: 0 <= k < |r| ==> Earned(documents, vectors, qv, norm(qv), norm, r[k]))
  {
    var terms := QueryTerms(mode, normalForm, query);
    if terms != [] {
      var qv := QueryVector(terms, index, idf);
      if norm(qv) >= NormFloor {
        RankingShape(documents, vectors, qv, norm(qv), norm, topN);
      }
    }
  }

  /** A query none of whose terms is in the vocabulary has no results. */
  lemma UnknownTermsNoResults(mode: Mode, normalForm: string -> string, documents: map<string, string>,
                              idf: map<string, real>, index: map<string, int>, vectors: ODict<string, map<int, real>>,
                              query: string, topN: int, norm: map<int, real> -> real)
    requires Valid(vectors) && NormLike(norm) && Injective(index)
    requires forall t :: t in QueryTerms(mode, normalForm, query) ==> t !in index
    ensures SearchOf(mode, normalForm, documents, idf, index, vectors, query, topN, norm) == []
  {
    var terms := QueryTerms(mode, normalForm, query);
    var qv := QueryVector(terms, index, idf);
    assert qv == map[] by {
      if qv != map[] {
        var i := Pick(qv.Keys);
        QueryVectorSlots(terms, index, idf);
        assert false;
      }
    }
  }

  // ---------------------------------------------------------------------
  // The engine

  class VectorSearchEngine {
    const mode: Mode
    /** `self.documents`: document id -> page file name. */
    const documents: map<string, string>
    /** `self.morph.parse(word)[0].normal_form` */
    const normalForm: string -> string
    var termIdf: map<string, real>
    var termIndex: map<string, int>
    var docVectors: ODict<string, map<int, real>>

    ghost predicate Valid()
      reads this
    {
      ODicts.Valid(docVectors)
    }

    /** `__init__` up to the call of `_load_index`: everything empty. */
    constructor (mode: Mode, documents: map<string, string>, normalForm: string -> string)
      ensures this.mode == mode && this.documents == documents && this.normalForm == normalForm
      ensures termIdf == map[] && termIndex == map[] && docVectors == Empty()
      ensures Valid()
    {
      this.mode := mode;
      this.documents := documents;
      this.normalForm := normalForm;
      termIdf := map[];
      termIndex := map[];
      docVectors := Empty();
    }

    /** Pass one over one file: fills `term_idf` in place and returns the grown `terms`. */
    method LoadTermLines(fs: seq<seq<string>>, seen0: set<string>, parseFloat: string -> Option<real>)
      returns (r: Result<set<string>>)
      modifies this
      ensures (match r case Err(why) => Err(why) case Ok(s) => Ok(Vocabulary(termIdf, s)))
           == IdfLines(Ok(Vocabulary(old(termIdf), seen0)), fs, parseFloat)
      ensures termIndex == old(termIndex) && docVectors == old(docVectors)
    {
      var seen := seen0;
      for j := 0 to |fs|
        invariant IdfLines(Ok(Vocabulary(old(termIdf), seen0)), fs[..j], parseFloat) == Ok(Vocabulary(termIdf, seen))
        invariant termIndex == old(termIndex) && docVectors == old(docVectors)
      {
        var f := fs[j];
        IdfLinesStep(Ok(Vocabulary(old(termIdf), seen0)), fs, j, parseFloat);
        if |f| != 3 {
          IdfLinesFails(Ok(Vocabulary(old(termIdf), seen0)), fs, j, "ValueError", parseFloat);
          return Err("ValueError");
        }
        match parseFloat(f[1]) {
          case None =>
            IdfLinesFails(Ok(Vocabulary(old(termIdf), seen0)), fs, j, "ValueError", parseFloat);
            return Err("ValueError");
          case Some(x) =>
            termIdf := termIdf[f[0] := x];
            seen := seen + {f[0]};
        }
      }
      assert fs[..|fs|] == fs;
      r := Ok(seen);
    }

    /** Pass one over the listing. */
    method LoadTerms(dir: map<string, seq<string>>, names: seq<string>, parseFloat: string -> Option<real>)
      returns (r: Result<set<string>>)
      requires forall k :: 0 <= k < |names| ==> names[k] in dir
      modifies this
      ensures (match r case Err(why) => Err(why) case Ok(s) => Ok(Vocabulary(termIdf, s)))
           == IdfFiles(Ok(Vocabulary(old(termIdf), {})), dir, names, parseFloat)
      ensures termIndex == old(termIndex) && docVectors == old(docVectors)
    {
      var seen: set<string> := {};
      for i := 0 to |names|
        invariant IdfFiles(Ok(Vocabulary(old(termIdf), {})), dir, names[..i], parseFloat) == Ok(Vocabulary(termIdf, seen))
        invariant termIndex == old(termIndex) && docVectors == old(docVectors)
      {
        IdfFilesStep(Ok(Vocabulary(old(termIdf), {})), dir, names, i, parseFloat);
        var fs := FieldsOf(dir[names[i]]);
        var step := LoadTermLines(fs, seen, parseFloat);
        match step {
          case Err(why) =>
            IdfFilesFails(Ok(Vocabulary(old(termIdf), {})), dir, names, i, why, parseFloat);
            return Err(why);
          case Ok(s) =>
            seen := s;
        }
      }
      assert names[..|names|] == names;
      r := Ok(seen);
    }

    /** Pass two over one file: the file's vector. */
    method LoadVector(fs: seq<seq<string>>, parseFloat: string -> Option<real>) returns (r: Result<map<int, real>>)
      ensures r == VectorLines(Ok(map[]), fs, termIndex, parseFloat)
    {
      var vector: map<int, real> := map[];
      for j := 0 to |fs|
        invariant VectorLines(Ok(map[]), fs[..j], termIndex, parseFloat) == Ok(vector)
      {
        var f := fs[j];
        VectorLinesStep(Ok(map[]), fs, j, termIndex, parseFloat);
        if |f| != 3 {
          VectorLinesFails(Ok(map[]), fs, j, "ValueError", termIndex, parseFloat);
          return Err("ValueError");
        }
        if f[0] !in termIndex {
          VectorLinesFails(Ok(map[]), fs, j, "KeyError", termIndex, parseFloat);
          return Err("KeyError");
        }
        match parseFloat(f[2]) {
          case None =>
            VectorLinesFails(Ok(map[]), fs, j, "ValueError", termIndex, parseFloat);
            return Err("ValueError");
          case Some(x) =>
            vector := vector[termIndex[f[0]] := x];
        }
      }
      assert fs[..|fs|] == fs;
      r := Ok(vector);
    }

    /** Pass two over the listing: fills `doc_vectors` in place. */
    method LoadVectors(dir: map<string, seq<string>>, names: seq<string>, parseFloat: string -> Option<real>)
      returns (failure: Option<string>)
      requires forall k :: 0 <= k < |names| ==> names[k] in dir
      requires Valid()
      modifies this
      ensures Valid()
      ensures (match failure case Some(why) => Err(why) case None => Ok(docVectors))
           == VectorFiles(Ok(old(docVectors)), dir, names, termIndex, parseFloat)
      ensures termIdf == old(termIdf) && termIndex == old(termIndex)
    {
      for i := 0 to |names|
        invariant Valid()
        invariant VectorFiles(Ok(old(docVectors)), dir, names[..i], termIndex, parseFloat) == Ok(docVectors)
        invariant termIdf == old(termIdf) && termIndex == old(termIndex)
      {
        var vector := LoadVector(FieldsOf(dir[names[i]]), parseFloat);
        match vector {
          case Err(why) =>
            VectorFilesStops(Ok(old(docVectors)), dir, names, i, termIndex, parseFloat, docVectors, why);
            return Some(why);
          case Ok(v) =>
            VectorFilesOk(Ok(old(docVectors)), dir, names, i, termIndex, parseFloat, docVectors, v);
            docVectors := Put(docVectors, DocId(names[i]), v);
        }
      }
      assert names[..|names|] == names;
      failure := None;
    }

    /**
     * `_load_index`: pass one, the sorted term index, pass two. Python raises
     * the failure; the engine is then not usable.
     */
    method LoadIndex(dir: map<string, seq<string>>, names: seq<string>, parseFloat: string -> Option<real>)
      returns (failure: Option<string>)
      requires forall k :: 0 <= k < |names| ==> names[k] in dir
      requires Valid()
      modifies this
      ensures Valid()
      ensures match IdfFiles(Ok(Vocabulary(old(termIdf), {})), dir, names, parseFloat)
        case Err(why) => failure == Some(why)
        case Ok(v) =>
          termIdf == v.idf && termIndex == TermIndexOf(v.seen)
          && (match failure case Some(why) => Err(why) case None => Ok(docVectors))
             == VectorFiles(Ok(old(docVectors)), dir, names, termIndex, parseFloat)
    {
      var terms := LoadTerms(dir, names, parseFloat);
      match terms {
        case Err(why) =>
          return Some(why);
        case Ok(seen) =>
          termIndex := TermIndexOf(seen);
          failure := LoadVectors(dir, names, parseFloat);
      }
    }

    /** `_tokenize_query` */
    method TokenizeQuery(query: string) returns (tokens: seq<string>)
      ensures tokens == QueryTerms(mode, normalForm, query)
    {
      var words := QueryWords(LowerStr(query));
      tokens := CollectWordTerms(mode, normalForm, words);
    }

    /** `_vectorize_query` */
    method VectorizeQuery(terms: seq<string>) returns (qv: map<int, real>)
      ensures qv == QueryVector(terms, termIndex, termIdf)
    {
      var counts := Tally(terms);
      qv := map[];
      if terms == [] {
        return;
      }
      for i := 0 to |counts.keys|
        invariant qv == QueryVectorOf(counts.keys[..i], counts.at, |terms|, termIndex, termIdf)
      {
        var t := counts.keys[i];
        assert counts.keys[..i + 1][..i] == counts.keys[..i];
        if t in termIndex {
          qv := qv[termIndex[t] := QueryWeight(counts.at[t], |terms|, termIdf, t)];
        }
      }
      assert counts.keys[..|counts.keys|] == counts.keys;
    }

    /** The scoring loop of `search`. */
    method ScoreDocuments(qv: map<int, real>, qn: real, norm: map<int, real> -> real) returns (scores: seq<(string, real)>)
      requires Valid() && qn >= NormFloor
      ensures scores == Scores(docVectors.keys, docVectors.at, qv, qn, norm)
    {
      scores := ScoreAll(docVectors.keys, docVectors.at, qv, qn, norm);
    }

    /** `search(query, top_n)` */
    method Search(query: string, topN: int, norm: map<int, real> -> real) returns (results: seq<(string, real)>)
      requires Valid()
      ensures results == SearchOf(mode, normalForm, documents, termIdf, termIndex, docVectors, query, topN, norm)
    {
      var terms := TokenizeQuery(query);
      if terms == [] {
        return [];
      }
      var qv := VectorizeQuery(terms);
      var qn := norm(qv);
      if qn < NormFloor {
        return [];
      }
      var scores := ScoreDocuments(qv, qn, norm);
      results := Named(documents, Take(SortByScore(scores), topN));
    }
  }
}
