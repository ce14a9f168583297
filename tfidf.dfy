/**
 * The statistics builder of calculation_TFIDF.py: the words of a page, term
 * frequencies over the valid tokens and over the lemma families of one
 * document, document frequencies over the corpus, and IDF.
 *
 * `math.log` is the parameter `ln`; where a property needs it, `ln` is
 * strictly increasing on the positive reals and `ln(1) == 0`. Files are
 * given as their lines, a directory as a map from file name to lines, and
 * the text of a page as the output of `extract_text`. The `.6f` formatting
 * of the weight files is not modelled: a row carries the term's TF and IDF,
 * and its weight column is their product.
 */
module TfIdf {
  import opened Wrappers
  import opened Text
  import opened Order
  import opened ODicts

  // ---------------------------------------------------------------------
  // The words of a page

  /** `word.split('-')` of every field, concatenated in order. */
  function Pieces(fields: seq<string>): seq<string>
    decreases |fields|
  {
    if fields == [] then [] else Pieces(fields[..|fields| - 1]) + Split(fields[|fields| - 1], '-')
  }

  /** The `words` list of `process_document` for the cleaned text. */
  function WordsOf(cleaned: string): seq<string> {
    Pieces(SplitWs(cleaned))
  }

  /** `for word in cleaned_text.split(): words.extend(word.split('-'))` */
  method SplitWords(cleaned: string) returns (words: seq<string>)
    ensures words == WordsOf(cleaned)
  {
    var fields := SplitWs(cleaned);
    words := [];
    for i := 0 to |fields|
      invariant words == Pieces(fields[..i])
    {
      assert fields[..i + 1][..i] == fields[..i];
      words := words + Split(fields[i], '-');
    }
    assert fields[..|fields|] == fields;
  }

  /** Characters other than `-` of the fields that satisfy `p` give pieces that satisfy `p`. */
  lemma {:induction false} PiecesChars(fields: seq<string>, p: char -> bool)
    requires forall i, x :: 0 <= i < |fields| && x in fields[i] && x != '-' ==> p(x)
    ensures forall i, x :: 0 <= i < |Pieces(fields)| && x in Pieces(fields)[i] ==> p(x)
    decreases |fields|
  {
    if fields != [] {
      var init, last := fields[..|fields| - 1], fields[|fields| - 1];
      PiecesChars(init, p);
      SplitChars(last, '-');
      var a, b := Pieces(init), Split(last, '-');
      forall i, x | 0 <= i < |a + b| && x in (a + b)[i] ensures p(x) {
        if i >= |a| {
          assert (a + b)[i] == b[i - |a|];
          assert x in last && x != '-';
        } else {
          assert (a + b)[i] == a[i];
        }
      }
    }
  }

  /** The fields of a clean text hold only lower-case Cyrillic letters and `-`. */
  lemma CleanFields(t: string)
    requires IsClean(t)
    ensures forall i, x :: 0 <= i < |SplitWs(t)| && x in SplitWs(t)[i] && x != '-' ==> IsCyrLower(x)
  {
    SplitWsChars(t);
    var fields := SplitWs(t);
    forall i, x | 0 <= i < |fields| && x in fields[i] && x != '-' ensures IsCyrLower(x) {
      var j :| 0 <= j < |fields[i]| && fields[i][j] == x;
      assert !IsSpace(fields[i][j]);
      assert x in t;
      var k :| 0 <= k < |t| && t[k] == x;
    }
  }

  /** The words of a cleaned text are made of lower-case Cyrillic letters only. */
  lemma WordsOfCleanText(s: string)
    ensures forall i, x :: 0 <= i < |WordsOf(CleanText(s))| && x in WordsOf(CleanText(s))[i] ==> IsCyrLower(x)
  {
    CleanTextIsClean(s);
    CleanFields(CleanText(s));
    PiecesChars(SplitWs(CleanText(s)), IsCyrLower);
  }

  // ---------------------------------------------------------------------
  // Token frequencies

  /** `[line.strip() for line in f if line.strip()]` */
  function ValidTokens(lines: seq<string>): (r: seq<string>)
    ensures forall i :: 0 <= i < |r| ==> r[i] != []
    decreases |lines|
  {
    if lines == [] then []
    else
      var t := Strip(lines[|lines| - 1]);
      ValidTokens(lines[..|lines| - 1]) + (if t != [] then [t] else [])
  }

  /** `word for word in words if word in valid_tokens` */
  function Kept(words: seq<string>, valid: seq<string>): seq<string>
    decreases |words|
  {
    if words == [] then []
    else
      var w := words[|words| - 1];
      Kept(words[..|words| - 1], valid) + (if w in valid then [w] else [])
  }

  /** `Counter(word for word in words if word in valid_tokens)` */
  function TokenCounts(words: seq<string>, valid: seq<string>): (r: ODict<string, nat>)
    ensures Valid(r)
  {
    Tally(Kept(words, valid))
  }

  /** `sum(counter.values())` */
  function Total(d: ODict<string, nat>): nat
    requires Valid(d)
  {
    Sum(Values(d))
  }

  function Sum(xs: seq<nat>): nat
    decreases |xs|
  {
    if xs == [] then 0 else Sum(xs[..|xs| - 1]) + xs[|xs| - 1]
  }

  /** `sum(counter.values()) or 1`: the total, or 1 when it is 0. */
  function Denominator(d: ODict<string, nat>): (r: nat)
    requires Valid(d)
    ensures r > 0 && (Total(d) > 0 ==> r == Total(d))
  {
    var t := Total(d);
    if t == 0 then 1 else t
  }

  /** The valid tokens are the nonblank lines of the token file, stripped. */
  lemma {:induction false} ValidTokensMembers(lines: seq<string>, t: string)
    ensures t in ValidTokens(lines) <==> t != [] && exists k :: 0 <= k < |lines| && Strip(lines[k]) == t
    decreases |lines|
  {
    if lines != [] {
      var init := lines[..|lines| - 1];
      ValidTokensMembers(init, t);
      SomeLineGivesSnoc(lines, Strip, t);
      assert SomeLineGives(lines, Strip, t) <==> exists k :: 0 <= k < |lines| && Strip(lines[k]) == t;
      assert SomeLineGives(init, Strip, t) <==> exists k :: 0 <= k < |init| && Strip(init[k]) == t;
    }
  }

  /** Some line of `lines` becomes `t` under `f`. */
  ghost predicate SomeLineGives(lines: seq<string>, f: string -> string, t: string) {
    exists k :: 0 <= k < |lines| && f(lines[k]) == t
  }

  /** A line of `lines` that gives `t` is one of its first lines or its last line. */
  lemma SomeLineGivesSnoc(lines: seq<string>, f: string -> string, t: string)
    requires lines != []
    ensures SomeLineGives(lines, f, t) <==> SomeLineGives(lines[..|lines| - 1], f, t) || f(lines[|lines| - 1]) == t
  {
    var init := lines[..|lines| - 1];
    if SomeLineGives(lines, f, t) {
      var k :| 0 <= k < |lines| && f(lines[k]) == t;
      if k < |init| {
        assert f(init[k]) == t;
      }
    }
    if SomeLineGives(init, f, t) {
      var k :| 0 <= k < |init| && f(init[k]) == t;
      assert f(lines[k]) == t;
    }
  }

  /** A word is kept iff it is one of the words and a valid token. */
  lemma {:induction false} KeptMembers(words: seq<string>, valid: seq<string>, t: string)
    ensures t in Kept(words, valid) <==> t in words && t in valid
    decreases |words|
  {
    if words != [] {
      var init, w := words[..|words| - 1], words[|words| - 1];
      KeptMembers(init, valid, t);
      assert words == init + [w];
    }
  }

  /** Keeping only valid tokens does not change how often a valid token occurs. */
  lemma {:induction false} KeptOccurrences(words: seq<string>, valid: seq<string>, t: string)
    requires t in valid
    ensures Occurrences(Kept(words, valid), t) == Occurrences(words, t)
    decreases |words|
  {
    if words != [] {
      var init, w := words[..|words| - 1], words[|words| - 1];
      KeptOccurrences(init, valid, t);
      var k := Kept(init, valid);
      if w in valid {
        assert (k + [w])[..|k + [w]| - 1] == k;
      } else {
        assert k + [] == k;
      }
    }
  }

  /**
   * A token is counted iff it occurs among the words and is a valid token,
   * and its count is its number of occurrences among the words.
   */
  lemma TokenCountsAre(words: seq<string>, valid: seq<string>, t: string)
    ensures t in TokenCounts(words, valid).at <==> t in words && t in valid
    ensures t in TokenCounts(words, valid).at ==> TokenCounts(words, valid).at[t] == Occurrences(words, t)
  {
    KeptMembers(words, valid, t);
    if t in words && t in valid {
      KeptOccurrences(words, valid, t);
      TallyCounts(Kept(words, valid), t);
    }
  }

  lemma {:induction false} SumAppend(xs: seq<nat>, x: nat)
    ensures Sum(xs + [x]) == Sum(xs) + x
  {
    assert (xs + [x])[..|xs + [x]| - 1] == xs;
  }

  /** Adding one to an element adds one to the sum. */
  lemma {:induction false} SumIncrement(xs: seq<nat>, i: nat)
    requires i < |xs|
    ensures Sum(xs[i := xs[i] + 1]) == Sum(xs) + 1
    decreases |xs|
  {
    var ys := xs[i := xs[i] + 1];
    var n := |xs| - 1;
    if i < n {
      SumIncrement(xs[..n], i);
      assert ys[..n] == xs[..n][i := xs[i] + 1];
    } else {
      assert ys[..n] == xs[..n];
    }
  }

  lemma {:induction false} SumAtLeast(xs: seq<nat>, i: nat)
    requires i < |xs|
    ensures xs[i] <= Sum(xs)
    decreases |xs|
  {
    if i < |xs| - 1 {
      SumAtLeast(xs[..|xs| - 1], i);
    }
  }

  /** Counting one more occurrence adds one to the total. */
  lemma {:induction false} TotalPut(d: ODict<string, nat>, x: string)
    requires Valid(d)
    ensures Total(Put(d, x, Get<string, nat>(d, x, 0) + 1)) == Total(d) + 1
  {
    var v: nat := Get<string, nat>(d, x, 0) + 1;
    var xs := Values(d);
    var ys := Values(Put(d, x, v));
    if x in d.at {
      var i := ValuesPutPresent(d, x, v);
      assert ys == xs[i := xs[i] + 1];
      SumIncrement(xs, i);
    } else {
      ValuesPutNew(d, x, v);
      assert ys == xs + [1];
      SumAppend(xs, 1);
    }
    assert Sum(ys) == Sum(xs) + 1;
  }

  /** `sum(Counter(s).values()) == len(s)` */
  lemma {:induction false} TotalOfTally(s: seq<string>)
    ensures Total(Tally(s)) == |s|
    decreases |s|
  {
    if s != [] {
      var init, x := s[..|s| - 1], s[|s| - 1];
      var d := Tally(init);
      assert Tally(s) == Put(d, x, Get<string, nat>(d, x, 0) + 1);
      TotalOfTally(init);
      TotalPut(d, x);
    }
  }

  /** The token total is the number of words that are valid tokens. */
  lemma TokenTotal(words: seq<string>, valid: seq<string>)
    ensures Total(TokenCounts(words, valid)) == |Kept(words, valid)|
  {
    TotalOfTally(Kept(words, valid));
  }

  // ---------------------------------------------------------------------
  // TF and IDF

  /** `count / total_words` */
  function Share(count: nat, total: nat): real
    requires total > 0
  {
    count as real / total as real
  }

  lemma ShareBounds(count: nat, total: nat)
    requires total > 0
    ensures 0.0 <= Share(count, total)
    ensures Share(count, total) > 0.0 <==> count > 0
    ensures count <= total ==> Share(count, total) <= 1.0
    ensures count == total ==> Share(count, total) == 1.0
  {
    var x, t, c := Share(count, total), total as real, count as real;
    assert x * t == c;
    assert (x - 1.0) * t == c - t;
    SignOfProduct(x, t);
    SignOfProduct(x - 1.0, t);
    assert x > 0.0 <==> c > 0.0;
    assert x >= 0.0;
    assert c <= t ==> x - 1.0 <= 0.0;
    assert c == t ==> x - 1.0 == 0.0;
  }

  lemma ShareAdd(a: nat, b: nat, total: nat)
    requires total > 0
    ensures Share(a, total) + Share(b, total) == Share(a + b, total)
  {
  }

  /** `compute_tf`: each count divided by the total. */
  function ComputeTf(counts: ODict<string, nat>, total: nat): (tf: map<string, real>)
    requires total > 0
    ensures tf.Keys == counts.at.Keys
  {
    map w | w in counts.at :: Share(counts.at[w], total)
  }

  /** The frequencies of one document: `compute_tf(counts, sum(counts.values()) or 1)`. */
  function Frequency(counts: ODict<string, nat>): map<string, real>
    requires Valid(counts)
  {
    ComputeTf(counts, Denominator(counts))
  }

  /** A term frequency lies in [0, 1], and is positive exactly when the term was counted at least once. */
  lemma TfBounds(counts: ODict<string, nat>, w: string)
    requires Valid(counts) && w in counts.at
    ensures 0.0 <= Frequency(counts)[w] <= 1.0
    ensures Frequency(counts)[w] > 0.0 <==> counts.at[w] > 0
  {
    var i :| 0 <= i < |counts.keys| && counts.keys[i] == w;
    SumAtLeast(Values(counts), i);
    ShareBounds(counts.at[w], Denominator(counts));
  }

  /** `tf.get(t, 0.0)`: the count of `t` (0 when it was not counted) over the denominator. */
  lemma FrequencyAt(counts: ODict<string, nat>, t: string, n: nat)
    requires Valid(counts)
    requires if t in counts.at then counts.at[t] == n else n == 0
    ensures Lookup(Frequency(counts), t) == Share(n, Denominator(counts))
  {
  }

  /** Python's `sum` over floats, modelled as exact reals. */
  function SumReals(xs: seq<real>): real
    decreases |xs|
  {
    if xs == [] then 0.0 else SumReals(xs[..|xs| - 1]) + xs[|xs| - 1]
  }

  /** Each count divided by `total`. */
  function Scaled(xs: seq<nat>, total: nat): (r: seq<real>)
    requires total > 0
    ensures |r| == |xs| && forall i :: 0 <= i < |xs| ==> r[i] == Share(xs[i], total)
    decreases |xs|
  {
    if xs == [] then [] else Scaled(xs[..|xs| - 1], total) + [Share(xs[|xs| - 1], total)]
  }

  lemma {:induction false} SumScaled(xs: seq<nat>, total: nat)
    requires total > 0
    ensures SumReals(Scaled(xs, total)) == Share(Sum(xs), total)
    decreases |xs|
  {
    if xs != [] {
      var init := xs[..|xs| - 1];
      SumScaled(init, total);
      var r := Scaled(xs, total);
      assert r[..|r| - 1] == Scaled(init, total);
      ShareAdd(Sum(init), xs[|xs| - 1], total);
    }
  }

  /** The frequencies of the counted terms, in counting order. */
  function FrequencyList(counts: ODict<string, nat>): (r: seq<real>)
    requires Valid(counts)
    ensures |r| == |counts.keys|
  {
    var tf := Frequency(counts);
    seq(|counts.keys|, i requires 0 <= i < |counts.keys| => tf[counts.keys[i]])
  }

  /** When anything was counted, the frequencies of a document add up to 1. */
  lemma TfSumsToOne(counts: ODict<string, nat>)
    requires Valid(counts) && Total(counts) > 0
    ensures SumReals(FrequencyList(counts)) == 1.0
  {
    var d := Denominator(counts);
    var fs := FrequencyList(counts);
    var vs := Values(counts);
    forall i | 0 <= i < |fs| ensures fs[i] == Scaled(vs, d)[i] {
      FrequencyAt(counts, counts.keys[i], vs[i]);
    }
    assert fs == Scaled(vs, d);
    SumScaled(vs, d);
    ShareBounds(d, d);
  }

  /** `compute_idf`: `log(total_docs / (freq + 1))` for each term. */
  function ComputeIdf(df: map<string, nat>, totalDocs: nat, ln: real -> real): (idf: map<string, real>)
    requires totalDocs > 0
    ensures idf.Keys == df.Keys
  {
    map w | w in df :: ln(totalDocs as real / (df[w] + 1) as real)
  }

  /** What the properties of IDF use of `math.log`. */
  ghost predicate LogLike(ln: real -> real) {
    ln(1.0) == 0.0 && forall x, y :: 0.0 < x < y ==> ln(x) < ln(y)
  }

  /** A term in more documents never has a larger IDF. */
  lemma IdfAntitone(df: map<string, nat>, totalDocs: nat, ln: real -> real, a: string, b: string)
    requires totalDocs > 0 && LogLike(ln) && a in df && b in df && df[a] <= df[b]
    ensures ComputeIdf(df, totalDocs, ln)[b] <= ComputeIdf(df, totalDocs, ln)[a]
  {
    var n := totalDocs as real;
    var p, q := (df[a] + 1) as real, (df[b] + 1) as real;
    if p < q {
      assert n / q < n / p by {
        assert n / q * q == n == n / p * p;
      }
    }
  }

  /**
   * IDF is positive exactly when the term is in fewer than `total_docs - 1`
   * documents, zero when it is in exactly that many; it is not clamped, so a
   * term in every document has a negative IDF.
   */
  lemma IdfSign(df: map<string, nat>, totalDocs: nat, ln: real -> real, t: string)
    requires totalDocs > 0 && LogLike(ln) && t in df
    ensures ComputeIdf(df, totalDocs, ln)[t] > 0.0 <==> df[t] + 1 < totalDocs
    ensures ComputeIdf(df, totalDocs, ln)[t] == 0.0 <==> df[t] + 1 == totalDocs
    ensures df[t] >= totalDocs ==> ComputeIdf(df, totalDocs, ln)[t] < 0.0
  {
    var n, p := totalDocs as real, (df[t] + 1) as real;
    var x := n / p;
    Ratio(n, p);
    if p < n {
      assert ln(1.0) < ln(x);
    } else if p > n {
      assert ln(x) < ln(1.0);
    }
  }

  lemma Ratio(n: real, p: real)
    requires n > 0.0 && p > 0.0
    ensures n / p > 1.0 <==> n > p
    ensures n / p == 1.0 <==> n == p
  {
    var x := n / p;
    assert x * p == n;
    SignOfProduct(x - 1.0, p);
    assert (x - 1.0) * p == x * p - 1.0 * p;
  }

  lemma SignOfProduct(a: real, p: real)
    requires p > 0.0
    ensures a > 0.0 ==> a * p > 0.0
    ensures a < 0.0 ==> a * p < 0.0
    ensures a == 0.0 ==> a * p == 0.0
  {
  }


  // ---------------------------------------------------------------------
  // Lemma families of one document

  /** `forms = parts[1:] if len(parts) > 1 else [lemma]` */
  function FormsOf(parts: seq<string>): (r: seq<string>)
    requires parts != []
    ensures r != [] && (|parts| == 1 ==> r == parts) && (|parts| > 1 ==> r == parts[1..])
  {
    if |parts| > 1 then parts[1..] else [parts[0]]
  }

  /** One line of the lemma file: a nonblank line sets the forms of its first word. */
  function PutLine(d: ODict<string, seq<string>>, parts: seq<string>): (r: ODict<string, seq<string>>)
    requires Valid(d)
    ensures Valid(r)
  {
    if parts == [] then d else Put(d, parts[0], FormsOf(parts))
  }

  /** The `lemma_forms` dict after the lines whose fields are `ps`. */
  function FormsFold(ps: seq<seq<string>>): (r: ODict<string, seq<string>>)
    ensures Valid(r)
    decreases |ps|
  {
    if ps == [] then Empty() else PutLine(FormsFold(ps[..|ps| - 1]), ps[|ps| - 1])
  }

  /** The `lemma_forms` of a lemma file. */
  function LemmaForms(lines: seq<string>): (r: ODict<string, seq<string>>)
    ensures Valid(r)
  {
    FormsFold(FieldsOf(lines))
  }

  /** The loop of `process_document` that reads the lemma file. */
  method ReadLemmaForms(lines: seq<string>) returns (forms: ODict<string, seq<string>>)
    ensures forms == LemmaForms(lines)
  {
    forms := Empty();
    for i := 0 to |lines|
      invariant forms == FormsFold(FieldsOf(lines)[..i])
    {
      var parts := Fields(lines[i]);
      FormsStep(FieldsOf(lines), i);
      if parts != [] {
        var normal := parts[0];
        var fs := if |parts| > 1 then parts[1..] else [normal];
        forms := Put(forms, normal, fs);
      }
    }
    assert FieldsOf(lines)[..|lines|] == FieldsOf(lines);
  }

  lemma FormsStep(ps: seq<seq<string>>, i: nat)
    requires i < |ps|
    ensures FormsFold(ps[..i + 1]) == PutLine(FormsFold(ps[..i]), ps[i])
  {
    assert ps[..i + 1][..i] == ps[..i];
  }

  /** A word has forms iff it is the first field of some line. */
  lemma {:induction false} FormsKeys(ps: seq<seq<string>>, normal: string)
    ensures normal in FormsFold(ps).at <==> exists k :: 0 <= k < |ps| && ps[k] != [] && ps[k][0] == normal
    decreases |ps|
  {
    if ps != [] {
      var init := ps[..|ps| - 1];
      FormsKeys(init, normal);
      if exists k :: 0 <= k < |init| && init[k] != [] && init[k][0] == normal {
        var k :| 0 <= k < |init| && init[k] != [] && init[k][0] == normal;
        assert ps[k] == init[k];
      }
      if exists k :: 0 <= k < |ps| && ps[k] != [] && ps[k][0] == normal {
        var k :| 0 <= k < |ps| && ps[k] != [] && ps[k][0] == normal;
        if k < |init| {
          assert init[k] == ps[k];
        }
      }
    }
  }

  /** The last line of a lemma decides its forms. */
  lemma {:induction false} FormsLastWins(ps: seq<seq<string>>, k: nat)
    requires k < |ps| && ps[k] != []
    requires forall j :: k < j < |ps| && ps[j] != [] ==> ps[j][0] != ps[k][0]
    ensures ps[k][0] in FormsFold(ps).at && FormsFold(ps).at[ps[k][0]] == FormsOf(ps[k])
    decreases |ps|
  {
    var init := ps[..|ps| - 1];
    if k < |init| {
      FormsLastWins(init, k);
    }
  }

  // ---------------------------------------------------------------------
  // Lemma counts

  /** `sum(words.count(form) for form in forms)` */
  function FormsCount(words: seq<string>, forms: seq<string>): nat
    decreases |forms|
  {
    if forms == [] then 0 else FormsCount(words, forms[..|forms| - 1]) + Occurrences(words, forms[|forms| - 1])
  }

  lemma {:induction false} OccurrencesPresent(s: seq<string>, x: string)
    requires x in s
    ensures Occurrences(s, x) > 0
    decreases |s|
  {
    if s[|s| - 1] != x {
      assert x in s[..|s| - 1];
      OccurrencesPresent(s[..|s| - 1], x);
    }
  }

  /** A lemma counts nothing exactly when none of its forms is among the words. */
  lemma {:induction false} FormsCountZero(words: seq<string>, forms: seq<string>)
    ensures FormsCount(words, forms) == 0 <==> forall i :: 0 <= i < |forms| ==> forms[i] !in words
    decreases |forms|
  {
    if forms != [] {
      var init, f := forms[..|forms| - 1], forms[|forms| - 1];
      FormsCountZero(words, init);
      if f in words {
        OccurrencesPresent(words, f);
      } else {
        OccurrencesAbsent(words, f);
      }
      assert forall i :: 0 <= i < |init| ==> forms[i] == init[i];
    }
  }

  /**
   * `lemma_counts` after the loop of `process_document`: every lemma of the
   * file is a key, in file order, with the count of its forms, even when
   * that count is 0 (`Counter.__setitem__` stores it).
   */
  function LemmaCounts(forms: ODict<string, seq<string>>, words: seq<string>): (r: ODict<string, nat>)
    requires Valid(forms)
    ensures Valid(r) && r.keys == forms.keys
  {
    ODict(forms.keys, map normal | normal in forms.at :: FormsCount(words, forms.at[normal]))
  }

  /** `for lemma, forms in lemma_forms.items(): lemma_counts[lemma] += ...` */
  method CountLemmas(forms: ODict<string, seq<string>>, words: seq<string>) returns (counts: ODict<string, nat>)
    requires Valid(forms)
    ensures counts == LemmaCounts(forms, words)
  {
    counts := Empty();
    for i := 0 to |forms.keys|
      invariant Valid(counts) && counts.keys == forms.keys[..i]
      invariant forall l :: l in counts.at ==> l in forms.at && counts.at[l] == FormsCount(words, forms.at[l])
    {
      var normal := forms.keys[i];
      assert normal !in counts.keys;
      counts := Put(counts, normal, Get<string, nat>(counts, normal, 0) + FormsCount(words, forms.at[normal]));
      assert forms.keys[..i + 1] == forms.keys[..i] + [normal];
    }
    assert forms.keys[..|forms.keys|] == forms.keys;
  }

  /** A lemma has frequency 0 exactly when none of its forms occurs among the words. */
  lemma LemmaTfZero(forms: ODict<string, seq<string>>, words: seq<string>, normal: string)
    requires Valid(forms) && normal in forms.at
    ensures normal in Frequency(LemmaCounts(forms, words))
    ensures Frequency(LemmaCounts(forms, words))[normal] == 0.0 <==> forall i :: 0 <= i < |forms.at[normal]| ==> forms.at[normal][i] !in words
  {
    var c := LemmaCounts(forms, words);
    FormsCountZero(words, forms.at[normal]);
    assert c.at[normal] == FormsCount(words, forms.at[normal]);
  }

  // ---------------------------------------------------------------------
  // Output rows

  /** One line `term idf weight` of a weight file, with the TF the weight is made of. */
  datatype Row = Row(term: string, tf: real, idf: real)

  /** The weight column: `tf * idf`. */
  function Weight(r: Row): real {
    r.tf * r.idf
  }

  /** `d.get(term, 0.0)` */
  function Lookup(d: map<string, real>, t: string): real {
    if t in d then d[t] else 0.0
  }

  /** The rows written for `terms`: IDF and TF, each defaulting to 0.0, and their product. */
  function RowsOf(terms: seq<string>, tf: map<string, real>, idf: map<string, real>): (r: seq<Row>)
    ensures |r| == |terms|
    ensures forall i :: 0 <= i < |r| ==> r[i].term == terms[i]
    ensures forall i :: 0 <= i < |r| ==> (terms[i] !in tf || terms[i] !in idf) ==> Weight(r[i]) == 0.0
  {
    seq(|terms|, i requires 0 <= i < |terms| => Row(terms[i], Lookup(tf, terms[i]), Lookup(idf, terms[i])))
  }

  /** The writing loops of `process_document`. */
  method WriteRows(terms: seq<string>, tf: map<string, real>, idf: map<string, real>) returns (rows: seq<Row>)
    ensures rows == RowsOf(terms, tf, idf)
  {
    rows := [];
    for i := 0 to |terms|
      invariant rows == RowsOf(terms[..i], tf, idf)
    {
      var t := terms[i];
      var tfv := if t in tf then tf[t] else 0.0;
      var idfv := if t in idf then idf[t] else 0.0;
      assert RowsOf(terms[..i + 1], tf, idf) == RowsOf(terms[..i], tf, idf) + [Row(t, tfv, idfv)];
      rows := rows + [Row(t, tfv, idfv)];
    }
    assert terms[..|terms|] == terms;
  }

  // ---------------------------------------------------------------------
  // One document

  /** The two weight files of one document. */
  datatype Weights = Weights(tokens: seq<Row>, lemmas: seq<Row>)

  function TokensFile(id: string): string { id + "-tokens.txt" }
  function LemmasFile(id: string): string { id + "-lemmas.txt" }

  /** The rows of a document from its words, its valid tokens and its lemma forms. */
  function WeightsOf(words: seq<string>, valid: seq<string>, forms: ODict<string, seq<string>>,
                     tokenIdf: map<string, real>, lemmaIdf: map<string, real>): Weights
    requires Valid(forms)
  {
    Weights(RowsOf(valid, Frequency(TokenCounts(words, valid)), tokenIdf),
            RowsOf(forms.keys, Frequency(LemmaCounts(forms, words)), lemmaIdf))
  }

  /**
   * `process_document` for the text of a page (`None` where the HTML file is
   * missing and nothing is written); a missing token or lemma file raises.
   */
  function DocumentOf(id: string, page: Option<string>, tokenDir: map<string, seq<string>>,
                      lemmaDir: map<string, seq<string>>, tokenIdf: map<string, real>,
                      lemmaIdf: map<string, real>): Result<Option<Weights>>
  {
    match page
    case None => Ok(None)
    case Some(text) =>
      if TokensFile(id) !in tokenDir || LemmasFile(id) !in lemmaDir then Err("FileNotFoundError")
      else Ok(Some(WeightsOf(WordsOf(CleanText(text)), ValidTokens(tokenDir[TokensFile(id)]),
                             LemmaForms(lemmaDir[LemmasFile(id)]), tokenIdf, lemmaIdf)))
  }

  /** `process_document` */
  method ProcessDocument(id: string, page: Option<string>, tokenDir: map<string, seq<string>>,
                         lemmaDir: map<string, seq<string>>, tokenIdf: map<string, real>,
                         lemmaIdf: map<string, real>) returns (r: Result<Option<Weights>>)
    ensures r == DocumentOf(id, page, tokenDir, lemmaDir, tokenIdf, lemmaIdf)
  {
    match page {
      case None =>
        return Ok(None);
      case Some(text) =>
        var words := SplitWords(CleanText(text));
        if TokensFile(id) !in tokenDir {
          return Err("FileNotFoundError");
        }
        var valid := ValidTokens(tokenDir[TokensFile(id)]);
        var tokenCounts := TokenCounts(words, valid);
        var tfTokens := ComputeTf(tokenCounts, Denominator(tokenCounts));
        if LemmasFile(id) !in lemmaDir {
          return Err("FileNotFoundError");
        }
        var forms := ReadLemmaForms(lemmaDir[LemmasFile(id)]);
        var lemmaCounts := CountLemmas(forms, words);
        var tfLemmas := ComputeTf(lemmaCounts, Denominator(lemmaCounts));
        var tokenRows := WriteRows(valid, tfTokens, tokenIdf);
        var lemmaRows := WriteRows(forms.keys, tfLemmas, lemmaIdf);
        return Ok(Some(Weights(tokenRows, lemmaRows)));
    }
  }

  /**
   * A token row: the token's occurrences among the words over the token
   * total (or 1), and its IDF (0 when the token has none).
   */
  lemma TokenRow(words: seq<string>, valid: seq<string>, forms: ODict<string, seq<string>>,
                 tokenIdf: map<string, real>, lemmaIdf: map<string, real>, i: nat)
    requires Valid(forms) && i < |valid|
    ensures WeightsOf(words, valid, forms, tokenIdf, lemmaIdf).tokens[i]
         == Row(valid[i], Share(Occurrences(words, valid[i]), Denominator(TokenCounts(words, valid))), Lookup(tokenIdf, valid[i]))
  {
    var t := valid[i];
    var counts := TokenCounts(words, valid);
    TokenCountsAre(words, valid, t);
    if t !in words {
      OccurrencesAbsent(words, t);
    }
    FrequencyAt(counts, t, Occurrences(words, t));
  }

  /**
   * A lemma row: the occurrences of the lemma's forms over the lemma total
   * (or 1), and its IDF (0 when the lemma has none).
   */
  lemma LemmaRow(words: seq<string>, valid: seq<string>, forms: ODict<string, seq<string>>,
                 tokenIdf: map<string, real>, lemmaIdf: map<string, real>, i: nat)
    requires Valid(forms) && i < |forms.keys|
    ensures WeightsOf(words, valid, forms, tokenIdf, lemmaIdf).lemmas[i]
         == Row(forms.keys[i], Share(FormsCount(words, forms.at[forms.keys[i]]), Denominator(LemmaCounts(forms, words))),
                Lookup(lemmaIdf, forms.keys[i]))
  {
    var normal := forms.keys[i];
    FrequencyAt(LemmaCounts(forms, words), normal, FormsCount(words, forms.at[normal]));
  }

  // ---------------------------------------------------------------------
  // Document frequencies over the corpus (the first loop of `main`)

  /** `counter[t]` of a Counter: 0 for a missing key. */
  function Count(df: map<string, nat>, t: string): nat {
    if t in df then df[t] else 0
  }

  /** The distinct valid tokens of a token file: `set(tokens)`. */
  function TokenSet(lines: seq<string>): set<string> {
    set t | t in ValidTokens(lines)
  }

  /** `token_doc_freq.update(set(tokens))`: one more document for each distinct token. */
  function AddTokens(df: map<string, nat>, tokens: set<string>): (r: map<string, nat>)
    ensures r.Keys == df.Keys + tokens
  {
    map t | t in df.Keys + tokens :: Count(df, t) + (if t in tokens then 1 else 0)
  }

  /** One line of a lemma file: `lemma_doc_freq[line.strip().split()[0]] += 1`; a blank line raises. */
  function AddLemma(acc: Result<map<string, nat>>, f: Option<string>): Result<map<string, nat>> {
    match acc
    case Err(why) => Err(why)
    case Ok(df) =>
      match f
      case None => Err("IndexError")
      case Some(l) => Ok(df[l := Count(df, l) + 1])
  }

  /** The lines of one lemma file, in order. */
  function AddLemmas(df: map<string, nat>, fs: seq<Option<string>>): Result<map<string, nat>>
    decreases |fs|
  {
    if fs == [] then Ok(df) else AddLemma(AddLemmas(df, fs[..|fs| - 1]), fs[|fs| - 1])
  }

  /** `token_doc_freq` and `lemma_doc_freq` */
  datatype DocFrequencies = DocFrequencies(tokens: map<string, nat>, lemmas: map<string, nat>)

  /** One document of the loop; a missing token or lemma file raises. */
  function AddDoc(acc: Result<DocFrequencies>, tokenDir: map<string, seq<string>>,
                  lemmaDir: map<string, seq<string>>, id: string): Result<DocFrequencies>
  {
    match acc
    case Err(why) => Err(why)
    case Ok(f) =>
      if TokensFile(id) !in tokenDir || LemmasFile(id) !in lemmaDir then Err("FileNotFoundError")
      else
        match AddLemmas(f.lemmas, Firsts(lemmaDir[LemmasFile(id)]))
        case Err(why) => Err(why)
        case Ok(l) => Ok(DocFrequencies(AddTokens(f.tokens, TokenSet(tokenDir[TokensFile(id)])), l))
  }

  /** The document frequencies after the documents `ids`, in order. */
  function AddDocs(tokenDir: map<string, seq<string>>, lemmaDir: map<string, seq<string>>,
                   ids: seq<string>): Result<DocFrequencies>
    decreases |ids|
  {
    if ids == [] then Ok(DocFrequencies(map[], map[]))
    else AddDoc(AddDocs(tokenDir, lemmaDir, ids[..|ids| - 1]), tokenDir, lemmaDir, ids[|ids| - 1])
  }

  /** `for doc_id in doc_ids: ...` counting token and lemma document frequencies. */
  method CountDocuments(tokenDir: map<string, seq<string>>, lemmaDir: map<string, seq<string>>,
                        ids: seq<string>) returns (r: Result<DocFrequencies>)
    ensures r == AddDocs(tokenDir, lemmaDir, ids)
  {
    var tokenDf: map<string, nat> := map[];
    var lemmaDf: map<string, nat> := map[];
    for i := 0 to |ids|
      invariant AddDocs(tokenDir, lemmaDir, ids[..i]) == Ok(DocFrequencies(tokenDf, lemmaDf))
    {
      DocsStep(tokenDir, lemmaDir, ids, i);
      var id := ids[i];
      if TokensFile(id) !in tokenDir {
        DocsErrStays(tokenDir, lemmaDir, ids, i + 1);
        return Err("FileNotFoundError");
      }
      var tokens := AddTokens(tokenDf, TokenSet(tokenDir[TokensFile(id)]));
      if LemmasFile(id) !in lemmaDir {
        DocsErrStays(tokenDir, lemmaDir, ids, i + 1);
        return Err("FileNotFoundError");
      }
      var lemmas := CountLemmaLines(lemmaDf, lemmaDir[LemmasFile(id)]);
      match lemmas {
        case Err(why) =>
          DocsErrStays(tokenDir, lemmaDir, ids, i + 1);
          return Err(why);
        case Ok(l) =>
          tokenDf, lemmaDf := tokens, l;
      }
    }
    assert ids[..|ids|] == ids;
    return Ok(DocFrequencies(tokenDf, lemmaDf));
  }

  /** The inner loop over the lines of one lemma file. */
  method CountLemmaLines(start: map<string, nat>, lines: seq<string>) returns (r: Result<map<string, nat>>)
    ensures r == AddLemmas(start, Firsts(lines))
  {
    var df := start;
    for j := 0 to |lines|
      invariant AddLemmas(start, Firsts(lines)[..j]) == Ok(df)
    {
      match FirstField(lines[j]) {
        case None =>
          LemmaLineFails(start, lines, j);
          return Err("IndexError");
        case Some(l) =>
          LemmaLineStep(start, lines, j, df, l);
          df := df[l := Count(df, l) + 1];
      }
    }
    assert Firsts(lines)[..|lines|] == Firsts(lines);
    return Ok(df);
  }

  lemma LemmaLineStep(start: map<string, nat>, lines: seq<string>, j: nat, df: map<string, nat>, l: string)
    requires j < |lines| && AddLemmas(start, Firsts(lines)[..j]) == Ok(df)
    requires FirstField(lines[j]) == Some(l)
    ensures AddLemmas(start, Firsts(lines)[..j + 1]) == Ok(df[l := Count(df, l) + 1])
  {
    FirstLemmaStep(start, Firsts(lines), j, df, l);
  }

  lemma FirstLemmaStep(start: map<string, nat>, fs: seq<Option<string>>, j: nat, df: map<string, nat>, l: string)
    requires j < |fs| && AddLemmas(start, fs[..j]) == Ok(df) && fs[j] == Some(l)
    ensures AddLemmas(start, fs[..j + 1]) == Ok(df[l := Count(df, l) + 1])
  {
    LemmasStep(start, fs, j);
  }

  lemma LemmaLineFails(start: map<string, nat>, lines: seq<string>, j: nat)
    requires j < |lines| && AddLemmas(start, Firsts(lines)[..j]).Ok?
    requires FirstField(lines[j]).None?
    ensures AddLemmas(start, Firsts(lines)) == Err("IndexError")
  {
    LemmasStep(start, Firsts(lines), j);
    LemmasErrStays(start, Firsts(lines), j + 1);
  }

  lemma DocsStep(tokenDir: map<string, seq<string>>, lemmaDir: map<string, seq<string>>, ids: seq<string>, i: nat)
    requires i < |ids|
    ensures AddDocs(tokenDir, lemmaDir, ids[..i + 1]) == AddDoc(AddDocs(tokenDir, lemmaDir, ids[..i]), tokenDir, lemmaDir, ids[i])
  {
    assert ids[..i + 1][..i] == ids[..i];
  }

  lemma LemmasStep(df: map<string, nat>, fs: seq<Option<string>>, j: nat)
    requires j < |fs|
    ensures AddLemmas(df, fs[..j + 1]) == AddLemma(AddLemmas(df, fs[..j]), fs[j])
  {
    assert fs[..j + 1][..j] == fs[..j];
  }

  /** A failure ends the loop over the documents. */
  lemma {:induction false} DocsErrStays(tokenDir: map<string, seq<string>>, lemmaDir: map<string, seq<string>>,
                                        ids: seq<string>, k: nat)
    requires k <= |ids| && AddDocs(tokenDir, lemmaDir, ids[..k]).Err?
    ensures AddDocs(tokenDir, lemmaDir, ids) == AddDocs(tokenDir, lemmaDir, ids[..k])
    decreases |ids| - k
  {
    if k == |ids| {
      assert ids[..k] == ids;
    } else {
      DocsStep(tokenDir, lemmaDir, ids, k);
      DocsErrStays(tokenDir, lemmaDir, ids, k + 1);
    }
  }

  /** A blank line ends the loop over the lines. */
  lemma {:induction false} LemmasErrStays(df: map<string, nat>, fs: seq<Option<string>>, k: nat)
    requires k <= |fs| && AddLemmas(df, fs[..k]).Err?
    ensures AddLemmas(df, fs) == AddLemmas(df, fs[..k])
    decreases |fs| - k
  {
    if k == |fs| {
      assert fs[..k] == fs;
    } else {
      LemmasStep(df, fs, k);
      LemmasErrStays(df, fs, k + 1);
    }
  }

  /**
   * The lines of a lemma file are counted iff none is blank; then every
   * lemma gains one per line that starts with it.
   */
  lemma {:induction false} AddLemmasCounts(df: map<string, nat>, fs: seq<Option<string>>, l: string)
    ensures AddLemmas(df, fs).Ok? <==> None !in fs
    ensures AddLemmas(df, fs).Ok? ==> Count(AddLemmas(df, fs).value, l) == Count(df, l) + Occurrences(fs, Some(l))
    decreases |fs|
  {
    if fs != [] {
      var init := fs[..|fs| - 1];
      AddLemmasCounts(df, init, l);
      assert fs == init + [fs[|fs| - 1]];
    }
  }

  /** The number of documents whose token file lists `t`. */
  function DocsWith(tokenDir: map<string, seq<string>>, ids: seq<string>, t: string): (n: nat)
    ensures n <= |ids|
    decreases |ids|
  {
    if ids == [] then 0
    else
      var id := ids[|ids| - 1];
      DocsWith(tokenDir, ids[..|ids| - 1], t)
        + (if TokensFile(id) in tokenDir && t in ValidTokens(tokenDir[TokensFile(id)]) then 1 else 0)
  }

  /** The number of lines, over the lemma files of the documents, that start with `l`. */
  function LinesWith(lemmaDir: map<string, seq<string>>, ids: seq<string>, l: string): nat
    decreases |ids|
  {
    if ids == [] then 0
    else
      var id := ids[|ids| - 1];
      LinesWith(lemmaDir, ids[..|ids| - 1], l)
        + (if LemmasFile(id) in lemmaDir then Occurrences(Firsts(lemmaDir[LemmasFile(id)]), Some(l)) else 0)
  }

  /** Every file the loop needs is there and no lemma file has a blank line. */
  predicate Readable(tokenDir: map<string, seq<string>>, lemmaDir: map<string, seq<string>>, ids: seq<string>) {
    forall k :: 0 <= k < |ids| ==>
      TokensFile(ids[k]) in tokenDir && LemmasFile(ids[k]) in lemmaDir && None !in Firsts(lemmaDir[LemmasFile(ids[k])])
  }

  /**
   * The loop succeeds exactly when every file is there and no lemma file
   * has a blank line. The token document frequency of a term is then the
   * number of documents whose token file lists it (a key iff that is
   * positive), and the lemma document frequency is the number of lemma
   * lines that start with it, which can exceed the number of documents.
   */
  lemma {:induction false} DocFrequenciesAre(tokenDir: map<string, seq<string>>, lemmaDir: map<string, seq<string>>,
                                             ids: seq<string>, t: string)
    ensures AddDocs(tokenDir, lemmaDir, ids).Ok? <==> Readable(tokenDir, lemmaDir, ids)
    ensures AddDocs(tokenDir, lemmaDir, ids).Ok? ==>
      var f := AddDocs(tokenDir, lemmaDir, ids).value;
      && Count(f.tokens, t) == DocsWith(tokenDir, ids, t)
      && (t in f.tokens <==> DocsWith(tokenDir, ids, t) > 0)
      && Count(f.lemmas, t) == LinesWith(lemmaDir, ids, t)
    decreases |ids|
  {
    if ids != [] {
      var init, id := ids[..|ids| - 1], ids[|ids| - 1];
      DocFrequenciesAre(tokenDir, lemmaDir, init, t);
      ReadableInit(tokenDir, lemmaDir, ids);
      var acc := AddDocs(tokenDir, lemmaDir, init);
      if acc.Ok? && TokensFile(id) in tokenDir && LemmasFile(id) in lemmaDir {
        AddLemmasCounts(acc.value.lemmas, Firsts(lemmaDir[LemmasFile(id)]), t);
      }
    }
  }

  lemma ReadableInit(tokenDir: map<string, seq<string>>, lemmaDir: map<string, seq<string>>, ids: seq<string>)
    requires ids != []
    ensures Readable(tokenDir, lemmaDir, ids) <==>
      var id := ids[|ids| - 1];
      && Readable(tokenDir, lemmaDir, ids[..|ids| - 1])
      && TokensFile(id) in tokenDir && LemmasFile(id) in lemmaDir && None !in Firsts(lemmaDir[LemmasFile(id)])
  {
    var init := ids[..|ids| - 1];
    assert forall k :: 0 <= k < |init| ==> init[k] == ids[k];
  }

  // ---------------------------------------------------------------------
  // main

  /** The token files of the directory: `f.endswith('-tokens.txt')`. */
  function TokenFiles(tokenDir: map<string, seq<string>>): set<string> {
    set f | f in tokenDir && EndsWith(f, "-tokens.txt")
  }

  /** `[f.split('-')[0] for f in token_files]` */
  function DocIds(names: seq<string>): (ids: seq<string>)
    ensures |ids| == |names| && forall k :: 0 <= k < |names| ==> ids[k] == Split(names[k], '-')[0]
  {
    seq(|names|, k requires 0 <= k < |names| => Split(names[k], '-')[0])
  }

  /** The text of the page of a document, if `html_files` has one. */
  function PageOf(pages: map<string, string>, id: string): Option<string> {
    if id in pages then Some(pages[id]) else None
  }

  /** `html_files` files the page `f` under `id`. */
  predicate PageFileFor(f: string, id: string) {
    EndsWith(f, ".html") && Split(f, '_')[0] == id
  }

  /** `{f.split('_')[0]: f for f in os.listdir(PAGES_DIR) if f.endswith('.html')}`, over the listing in its order. */
  function HtmlFiles(listing: seq<string>): map<string, string>
    decreases |listing|
  {
    if listing == [] then map[]
    else
      var init := HtmlFiles(listing[..|listing| - 1]);
      var f := listing[|listing| - 1];
      if EndsWith(f, ".html") then init[Split(f, '_')[0] := f] else init
  }

  /** `listing[i]` is a page file for `id`, and no later one is. */
  ghost predicate LastPageFile(listing: seq<string>, i: int, id: string) {
    0 <= i < |listing| && PageFileFor(listing[i], id)
    && forall j :: i < j < |listing| ==> !PageFileFor(listing[j], id)
  }

  /**
   * An id has a page exactly when some listed `.html` file has it as its
   * prefix before `_`; of several such files the last one listed wins.
   */
  lemma {:induction false} HtmlFilesLastWins(listing: seq<string>, id: string)
    ensures id in HtmlFiles(listing) <==> exists i :: 0 <= i < |listing| && PageFileFor(listing[i], id)
    ensures id in HtmlFiles(listing) ==> exists i :: LastPageFile(listing, i, id) && HtmlFiles(listing)[id] == listing[i]
    decreases |listing|
  {
    if listing != [] {
      var n := |listing| - 1;
      var init, f := listing[..n], listing[n];
      HtmlFilesLastWins(init, id);
      assert forall i :: 0 <= i < n ==> init[i] == listing[i];
      if PageFileFor(f, id) {
        assert LastPageFile(listing, n, id);
      } else {
        assert id in HtmlFiles(listing) <==> id in HtmlFiles(init);
        if id in HtmlFiles(init) {
          assert HtmlFiles(listing)[id] == HtmlFiles(init)[id];
          var i :| LastPageFile(init, i, id) && HtmlFiles(init)[id] == init[i];
          assert LastPageFile(listing, i, id);
        }
      }
    }
  }

  /** `html_files` with each file replaced by its text, for the files that can be read. */
  function PagesFrom(listing: seq<string>, texts: map<string, string>): map<string, string> {
    var files := HtmlFiles(listing);
    map id | id in files && files[id] in texts :: texts[files[id]]
  }

  /** The second loop of `main`: `process_document` for every document, in order. */
  function WriteAll(ids: seq<string>, pages: map<string, string>, tokenDir: map<string, seq<string>>,
                    lemmaDir: map<string, seq<string>>, tokenIdf: map<string, real>,
                    lemmaIdf: map<string, real>): Result<seq<(string, Weights)>>
    decreases |ids|
  {
    if ids == [] then Ok([])
    else
      var id := ids[|ids| - 1];
      match WriteAll(ids[..|ids| - 1], pages, tokenDir, lemmaDir, tokenIdf, lemmaIdf)
      case Err(why) => Err(why)
      case Ok(written) =>
        match DocumentOf(id, PageOf(pages, id), tokenDir, lemmaDir, tokenIdf, lemmaIdf)
        case Err(why) => Err(why)
        case Ok(None) => Ok(written)
        case Ok(Some(w)) => Ok(written + [(id, w)])
  }

  /** What `main` ends with. */
  datatype Outcome =
    | NoTokens
    | Failed(why: string)
    | Finished(tokenIdf: map<string, real>, lemmaIdf: map<string, real>, written: seq<(string, Weights)>)

  /** `main` over a listing of the token files. */
  function MainOf(tokenDir: map<string, seq<string>>, lemmaDir: map<string, seq<string>>,
                  pages: map<string, string>, names: seq<string>, ln: real -> real): Outcome
  {
    var ids := DocIds(names);
    if |ids| == 0 then NoTokens
    else
      match AddDocs(tokenDir, lemmaDir, ids)
      case Err(why) => Failed(why)
      case Ok(f) =>
        var tokenIdf, lemmaIdf := ComputeIdf(f.tokens, |ids|, ln), ComputeIdf(f.lemmas, |ids|, ln);
        match WriteAll(ids, pages, tokenDir, lemmaDir, tokenIdf, lemmaIdf)
        case Err(why) => Failed(why)
        case Ok(written) => Finished(tokenIdf, lemmaIdf, written)
  }

  /** `main`: the token files are visited in sorted order. */
  function StatisticsOf(tokenDir: map<string, seq<string>>, lemmaDir: map<string, seq<string>>,
                        pages: map<string, string>, ln: real -> real): Outcome
  {
    MainOf(tokenDir, lemmaDir, pages, SortedStrSet(TokenFiles(tokenDir)), ln)
  }

  /**
   * `main`: `pageListing` is the unsorted listing of the pages directory
   * and `texts` the extracted text of each page file that can be read.
   */
  method ComputeStatistics(tokenDir: map<string, seq<string>>, lemmaDir: map<string, seq<string>>,
                           pageListing: seq<string>, texts: map<string, string>, ln: real -> real) returns (o: Outcome)
    ensures o == StatisticsOf(tokenDir, lemmaDir, PagesFrom(pageListing, texts), ln)
  {
    var pages := PagesFrom(pageListing, texts);
    o := RunListing(tokenDir, lemmaDir, pages, SortedStrSet(TokenFiles(tokenDir)), ln);
  }

  /** The body of `main` once the token files are listed. */
  method RunListing(tokenDir: map<string, seq<string>>, lemmaDir: map<string, seq<string>>,
                    pages: map<string, string>, names: seq<string>, ln: real -> real) returns (o: Outcome)
    ensures o == MainOf(tokenDir, lemmaDir, pages, names, ln)
  {
    var ids := DocIds(names);
    if |ids| == 0 {
      return NoTokens;
    }
    var df := CountDocuments(tokenDir, lemmaDir, ids);
    match df {
      case Err(why) =>
        return Failed(why);
      case Ok(f) =>
        var tokenIdf := ComputeIdf(f.tokens, |ids|, ln);
        var lemmaIdf := ComputeIdf(f.lemmas, |ids|, ln);
        var written := WriteWeights(ids, pages, tokenDir, lemmaDir, tokenIdf, lemmaIdf);
        match written {
          case Err(why) =>
            return Failed(why);
          case Ok(ws) =>
            return Finished(tokenIdf, lemmaIdf, ws);
        }
    }
  }

  /** `for doc_id in doc_ids: ... process_document(...)` */
  method WriteWeights(ids: seq<string>, pages: map<string, string>, tokenDir: map<string, seq<string>>,
                      lemmaDir: map<string, seq<string>>, tokenIdf: map<string, real>,
                      lemmaIdf: map<string, real>) returns (r: Result<seq<(string, Weights)>>)
    ensures r == WriteAll(ids, pages, tokenDir, lemmaDir, tokenIdf, lemmaIdf)
  {
    var written: seq<(string, Weights)> := [];
    for i := 0 to |ids|
      invariant WriteAll(ids[..i], pages, tokenDir, lemmaDir, tokenIdf, lemmaIdf) == Ok(written)
    {
      var id := ids[i];
      WriteStep(ids, pages, tokenDir, lemmaDir, tokenIdf, lemmaIdf, i);
      var d := ProcessDocument(id, PageOf(pages, id), tokenDir, lemmaDir, tokenIdf, lemmaIdf);
      match d {
        case Err(why) =>
          WriteErrStays(ids, pages, tokenDir, lemmaDir, tokenIdf, lemmaIdf, i + 1);
          return Err(why);
        case Ok(None) =>
        case Ok(Some(w)) =>
          written := written + [(id, w)];
      }
    }
    assert ids[..|ids|] == ids;
    return Ok(written);
  }

  lemma WriteStep(ids: seq<string>, pages: map<string, string>, tokenDir: map<string, seq<string>>,
                  lemmaDir: map<string, seq<string>>, tokenIdf: map<string, real>, lemmaIdf: map<string, real>, i: nat)
    requires i < |ids|
    ensures WriteAll(ids[..i + 1], pages, tokenDir, lemmaDir, tokenIdf, lemmaIdf)
         == match WriteAll(ids[..i], pages, tokenDir, lemmaDir, tokenIdf, lemmaIdf)
            case Err(why) => Err(why)
            case Ok(written) =>
              match DocumentOf(ids[i], PageOf(pages, ids[i]), tokenDir, lemmaDir, tokenIdf, lemmaIdf)
              case Err(why) => Err(why)
              case Ok(None) => Ok(written)
              case Ok(Some(w)) => Ok(written + [(ids[i], w)])
  {
    assert ids[..i + 1][..i] == ids[..i];
  }

  lemma {:induction false} WriteErrStays(ids: seq<string>, pages: map<string, string>, tokenDir: map<string, seq<string>>,
                                         lemmaDir: map<string, seq<string>>, tokenIdf: map<string, real>,
                                         lemmaIdf: map<string, real>, k: nat)
    requires k <= |ids| && WriteAll(ids[..k], pages, tokenDir, lemmaDir, tokenIdf, lemmaIdf).Err?
    ensures WriteAll(ids, pages, tokenDir, lemmaDir, tokenIdf, lemmaIdf) == WriteAll(ids[..k], pages, tokenDir, lemmaDir, tokenIdf, lemmaIdf)
    decreases |ids| - k
  {
    if k == |ids| {
      assert ids[..k] == ids;
    } else {
      WriteStep(ids, pages, tokenDir, lemmaDir, tokenIdf, lemmaIdf, k);
      WriteErrStays(ids, pages, tokenDir, lemmaDir, tokenIdf, lemmaIdf, k + 1);
    }
  }

  /** The documents that have a page, in order. */
  function Paged(ids: seq<string>, pages: map<string, string>): seq<string>
    decreases |ids|
  {
    if ids == [] then []
    else Paged(ids[..|ids| - 1], pages) + (if ids[|ids| - 1] in pages then [ids[|ids| - 1]] else [])
  }

  function Documents(written: seq<(string, Weights)>): seq<string> {
    seq(|written|, k requires 0 <= k < |written| => written[k].0)
  }

  lemma DocumentsAppend(ws: seq<(string, Weights)>, id: string, w: Weights)
    ensures Documents(ws + [(id, w)]) == Documents(ws) + [id]
  {
  }

  /**
   * Once every token and lemma file is there, the second loop cannot fail,
   * and writes the documents that have a page, in order.
   */
  lemma {:induction false} WriteAllSucceeds(ids: seq<string>, pages: map<string, string>, tokenDir: map<string, seq<string>>,
                                            lemmaDir: map<string, seq<string>>, tokenIdf: map<string, real>,
                                            lemmaIdf: map<string, real>)
    requires forall k :: 0 <= k < |ids| ==> TokensFile(ids[k]) in tokenDir && LemmasFile(ids[k]) in lemmaDir
    ensures WriteAll(ids, pages, tokenDir, lemmaDir, tokenIdf, lemmaIdf).Ok?
    ensures Documents(WriteAll(ids, pages, tokenDir, lemmaDir, tokenIdf, lemmaIdf).value) == Paged(ids, pages)
    decreases |ids|
  {
    if ids != [] {
      var init, id := ids[..|ids| - 1], ids[|ids| - 1];
      assert forall k :: 0 <= k < |init| ==> init[k] == ids[k];
      WriteAllSucceeds(init, pages, tokenDir, lemmaDir, tokenIdf, lemmaIdf);
      var ws := WriteAll(init, pages, tokenDir, lemmaDir, tokenIdf, lemmaIdf).value;
      if id in pages {
        DocumentsAppend(ws, id, DocumentOf(id, PageOf(pages, id), tokenDir, lemmaDir, tokenIdf, lemmaIdf).value.value);
      } else {
        assert Paged(ids, pages) == Paged(init, pages) + [];
      }
    }
  }

  /** `doc_ids` are read from the files' names. */
  lemma ReadableFiles(tokenDir: map<string, seq<string>>, lemmaDir: map<string, seq<string>>, ids: seq<string>)
    requires Readable(tokenDir, lemmaDir, ids)
    ensures forall k :: 0 <= k < |ids| ==> TokensFile(ids[k]) in tokenDir && LemmasFile(ids[k]) in lemmaDir
  {
  }

  /**
   * `main` stops at once without token files; otherwise it fails exactly
   * when a file is missing or a lemma file has a blank line, and when it
   * finishes it has written the documents that have a page, in order.
   */
  lemma MainOutcome(tokenDir: map<string, seq<string>>, lemmaDir: map<string, seq<string>>,
                    pages: map<string, string>, names: seq<string>, ln: real -> real)
    ensures MainOf(tokenDir, lemmaDir, pages, names, ln) == NoTokens <==> names == []
    ensures MainOf(tokenDir, lemmaDir, pages, names, ln).Failed? <==>
      names != [] && !Readable(tokenDir, lemmaDir, DocIds(names))
    ensures MainOf(tokenDir, lemmaDir, pages, names, ln).Finished? ==>
      Documents(MainOf(tokenDir, lemmaDir, pages, names, ln).written) == Paged(DocIds(names), pages)
  {
    var ids := DocIds(names);
    if ids != [] {
      DocFrequenciesAre(tokenDir, lemmaDir, ids, "");
      match AddDocs(tokenDir, lemmaDir, ids) {
        case Err(_) =>
        case Ok(f) =>
          var tokenIdf, lemmaIdf := ComputeIdf(f.tokens, |ids|, ln), ComputeIdf(f.lemmas, |ids|, ln);
          WriteAllSucceeds(ids, pages, tokenDir, lemmaDir, tokenIdf, lemmaIdf);
      }
    }
  }

  /** `main` ends with "no tokens" exactly when the directory has no token file. */
  lemma NoTokensIff(tokenDir: map<string, seq<string>>, lemmaDir: map<string, seq<string>>,
                    pages: map<string, string>, ln: real -> real)
    ensures StatisticsOf(tokenDir, lemmaDir, pages, ln) == NoTokens <==> TokenFiles(tokenDir) == {}
  {
    var names := SortedStrSet(TokenFiles(tokenDir));
    MainOutcome(tokenDir, lemmaDir, pages, names, ln);
    if TokenFiles(tokenDir) != {} {
      var f :| f in TokenFiles(tokenDir);
      assert f in names;
    }
  }

  /** The first piece of `s.split(c)` is what comes before the first `c`. */
  lemma {:induction false} SplitFirstPiece(a: string, c: char, b: string)
    requires c !in a
    ensures Split(a + [c] + b, c)[0] == a
    decreases |a|
  {
    if a == [] {
      assert a + [c] + b == [c] + b;
    } else {
      SplitFirstPiece(a[1..], c, b);
      assert (a + [c] + b)[1..] == a[1..] + [c] + b;
      assert [a[0]] + a[1..] == a;
    }
  }

  /** A document id without `-` is read back from the name of its token file. */
  lemma TokenFileId(id: string)
    requires '-' !in id
    ensures DocIds([TokensFile(id)]) == [id]
  {
    assert TokensFile(id) == id + ['-'] + "tokens.txt";
    SplitFirstPiece(id, '-', "tokens.txt");
  }
}
