/**
 * The tokenizer: the words of a page's cleaned text, the tokens kept from
 * them, the tokens grouped by normal form, the lines of a lemma file, and
 * the bookkeeping that skips pages that are not to be processed.
 *
 * The morphological analyser and NLTK's stop-word list are parameters:
 * `acceptable` is the score/part-of-speech test a token must pass,
 * `nltkStop` membership in NLTK's Russian list, and `normalForm` the first
 * parse's normal form.
 */
module Tokenizer {
  import opened Wrappers
  import opened Text
  import opened Order
  import TfIdf

  const MinWordLength: nat := 3

  /** Abbreviations added to NLTK's stop words. */
  const CustomStopwords: set<string> := {"т.д.", "др.", "т.п."}

  // ---------------------------------------------------------------------
  // tokenize: `re.findall(r'\b(?:[а-яё]+-)*[а-яё]+\b', text)`

  /** End of the run of `[а-яё]` letters starting at `i`. */
  function LetterRunEnd(s: string, i: nat): (e: nat)
    requires i <= |s|
    ensures i <= e <= |s|
    decreases |s| - i
  {
    if i == |s| || !IsCyrLower(s[i]) then i else LetterRunEnd(s, i + 1)
  }

  /** The run is all letters, and what ends it is not one. */
  lemma {:induction false} LetterRun(s: string, i: nat)
    requires i <= |s|
    ensures LetterRunEnd(s, i) == |s| || !IsCyrLower(s[LetterRunEnd(s, i)])
    ensures forall k :: i <= k < LetterRunEnd(s, i) ==> IsCyrLower(s[k])
    decreases |s| - i
  {
    if i < |s| && IsCyrLower(s[i]) {
      LetterRun(s, i + 1);
    }
  }

  /** `s[i..j]` is letter runs joined by single hyphens, starting and ending with a letter. */
  predicate ChainAt(s: string, i: nat, j: nat) {
    && i < j <= |s|
    && IsCyrLower(s[i]) && IsCyrLower(s[j - 1])
    && (forall k :: i <= k < j ==> IsCyrLower(s[k]) || s[k] == '-')
    && (forall k :: i <= k < j - 1 ==> !(s[k] == '-' && s[k + 1] == '-'))
  }

  /** `[а-яё]+(-[а-яё]+)*` as a property of a string. */
  predicate Chain(w: string) {
    && w != [] && IsCyrLower(w[0]) && IsCyrLower(w[|w| - 1])
    && (forall k :: 0 <= k < |w| ==> IsCyrLower(w[k]) || w[k] == '-')
    && (forall k :: 0 <= k < |w| - 1 ==> !(w[k] == '-' && w[k + 1] == '-'))
  }

  lemma ChainAtSlice(s: string, i: nat, j: nat)
    requires ChainAt(s, i, j)
    ensures Chain(s[i..j])
  {
    var w := s[i..j];
    assert forall k :: 0 <= k < |w| ==> w[k] == s[i + k];
  }

  /**
   * Where the match that starts at letter `i` ends, or None. The groups take
   * every `run-` they can; when no `\b` follows the last run, the match
   * backs off to the run before it, which a `-` (a `\b`) follows.
   */
  function ChainMatch(s: string, i: nat): (r: Option<nat>)
    requires i < |s| && IsCyrLower(s[i])
    ensures r.Some? ==> i < r.value <= |s|
    decreases |s| - i
  {
    var e := LetterRunEnd(s, i);
    if e + 1 < |s| && s[e] == '-' && IsCyrLower(s[e + 1]) then
      match ChainMatch(s, e + 1)
      case Some(j) => Some(j)
      case None => Some(e)
    else if Boundary(s, e) then Some(e)
    else None
  }

  /** A match is a chain, and a `\b` follows it. */
  lemma {:induction false} ChainMatchShape(s: string, i: nat)
    requires i < |s| && IsCyrLower(s[i])
    ensures ChainMatch(s, i).Some? ==> ChainAt(s, i, ChainMatch(s, i).value) && Boundary(s, ChainMatch(s, i).value)
    decreases |s| - i
  {
    var e := LetterRunEnd(s, i);
    LetterRun(s, i);
    if e + 1 < |s| && s[e] == '-' && IsCyrLower(s[e + 1]) {
      ChainMatchShape(s, e + 1);
      match ChainMatch(s, e + 1)
      case Some(j) =>
        assert ChainAt(s, e + 1, j);
      case None =>
        assert ChainAt(s, i, e);
    }
  }

  /** The matches at or after position `i`, left to right. */
  function ChainsFrom(s: string, i: nat): (r: seq<string>)
    requires i <= |s|
    decreases |s| - i
  {
    if i == |s| then []
    else if IsCyrLower(s[i]) && Boundary(s, i) then
      match ChainMatch(s, i)
      case Some(j) => [s[i..j]] + ChainsFrom(s, j)
      case None => ChainsFrom(s, i + 1)
    else ChainsFrom(s, i + 1)
  }

  lemma {:induction false} ChainsFromChains(s: string, i: nat)
    requires i <= |s|
    ensures forall k :: 0 <= k < |ChainsFrom(s, i)| ==> Chain(ChainsFrom(s, i)[k])
    decreases |s| - i
  {
    if i < |s| {
      if IsCyrLower(s[i]) && Boundary(s, i) {
        match ChainMatch(s, i)
        case Some(j) =>
          ChainMatchShape(s, i);
          ChainAtSlice(s, i, j);
          ChainsFromChains(s, j);
          var rest := ChainsFrom(s, j);
          var r := [s[i..j]] + rest;
          assert forall k :: 1 <= k < |r| ==> r[k] == rest[k - 1];
        case None =>
          ChainsFromChains(s, i + 1);
      } else {
        ChainsFromChains(s, i + 1);
      }
    }
  }

  /** `tokenize(text)` */
  function Tokenize(text: string): seq<string> {
    ChainsFrom(text, 0)
  }

  /** Every word `tokenize` finds is a hyphen-joined run of lower-case letters. */
  lemma TokenizeChains(text: string)
    ensures forall k :: 0 <= k < |Tokenize(text)| ==> Chain(Tokenize(text)[k])
  {
    ChainsFromChains(text, 0);
  }

  /** A chain followed by the end or by a character that is neither a word character nor `-` is matched whole. */
  lemma {:induction false} ChainMatchUpTo(s: string, i: nat, j: nat)
    requires ChainAt(s, i, j)
    requires j == |s| || (!IsWordChar(s[j]) && s[j] != '-')
    ensures ChainMatch(s, i) == Some(j)
    decreases |s| - i
  {
    var e := LetterRunEnd(s, i);
    LetterRun(s, i);
    if e < j {
      assert s[e] == '-' && e + 1 < j && IsCyrLower(s[e + 1]);
      assert ChainMatch(s, e + 1) == Some(j) by {
        ChainMatchUpTo(s, e + 1, j);
      }
    } else {
      assert e == j;
    }
  }

  /** A chain found at a letter that starts a word is the next match. */
  lemma ChainsFromMatch(s: string, i: nat, j: nat)
    requires i < |s| && IsCyrLower(s[i]) && Boundary(s, i) && ChainMatch(s, i) == Some(j)
    ensures i < j <= |s| && ChainsFrom(s, i) == [s[i..j]] + ChainsFrom(s, j)
  {
  }

  /** The scan moves past a character that cannot start a match. */
  lemma ChainsFromSkip(s: string, j: nat)
    requires j < |s| && !IsCyrLower(s[j])
    ensures ChainsFrom(s, j) == ChainsFrom(s, j + 1)
  {
  }

  /** The scan over a word that starts a word, a space, then what yields `tail`. */
  lemma ChainsFromWordThenSpace(s: string, i: nat, w: string, tail: seq<string>)
    requires i + |w| < |s| && s[i..i + |w|] == w && s[i + |w|] == ' ' && Chain(w)
    requires i == 0 || !IsWordChar(s[i - 1])
    requires ChainsFrom(s, i + |w| + 1) == tail
    ensures ChainsFrom(s, i) == [w] + tail
  {
    ChainMatchCopy(s, i, w);
    assert Boundary(s, i);
    ChainsFromMatch(s, i, i + |w|);
    ChainsFromSkip(s, i + |w|);
  }

  /** A copy of a chain inside `s` is a chain at its position. */
  lemma ChainAtCopy(s: string, i: nat, w: string)
    requires i + |w| <= |s| && s[i..i + |w|] == w && Chain(w)
    ensures ChainAt(s, i, i + |w|)
  {
    assert forall k :: i <= k < i + |w| ==> s[k] == w[k - i];
  }

  /** Where the rest of `s` from `i` is `w`, a space, then `rest`. */
  lemma SliceParts(s: string, i: nat, w: string, rest: string)
    requires i <= |s| && s[i..] == w + " " + rest
    ensures i + |w| < |s| && s[i..i + |w|] == w && s[i + |w|] == ' ' && s[i + |w| + 1..] == rest
  {
    assert s[i..][..|w|] == w;
    assert s[i..][|w|] == ' ';
    assert s[i..][|w| + 1..] == rest;
  }

  /** A copy of a chain that is followed by the end or a space is matched whole. */
  lemma ChainMatchCopy(s: string, i: nat, w: string)
    requires i + |w| <= |s| && s[i..i + |w|] == w && Chain(w)
    requires i + |w| == |s| || s[i + |w|] == ' '
    ensures IsCyrLower(s[i]) && ChainMatch(s, i) == Some(i + |w|)
  {
    ChainAtCopy(s, i, w);
    ChainMatchUpTo(s, i, i + |w|);
  }

  /** The scan over a last word that starts a word. */
  lemma ChainsFromLastWord(s: string, i: nat, w: string)
    requires i < |s| && s[i..] == w && Chain(w)
    requires i == 0 || !IsWordChar(s[i - 1])
    ensures ChainsFrom(s, i) == [w]
  {
    assert s[i..i + |w|] == w;
    ChainMatchCopy(s, i, w);
    assert Boundary(s, i);
    ChainsFromMatch(s, i, |s|);
    assert s[i..|s|] == w;
    assert ChainsFrom(s, |s|) == [];
  }

  /** Every element of `ws` is a chain, stated one element at a time. */
  predicate AllChains(ws: seq<string>)
    decreases |ws|
  {
    ws == [] || (Chain(ws[0]) && AllChains(ws[1..]))
  }

  lemma {:induction false} AllChainsOf(ws: seq<string>)
    requires forall k :: 0 <= k < |ws| ==> Chain(ws[k])
    ensures AllChains(ws)
    decreases |ws|
  {
    if ws != [] {
      assert Chain(ws[0]);
      assert forall k :: 0 <= k < |ws[1..]| ==> ws[1..][k] == ws[k + 1];
      AllChainsOf(ws[1..]);
    }
  }

  /** The chains at or after `i` of a string whose rest is `ws` joined by single spaces are `ws`. */
  lemma {:induction false} ChainsFromJoin(s: string, i: nat, ws: seq<string>)
    requires i <= |s| && s[i..] == Join(" ", ws) && AllChains(ws)
    requires i == 0 || !IsWordChar(s[i - 1])
    ensures ChainsFrom(s, i) == ws
    decreases |ws|
  {
    if ws == [] {
      assert |s[i..]| == 0;
    } else if |ws| == 1 {
      var w := ws[0];
      assert s[i..] == w;
      ChainsFromLastWord(s, i, w);
    } else {
      var w := ws[0];
      SliceParts(s, i, w, Join(" ", ws[1..]));
      ChainsFromJoin(s, i + |w| + 1, ws[1..]);
      ChainsFromWordThenSpace(s, i, w, ws[1..]);
      assert ws == [w] + ws[1..];
    }
  }

  /** Hyphen-joined words separated by single spaces tokenize back to the words. */
  lemma TokenizeJoin(ws: seq<string>)
    requires forall k :: 0 <= k < |ws| ==> Chain(ws[k])
    ensures Tokenize(Join(" ", ws)) == ws
  {
    AllChainsOf(ws);
    ChainsFromJoin(Join(" ", ws), 0, ws);
  }

  /** The `-`-separated parts of a word are its letter runs: none is empty, none holds anything but letters. */
  lemma {:induction false} ChainParts(w: string)
    requires Chain(w)
    ensures forall k :: 0 <= k < |Split(w, '-')| ==> Split(w, '-')[k] != []
    ensures forall k, x :: 0 <= k < |Split(w, '-')| && x in Split(w, '-')[k] ==> IsCyrLower(x)
    decreases |w|
  {
    var ps := Split(w, '-');
    SplitChars(w, '-');
    forall k, x | 0 <= k < |ps| && x in ps[k] ensures IsCyrLower(x) {
      assert x in w;
    }
    PartsNonEmpty(w);
  }

  /** No empty part: no leading, trailing or doubled hyphen. */
  lemma {:induction false} PartsNonEmpty(w: string)
    requires w != [] && w[0] != '-' && w[|w| - 1] != '-'
    requires forall k :: 0 <= k < |w| - 1 ==> !(w[k] == '-' && w[k + 1] == '-')
    ensures forall k :: 0 <= k < |Split(w, '-')| ==> Split(w, '-')[k] != []
    decreases |w|
  {
    if |w| > 1 {
      var t := w[1..];
      var rest := Split(t, '-');
      if t[0] == '-' {
        var u := t[1..];
        assert u != [] && u[0] != '-' && u[|u| - 1] != '-';
        assert forall k :: 0 <= k < |u| ==> u[k] == w[k + 2];
        PartsNonEmpty(u);
        assert rest == [[]] + Split(u, '-');
        var r := Split(w, '-');
        assert r == [[w[0]] + rest[0]] + rest[1..];
        forall k | 0 <= k < |r| ensures r[k] != [] {
          if k > 0 {
            assert r[k] == Split(u, '-')[k - 1];
          }
        }
      } else {
        assert forall k :: 0 <= k < |t| ==> t[k] == w[k + 1];
        PartsNonEmpty(t);
        var r := Split(w, '-');
        assert r == [[w[0]] + rest[0]] + rest[1..];
        forall k | 0 <= k < |r| ensures r[k] != [] {
          if k > 0 {
            assert r[k] == rest[k];
          }
        }
      }
    } else {
      assert Split(w[1..], '-') == [[]];
    }
  }

  // ---------------------------------------------------------------------
  // process_tokens

  /** `part in russian_stopwords`: NLTK's Russian list together with the custom abbreviations. */
  predicate IsStopword(nltkStop: string -> bool, w: string) {
    nltkStop(w) || w in CustomStopwords
  }

  /** The tests a part passes to become a token: long enough, the morphology test, not a stop word. */
  predicate Acceptable(acceptable: string -> bool, nltkStop: string -> bool, part: string) {
    |part| >= MinWordLength && acceptable(part) && !IsStopword(nltkStop, part)
  }

  /** The accepted parts among `parts`. */
  function AcceptedParts(parts: seq<string>, acceptable: string -> bool, nltkStop: string -> bool): set<string>
    decreases |parts|
  {
    if parts == [] then {}
    else
      var p := parts[|parts| - 1];
      AcceptedParts(parts[..|parts| - 1], acceptable, nltkStop) + (if Acceptable(acceptable, nltkStop, p) then {p} else {})
  }

  /** `valid_tokens` after the loop over `words`. */
  function TokenSet(words: seq<string>, acceptable: string -> bool, nltkStop: string -> bool): set<string>
    decreases |words|
  {
    if words == [] then {}
    else TokenSet(words[..|words| - 1], acceptable, nltkStop) + AcceptedParts(Split(words[|words| - 1], '-'), acceptable, nltkStop)
  }

  lemma {:induction false} AcceptedPartsMembers(parts: seq<string>, acceptable: string -> bool, nltkStop: string -> bool, t: string)
    ensures t in AcceptedParts(parts, acceptable, nltkStop) <==> t in parts && Acceptable(acceptable, nltkStop, t)
    decreases |parts|
  {
    if parts != [] {
      AcceptedPartsMembers(parts[..|parts| - 1], acceptable, nltkStop, t);
      assert forall p :: p in parts <==> p in parts[..|parts| - 1] || p == parts[|parts| - 1];
    }
  }

  /** The part of a word that a token came from. */
  ghost predicate PartOfSome(words: seq<string>, t: string) {
    exists w :: w in words && t in Split(w, '-')
  }

  /** A token is exactly an accepted `-`-separated part of one of the words. */
  lemma {:induction false} TokenSetMembers(words: seq<string>, acceptable: string -> bool, nltkStop: string -> bool, t: string)
    ensures t in TokenSet(words, acceptable, nltkStop) <==> PartOfSome(words, t) && Acceptable(acceptable, nltkStop, t)
    decreases |words|
  {
    if words != [] {
      var init := words[..|words| - 1];
      var last := words[|words| - 1];
      TokenSetMembers(init, acceptable, nltkStop, t);
      AcceptedPartsMembers(Split(last, '-'), acceptable, nltkStop, t);
      if PartOfSome(init, t) {
        var w :| w in init && t in Split(w, '-');
        assert w in words;
      }
      if t in Split(last, '-') {
        assert last in words;
      }
      if PartOfSome(words, t) {
        var w :| w in words && t in Split(w, '-');
        var k :| 0 <= k < |words| && words[k] == w;
        if k < |words| - 1 {
          assert init[k] == w;
        }
      }
    }
  }

  /** The two loops of `process_tokens`, filling `valid_tokens`. */
  method CollectTokens(words: seq<string>, acceptable: string -> bool, nltkStop: string -> bool)
    returns (valid: set<string>)
    ensures valid == TokenSet(words, acceptable, nltkStop)
  {
    valid := {};
    for i := 0 to |words|
      invariant valid == TokenSet(words[..i], acceptable, nltkStop)
    {
      assert words[..i + 1][..i] == words[..i];
      var parts := Split(words[i], '-');
      ghost var before := valid;
      for j := 0 to |parts|
        invariant valid == before + AcceptedParts(parts[..j], acceptable, nltkStop)
      {
        assert parts[..j + 1][..j] == parts[..j];
        var part := parts[j];
        if |part| < MinWordLength {
          continue;
        }
        if acceptable(part) {
          if !IsStopword(nltkStop, part) {
            valid := valid + {part};
          }
        }
      }
      assert parts[..|parts|] == parts;
    }
    assert words[..|words|] == words;
  }

  /** `process_tokens(words)` */
  method ProcessTokens(words: seq<string>, acceptable: string -> bool, nltkStop: string -> bool)
    returns (tokens: seq<string>)
    ensures tokens == SortedStrSet(TokenSet(words, acceptable, nltkStop))
  {
    var valid := CollectTokens(words, acceptable, nltkStop);
    tokens := SortedStrSet(valid);
  }

  /**
   * The tokens are strictly ascending, and each is at least three
   * characters long, holds no `-`, passes the morphology test and is not a
   * stop word; every such part of a word is among them.
   */
  lemma TokensShape(words: seq<string>, acceptable: string -> bool, nltkStop: string -> bool, t: string)
    ensures StrIncreasing(SortedStrSet(TokenSet(words, acceptable, nltkStop)))
    ensures t in SortedStrSet(TokenSet(words, acceptable, nltkStop)) <==> PartOfSome(words, t) && Acceptable(acceptable, nltkStop, t)
    ensures t in SortedStrSet(TokenSet(words, acceptable, nltkStop)) ==>
      |t| >= MinWordLength && '-' !in t && acceptable(t) && !IsStopword(nltkStop, t)
  {
    TokenSetMembers(words, acceptable, nltkStop, t);
    if PartOfSome(words, t) {
      var w :| w in words && t in Split(w, '-');
      SplitChars(w, '-');
    }
  }

  // ---------------------------------------------------------------------
  // get_lemmas

  /** `lemmas` after the loop: each normal form with the set of tokens that have it. */
  function Groups(tokens: seq<string>, normalForm: string -> string): map<string, set<string>>
    decreases |tokens|
  {
    if tokens == [] then map[]
    else
      var g := Groups(tokens[..|tokens| - 1], normalForm);
      var t := tokens[|tokens| - 1];
      var l := normalForm(t);
      g[l := (if l in g then g[l] else {}) + {t}]
  }

  /** `get_lemmas(tokens)` */
  method GetLemmas(tokens: seq<string>, normalForm: string -> string) returns (lemmas: map<string, set<string>>)
    ensures lemmas == Groups(tokens, normalForm)
  {
    lemmas := map[];
    for i := 0 to |tokens|
      invariant lemmas == Groups(tokens[..i], normalForm)
    {
      assert tokens[..i + 1][..i] == tokens[..i];
      var token := tokens[i];
      var head := normalForm(token);
      lemmas := lemmas[head := (if head in lemmas then lemmas[head] else {}) + {token}];
    }
    assert tokens[..|tokens|] == tokens;
  }

  /**
   * The groups partition the tokens: every token lies in the group of its
   * normal form, a group holds only tokens with that normal form (so each
   * token lies in exactly one group), and no group is empty.
   */
  lemma {:induction false} GroupsPartition(tokens: seq<string>, normalForm: string -> string)
    ensures forall t :: t in tokens ==> normalForm(t) in Groups(tokens, normalForm) && t in Groups(tokens, normalForm)[normalForm(t)]
    ensures forall l, t :: l in Groups(tokens, normalForm) && t in Groups(tokens, normalForm)[l] ==> t in tokens && normalForm(t) == l
    ensures forall l :: l in Groups(tokens, normalForm) ==> Groups(tokens, normalForm)[l] != {}
    decreases |tokens|
  {
    if tokens != [] {
      var init := tokens[..|tokens| - 1];
      GroupsPartition(init, normalForm);
      assert forall t :: t in tokens <==> t in init || t == tokens[|tokens| - 1];
    }
  }

  // ---------------------------------------------------------------------
  // save_lemmas

  /** `forms.remove(x)`: drops the first occurrence of `x`. */
  function RemoveFirst(s: seq<string>, x: string): (r: seq<string>)
    decreases |s|
  {
    if s == [] then []
    else if s[0] == x then s[1..]
    else [s[0]] + RemoveFirst(s[1..], x)
  }

  /** On an ascending list, removing `x` keeps the order and drops exactly `x`. */
  lemma {:induction false} RemoveFirstSorted(s: seq<string>, x: string)
    requires StrIncreasing(s)
    ensures StrIncreasing(RemoveFirst(s, x))
    ensures forall y :: y in RemoveFirst(s, x) <==> y in s && y != x
    decreases |s|
  {
    if s != [] && s[0] != x {
      var rest := RemoveFirst(s[1..], x);
      RemoveFirstSorted(s[1..], x);
      var r := [s[0]] + rest;
      forall j | 0 <= j < |rest| ensures StrLt(s[0], rest[j]) {
        assert rest[j] in s[1..];
        var m :| 0 <= m < |s[1..]| && s[1..][m] == rest[j];
        assert s[m + 1] == rest[j];
      }
      StrIncreasingCons(s[0], rest);
      assert forall y :: y in s <==> y == s[0] || y in s[1..];
    } else if s != [] {
      assert forall y :: y in s[1..] ==> y != s[0] by {
        forall y | y in s[1..] ensures y != s[0] {
          var m :| 0 <= m < |s[1..]| && s[1..][m] == y;
          assert s[m + 1] == y;
        }
      }
      assert forall y :: y in s <==> y == s[0] || y in s[1..];
    }
  }

  /** The forms on the line of `head`: the lemma, then the group's other forms in sorted order. */
  function LineForms(head: string, group: set<string>): seq<string> {
    var forms := SortedStrSet(group);
    [head] + (if head in forms then RemoveFirst(forms, head) else forms)
  }

  /** `' '.join(forms) + "\n"` */
  function LemmaLine(head: string, group: set<string>): string {
    Join(" ", LineForms(head, group)) + "\n"
  }

  /** One line per key of `keys`, in that order, made by `line` from the key and its group. */
  function LinesOf<G>(keys: seq<string>, groups: map<string, G>, line: (string, G) -> string): seq<string>
    requires forall k :: 0 <= k < |keys| ==> keys[k] in groups
    decreases |keys|
  {
    if keys == [] then []
    else LinesOf(keys[..|keys| - 1], groups, line) + [line(keys[|keys| - 1], groups[keys[|keys| - 1]])]
  }

  /** The lines `save_lemmas` writes: one per lemma, in sorted lemma order. */
  function LemmaLines(lemmas: map<string, set<string>>): seq<string> {
    LinesOf(SortedStrSet(lemmas.Keys), lemmas, LemmaLine)
  }

  lemma {:induction false} LinesOfAt<G>(keys: seq<string>, groups: map<string, G>, line: (string, G) -> string)
    requires forall k :: 0 <= k < |keys| ==> keys[k] in groups
    ensures |LinesOf(keys, groups, line)| == |keys|
    ensures forall k :: 0 <= k < |keys| ==> LinesOf(keys, groups, line)[k] == line(keys[k], groups[keys[k]])
    decreases |keys|
  {
    if keys != [] {
      var init := keys[..|keys| - 1];
      assert forall k :: 0 <= k < |init| ==> init[k] == keys[k];
      LinesOfAt(init, groups, line);
    }
  }

  /** The writing loop of `save_lemmas`, over the lemmas in `keys`. */
  method LemmaLinesFor(keys: seq<string>, lemmas: map<string, set<string>>) returns (lines: seq<string>)
    requires forall k :: 0 <= k < |keys| ==> keys[k] in lemmas
    ensures lines == LinesOf(keys, lemmas, LemmaLine)
  {
    lines := [];
    for i := 0 to |keys|
      invariant lines == LinesOf(keys[..i], lemmas, LemmaLine)
    {
      assert keys[..i + 1][..i] == keys[..i];
      var head := keys[i];
      var group := lemmas[head];
      var forms := SortedStrSet(group);
      if head in forms {
        forms := RemoveFirst(forms, head);
      }
      forms := [head] + forms;
      assert forms == LineForms(head, group);
      lines := lines + [Join(" ", forms) + "\n"];
    }
    assert keys[..|keys|] == keys;
  }

  /** `save_lemmas`: one line per lemma, in sorted lemma order. */
  method LemmaFileLines(lemmas: map<string, set<string>>) returns (lines: seq<string>)
    ensures lines == LemmaLines(lemmas)
  {
    var keys := SortedStrSet(lemmas.Keys);
    lines := LemmaLinesFor(keys, lemmas);
  }

  /** The forms of a line: the lemma first, then the other forms of the group, ascending. */
  lemma LineFormsShape(head: string, group: set<string>)
    ensures LineForms(head, group)[0] == head
    ensures StrIncreasing(LineForms(head, group)[1..])
    ensures forall y :: y in LineForms(head, group)[1..] <==> y in group && y != head
  {
    var forms := SortedStrSet(group);
    RemoveFirstSorted(forms, head);
    assert LineForms(head, group)[1..] == if head in forms then RemoveFirst(forms, head) else forms;
  }

  lemma {:induction false} JoinEndsWith(ws: seq<string>)
    requires ws != [] && forall i :: 0 <= i < |ws| ==> Word(ws[i])
    ensures ws[|ws| - 1] != [] && Join(" ", ws) != []
    ensures Join(" ", ws)[|Join(" ", ws)| - 1] == ws[|ws| - 1][|ws[|ws| - 1]| - 1]
    decreases |ws|
  {
    if |ws| > 1 {
      JoinEndsWith(ws[1..]);
      var rest := Join(" ", ws[1..]);
      assert Join(" ", ws) == ws[0] + " " + rest;
    }
  }

  /** A space-joined line of words, then a newline, reads back as the words. */
  lemma LineFields(ws: seq<string>)
    requires ws != [] && forall i :: 0 <= i < |ws| ==> Word(ws[i])
    ensures Fields(Join(" ", ws) + "\n") == ws
  {
    var j := Join(" ", ws);
    JoinStartsWith(ws);
    JoinEndsWith(ws);
    assert Word(ws[|ws| - 1]);
    StripTrailingSpace(j, '\n');
    assert j + "\n" == j + ['\n'];
    SplitWsJoin(ws);
  }

  /**
   * Read back with `line.strip().split()`, a lemma line gives the lemma
   * followed by the group's other forms in ascending order.
   */
  lemma LemmaLineFields(head: string, group: set<string>)
    requires Word(head) && forall t :: t in group ==> Word(t)
    ensures Fields(LemmaLine(head, group)) == LineForms(head, group)
    ensures Fields(LemmaLine(head, group))[0] == head
    ensures StrIncreasing(Fields(LemmaLine(head, group))[1..])
    ensures forall y :: y in Fields(LemmaLine(head, group))[1..] <==> y in group && y != head
  {
    var ws := LineForms(head, group);
    LineFormsShape(head, group);
    forall i | 0 <= i < |ws| ensures Word(ws[i]) {
      if i > 0 {
        assert ws[i] in ws[1..];
      }
    }
    LineFields(ws);
  }

  /** The lines come in ascending lemma order, one line per lemma. */
  lemma LemmaLinesAscending(lemmas: map<string, set<string>>)
    requires forall l :: l in lemmas ==> Word(l) && forall t :: t in lemmas[l] ==> Word(t)
    ensures |LemmaLines(lemmas)| == |lemmas|
    ensures forall i :: 0 <= i < |LemmaLines(lemmas)| ==> Fields(LemmaLines(lemmas)[i]) != [] && Fields(LemmaLines(lemmas)[i])[0] in lemmas
    ensures forall i, j :: 0 <= i < j < |LemmaLines(lemmas)| ==> StrLt(Fields(LemmaLines(lemmas)[i])[0], Fields(LemmaLines(lemmas)[j])[0])
  {
    var keys := SortedStrSet(lemmas.Keys);
    LinesOfAt(keys, lemmas, LemmaLine);
    var lines := LemmaLines(lemmas);
    forall i | 0 <= i < |lines| ensures Fields(lines[i]) != [] && Fields(lines[i])[0] == keys[i] {
      assert keys[i] in keys;
      LemmaLineFields(keys[i], lemmas[keys[i]]);
    }
  }

  // ---------------------------------------------------------------------
  // process_file

  /** `int(filename.split('_')[0])`, or None where it raises ValueError. */
  function FileDocId(filename: string): Option<int> {
    ParseInt(Split(filename, '_')[0])
  }

  /** What `process_file` writes: the token file and the lines of the lemma file. */
  datatype Saved = Saved(id: int, tokensFile: string, tokensText: string, lemmasFile: string, lemmaLines: seq<string>)

  /** The files written for a page with document id `id` and extracted text `text`. */
  function SavedOf(id: int, text: string, acceptable: string -> bool, nltkStop: string -> bool,
                   normalForm: string -> string): Saved
  {
    var tokens := SortedStrSet(TokenSet(Tokenize(CleanText(text)), acceptable, nltkStop));
    Saved(id, TfIdf.TokensFile(IntToStr(id)), Join("\n", tokens),
          TfIdf.LemmasFile(IntToStr(id)), LemmaLines(Groups(tokens, normalForm)))
  }

  /** The body of `process_file` once the page is to be processed: tokens, groups, and what is written. */
  method SaveFiles(id: int, text: string, acceptable: string -> bool, nltkStop: string -> bool,
                   normalForm: string -> string) returns (saved: Saved)
    ensures saved == SavedOf(id, text, acceptable, nltkStop, normalForm)
  {
    var words := Tokenize(CleanText(text));
    var tokens := ProcessTokens(words, acceptable, nltkStop);
    var lemmas := GetLemmas(tokens, normalForm);
    var lines := LemmaFileLines(lemmas);
    saved := Saved(id, TfIdf.TokensFile(IntToStr(id)), Join("\n", tokens), TfIdf.LemmasFile(IntToStr(id)), lines);
  }

  /** `process_file`: None where it returns False without writing anything. */
  function FileOutcome(filename: string, seen: set<int>, text: string, acceptable: string -> bool,
                       nltkStop: string -> bool, normalForm: string -> string): Option<Saved>
  {
    if !EndsWith(filename, ".html") then None
    else match FileDocId(filename)
      case None => None
      case Some(id) => if id in seen then None else Some(SavedOf(id, text, acceptable, nltkStop, normalForm))
  }

  /**
   * A page is processed exactly when its name ends in `.html`, the text
   * before the first `_` is an integer, and that id has not been seen; the
   * files written are then those of that id.
   */
  lemma FileOutcomeCases(filename: string, seen: set<int>, text: string, acceptable: string -> bool,
                         nltkStop: string -> bool, normalForm: string -> string)
    ensures FileOutcome(filename, seen, text, acceptable, nltkStop, normalForm).Some?
        <==> EndsWith(filename, ".html") && FileDocId(filename).Some? && FileDocId(filename).value !in seen
    ensures FileOutcome(filename, seen, text, acceptable, nltkStop, normalForm).Some? ==>
      FileOutcome(filename, seen, text, acceptable, nltkStop, normalForm).value.id == FileDocId(filename).value
  {
  }

  /** Once a page has been processed, the same page, or any page with its id, is skipped. */
  lemma SecondVisitSkipped(filename: string, other: string, seen: set<int>, text: string, text2: string,
                           acceptable: string -> bool, nltkStop: string -> bool, normalForm: string -> string)
    requires FileOutcome(filename, seen, text, acceptable, nltkStop, normalForm).Some?
    requires FileDocId(other) == FileDocId(filename)
    ensures FileOutcome(other, seen + {FileOutcome(filename, seen, text, acceptable, nltkStop, normalForm).value.id},
                        text2, acceptable, nltkStop, normalForm) == None
  {
  }

  /** The shared `doc_ids` set of a tokenizer run. */
  class Registry {
    var docIds: set<int>

    constructor ()
      ensures docIds == {}
    {
      docIds := {};
    }

    /**
     * `process_file(filename, doc_ids)`, where `text` is what `extract_text`
     * makes of the page. Returns the files written, or None for False.
     */
    method ProcessFile(filename: string, text: string, acceptable: string -> bool,
                       nltkStop: string -> bool, normalForm: string -> string) returns (saved: Option<Saved>)
      modifies this
      ensures saved == FileOutcome(filename, old(docIds), text, acceptable, nltkStop, normalForm)
      ensures docIds == if saved.Some? then old(docIds) + {saved.value.id} else old(docIds)
    {
      if !EndsWith(filename, ".html") {
        return None;
      }
      var parsed := FileDocId(filename);
      if parsed.None? {
        return None;
      }
      var id := parsed.value;
      if id in docIds {
        return None;
      }
      var files := SaveFiles(id, text, acceptable, nltkStop, normalForm);
      saved := Some(files);
      docIds := docIds + {id};
    }
  }
}
