/**
 * Characters and strings as the Python code sees them: the regular-expression
 * classes it uses (`\s`, `\w`, `[а-яё]`), `str.upper`/`str.lower`, `strip`,
 * `split`, `join`, `int()` / `str()` on integers, and the `clean_text`
 * pipeline shared by the tokenizer and the TF-IDF builder.
 *
 * The alphabet is a small one: ASCII letters and digits, the Russian
 * alphabet (а-я, ё and their capitals), `_`, `-` and six ASCII whitespace
 * characters. Any other character is not whitespace, not a word character,
 * and has no case.
 */
module Text {
  import opened Wrappers

  // ---------------------------------------------------------------------
  // Character classes

  /** `\s`: space, tab, newline, carriage return, vertical tab, form feed. */
  predicate IsSpace(c: char) {
    c == ' ' || c == '\t' || c == '\n' || c == '\r' || c == '\U{B}' || c == '\U{C}'
  }

  predicate IsAsciiLower(c: char) { 'a' <= c <= 'z' }
  predicate IsAsciiUpper(c: char) { 'A' <= c <= 'Z' }
  predicate IsLatin(c: char) { IsAsciiLower(c) || IsAsciiUpper(c) }
  predicate IsDigit(c: char) { '0' <= c <= '9' }

  /** `[а-яё]`: the range U+0430..U+044F plus ё (U+0451). */
  predicate IsCyrLower(c: char) { ('а' <= c <= 'я') || c == 'ё' }
  predicate IsCyrUpper(c: char) { ('А' <= c <= 'Я') || c == 'Ё' }
  predicate IsCyrillic(c: char) { IsCyrLower(c) || IsCyrUpper(c) }

  /** `\w`: letters, digits and the underscore. */
  predicate IsWordChar(c: char) { IsLatin(c) || IsDigit(c) || c == '_' || IsCyrillic(c) }

  /**
   * `\b` between positions `j - 1` and `j` of `s`: a word character on
   * exactly one side, the ends of the string counting as non-word.
   */
  predicate Boundary(s: string, j: nat)
    requires j <= |s|
  {
    (j > 0 && IsWordChar(s[j - 1])) != (j < |s| && IsWordChar(s[j]))
  }

  function Upper(c: char): char {
    if IsAsciiLower(c) || ('а' <= c <= 'я') then (c as int - 32) as char
    else if c == 'ё' then 'Ё'
    else c
  }

  function Lower(c: char): char {
    if IsAsciiUpper(c) || ('А' <= c <= 'Я') then (c as int + 32) as char
    else if c == 'Ё' then 'ё'
    else c
  }

  /** Case mapping is idempotent and ignores the case it starts from. */
  lemma CaseFolding(c: char)
    ensures Upper(Lower(c)) == Upper(c) && Upper(Upper(c)) == Upper(c)
    ensures Lower(Upper(c)) == Lower(c) && Lower(Lower(c)) == Lower(c)
    ensures IsWordChar(Upper(c)) == IsWordChar(c) && IsSpace(Upper(c)) == IsSpace(c)
    ensures IsWordChar(Lower(c)) == IsWordChar(c) && IsSpace(Lower(c)) == IsSpace(c)
  {
  }

  function UpperStr(s: string): (r: string)
    ensures |r| == |s| && forall i :: 0 <= i < |s| ==> r[i] == Upper(s[i])
  {
    seq(|s|, i requires 0 <= i < |s| => Upper(s[i]))
  }

  function LowerStr(s: string): (r: string)
    ensures |r| == |s| && forall i :: 0 <= i < |s| ==> r[i] == Lower(s[i])
  {
    seq(|s|, i requires 0 <= i < |s| => Lower(s[i]))
  }

  /** `not s.strip()`: the string is empty or all whitespace. */
  predicate IsBlank(s: string) {
    forall i :: 0 <= i < |s| ==> IsSpace(s[i])
  }

  // ---------------------------------------------------------------------
  // strip

  function StripLeft(s: string): (r: string)
    ensures |r| <= |s| && r == s[|s| - |r|..]
    ensures r == [] || !IsSpace(r[0])
    ensures forall i :: 0 <= i < |s| - |r| ==> IsSpace(s[i])
  {
    if s != [] && IsSpace(s[0]) then StripLeft(s[1..]) else s
  }

  function StripRight(s: string): (r: string)
    ensures |r| <= |s| && r == s[..|r|]
    ensures r == [] || !IsSpace(r[|r| - 1])
    ensures forall i :: |r| <= i < |s| ==> IsSpace(s[i])
  {
    if s != [] && IsSpace(s[|s| - 1]) then StripRight(s[..|s| - 1]) else s
  }

  /** `s.strip()` */
  function Strip(s: string): string {
    StripRight(StripLeft(s))
  }

  /** `s.strip()` is empty exactly when `s` is blank. */
  lemma StripEmptyIffBlank(s: string)
    ensures Strip(s) == [] <==> IsBlank(s)
  {
    var t := StripLeft(s);
    if t != [] {
      assert !IsSpace(t[0]);
      assert !IsSpace(s[|s| - |t|]);
      assert StripRight(t) != [] by {
        assert !IsSpace(t[0]);
      }
    }
  }

  /** A string with no whitespace at either end is its own `strip()`. */
  lemma StripUnchanged(s: string)
    requires s == [] || (!IsSpace(s[0]) && !IsSpace(s[|s| - 1]))
    ensures Strip(s) == s
  {
  }

  /** A line ending in one whitespace character after a string with no whitespace at its ends strips to that string. */
  lemma StripTrailingSpace(s: string, c: char)
    requires s != [] && !IsSpace(s[0]) && !IsSpace(s[|s| - 1]) && IsSpace(c)
    ensures Strip(s + [c]) == s
  {
    var line := s + [c];
    assert line[0] == s[0];
    assert StripLeft(line) == line;
    assert line[..|line| - 1] == s;
    assert StripRight(line) == StripRight(s);
  }

  // ---------------------------------------------------------------------
  // split and join

  /** Length of the leading run of non-whitespace characters. */
  function WordLength(s: string): (n: nat)
    ensures n <= |s|
    ensures forall i :: 0 <= i < n ==> !IsSpace(s[i])
    ensures n == |s| || IsSpace(s[n])
  {
    if s == [] || IsSpace(s[0]) then 0 else 1 + WordLength(s[1..])
  }

  /** `s.split()`: the maximal runs of non-whitespace characters, in order. */
  function SplitWs(s: string): (r: seq<string>)
    ensures forall i :: 0 <= i < |r| ==> Word(r[i])
    decreases |s|
  {
    var t := StripLeft(s);
    if t == [] then []
    else
      var n := WordLength(t);
      var w, rest := t[..n], SplitWs(t[n..]);
      LeadingWord(t);
      WordsCons(w, rest);
      [w] + rest
  }

  /** The leading run of a string that does not start with whitespace is a word. */
  lemma LeadingWord(t: string)
    requires t != [] && !IsSpace(t[0])
    ensures Word(t[..WordLength(t)])
  {
    var w := t[..WordLength(t)];
    assert forall j :: 0 <= j < |w| ==> w[j] == t[j];
  }

  lemma WordsCons(w: string, rest: seq<string>)
    requires Word(w) && forall i :: 0 <= i < |rest| ==> Word(rest[i])
    ensures forall i :: 0 <= i < |[w] + rest| ==> Word(([w] + rest)[i])
  {
    var r := [w] + rest;
    forall i | 1 <= i < |r| ensures r[i] == rest[i - 1] { }
  }

  /** `s.strip().split()`: the whitespace-separated fields of a line. */
  function Fields(line: string): seq<string> {
    SplitWs(Strip(line))
  }

  /** `line.strip().split()[0]`, or None where Python raises IndexError. */
  function FirstField(line: string): Option<string> {
    var f := Fields(line);
    if f == [] then None else Some(f[0])
  }

  /** `line.strip().split()[0]` for each line; None where it raises IndexError. */
  function Firsts(lines: seq<string>): (fs: seq<Option<string>>)
    ensures |fs| == |lines| && forall k :: 0 <= k < |lines| ==> fs[k] == FirstField(lines[k])
  {
    seq(|lines|, k requires 0 <= k < |lines| => FirstField(lines[k]))
  }

  /** `line.strip().split()` for each line. */
  function FieldsOf(lines: seq<string>): (ps: seq<seq<string>>)
    ensures |ps| == |lines| && forall k :: 0 <= k < |lines| ==> ps[k] == Fields(lines[k])
  {
    seq(|lines|, k requires 0 <= k < |lines| => Fields(lines[k]))
  }

  /** `sep.join(parts)` */
  function Join(sep: string, parts: seq<string>): string
    decreases |parts|
  {
    if parts == [] then []
    else if |parts| == 1 then parts[0]
    else parts[0] + sep + Join(sep, parts[1..])
  }

  predicate Word(w: string) {
    w != [] && forall j :: 0 <= j < |w| ==> !IsSpace(w[j])
  }

  /** Splitting a space-joined line of words gives the words back. */
  lemma {:induction false} SplitWsJoin(ws: seq<string>)
    requires forall i :: 0 <= i < |ws| ==> Word(ws[i])
    ensures SplitWs(Join(" ", ws)) == ws
    decreases |ws|
  {
    if ws == [] {
    } else if |ws| == 1 {
      assert SplitWs(Join(" ", ws)) == [ws[0]] by {
        assert Join(" ", ws) == ws[0];
        SplitWsWord(ws[0]);
      }
    } else {
      var rest := Join(" ", ws[1..]);
      assert SplitWs(Join(" ", ws)) == [ws[0]] + ws[1..] by {
        assert Join(" ", ws) == ws[0] + " " + rest;
        SplitWsJoin(ws[1..]);
        JoinStartsWith(ws[1..]);
        SplitWsCons(ws[0], rest);
      }
      assert ws == [ws[0]] + ws[1..];
    }
  }

  lemma SplitWsWord(w: string)
    requires Word(w)
    ensures SplitWs(w) == [w]
  {
    assert StripLeft(w) == w;
    WordLengthOfWord(w, []);
    assert w + [] == w;
    assert w[..|w|] == w && w[|w|..] == [];
  }

  /** A word, a space, then the rest of the line. */
  lemma SplitWsCons(w: string, rest: string)
    requires Word(w)
    ensures SplitWs(w + " " + rest) == [w] + SplitWs(rest)
  {
    var s := w + " " + rest;
    assert WordLength(s) == |w| by {
      assert s == w + (" " + rest);
      WordLengthOfWord(w, " " + rest);
    }
    assert s[..|w|] == w && s[|w|..] == " " + rest;
    SplitWsStep(s);
    SplitWsSpace(rest);
  }

  /** A line that starts with a word splits into that word and the rest. */
  lemma SplitWsStep(s: string)
    requires s != [] && !IsSpace(s[0])
    ensures SplitWs(s) == [s[..WordLength(s)]] + SplitWs(s[WordLength(s)..])
  {
    assert StripLeft(s) == s;
  }

  /** Leading whitespace does not change the split. */
  lemma SplitWsSpace(t: string)
    ensures SplitWs(" " + t) == SplitWs(t)
  {
    assert StripLeft(" " + t) == StripLeft(t) by {
      assert (" " + t)[1..] == t;
    }
  }

  lemma WordLengthOfWord(w: string, tail: string)
    requires Word(w)
    requires tail == [] || IsSpace(tail[0])
    ensures WordLength(w + tail) == |w|
    decreases |w|
  {
    if |w| > 1 {
      assert (w + tail)[1..] == w[1..] + tail;
      WordLengthOfWord(w[1..], tail);
    } else {
      assert (w + tail)[1..] == tail;
    }
  }

  lemma JoinStartsWith(ws: seq<string>)
    requires ws != [] && forall i :: 0 <= i < |ws| ==> Word(ws[i])
    ensures ws[0] != [] && Join(" ", ws) != [] && Join(" ", ws)[0] == ws[0][0]
  {
  }

  /** `s.split(c)` for a one-character separator: keeps empty fields. */
  function Split(s: string, c: char): (r: seq<string>)
    ensures |r| >= 1
    decreases |s|
  {
    if s == [] then [[]]
    else if s[0] == c then [[]] + Split(s[1..], c)
    else
      var rest := Split(s[1..], c);
      [[s[0]] + rest[0]] + rest[1..]
  }

  /** Joining the pieces of `s.split(c)` with `c` gives `s` back. */
  lemma {:induction false} JoinSplit(s: string, c: char)
    ensures Join([c], Split(s, c)) == s
    decreases |s|
  {
    if s == [] {
    } else if s[0] == c {
      JoinSplit(s[1..], c);
      assert s == [c] + s[1..];
    } else {
      JoinSplit(s[1..], c);
      var rest := Split(s[1..], c);
      if |rest| == 1 {
        assert Join([c], rest) == rest[0];
      } else {
        assert Join([c], rest) == rest[0] + [c] + Join([c], rest[1..]);
        assert [[s[0]] + rest[0]] + rest[1..] == [[s[0]] + rest[0]] + rest[1..];
        assert ([[s[0]] + rest[0]] + rest[1..])[1..] == rest[1..];
      }
    }
  }

  /** `s.split(c, 1)`: the text before the first `c` and everything after it. */
  function SplitFirst(s: string, c: char): (r: Option<(string, string)>)
    ensures r.None? <==> c !in s
    ensures r.Some? ==> c !in r.value.0 && s == r.value.0 + [c] + r.value.1
  {
    if s == [] then None
    else if s[0] == c then Some(([], s[1..]))
    else match SplitFirst(s[1..], c)
      case None => None
      case Some(p) => Some(([s[0]] + p.0, p.1))
  }

  predicate EndsWith(s: string, suffix: string) {
    |suffix| <= |s| && s[|s| - |suffix|..] == suffix
  }

  // ---------------------------------------------------------------------
  // int() and str() on integers

  predicate AllDigits(d: string) {
    forall i :: 0 <= i < |d| ==> IsDigit(d[i])
  }

  function DigitsValue(d: string): nat
    requires AllDigits(d)
  {
    if d == [] then 0 else DigitsValue(d[..|d| - 1]) * 10 + (d[|d| - 1] as int - '0' as int)
  }

  /**
   * Digits in groups: at least one digit, and each `_` stands between two
   * digits, so `1_000` but not `_1`, `1_` or `1__0`.
   */
  predicate Grouped(d: string)
    decreases |d|
  {
    d != [] && IsDigit(d[0]) && (|d| == 1 || if d[1] == '_' then Grouped(d[2..]) else Grouped(d[1..]))
  }

  /** Plain digits are grouped digits. */
  lemma {:induction false} DigitsGrouped(d: string)
    requires d != [] && AllDigits(d)
    ensures Grouped(d)
    decreases |d|
  {
    if |d| > 1 {
      DigitsGrouped(d[1..]);
    }
  }

  /** The digits of a string, in order, with everything else left out. */
  function DigitsOf(d: string): (r: string)
    ensures AllDigits(r) && |r| <= |d|
  {
    if d == [] then [] else (if IsDigit(d[0]) then [d[0]] else []) + DigitsOf(d[1..])
  }

  /** A digit string is its own digits. */
  lemma {:induction false} DigitsOfDigits(d: string)
    requires AllDigits(d)
    ensures DigitsOf(d) == d
  {
    if d != [] {
      DigitsOfDigits(d[1..]);
      assert d == [d[0]] + d[1..];
    }
  }

  /**
   * `int(s)`: surrounding whitespace, an optional sign and ASCII digits, in
   * groups separated by single underscores; None where Python raises
   * ValueError.
   */
  function ParseInt(s: string): Option<int> {
    ParseSigned(Strip(s))
  }

  /** An optional sign followed by grouped digits. */
  function ParseSigned(t: string): Option<int> {
    if t != [] && (t[0] == '-' || t[0] == '+') then
      var d := t[1..];
      if Grouped(d) then
        var v: int := DigitsValue(DigitsOf(d));
        Some(if t[0] == '-' then -v else v)
      else None
    else if Grouped(t) then Some(DigitsValue(DigitsOf(t)))
    else None
  }

  /** `int("1_2") == 12`: an underscore between two digits is accepted and ignored. */
  lemma ParseGroupedPair(a: char, b: char)
    requires IsDigit(a) && IsDigit(b)
    ensures ParseSigned([a, '_', b]) == Some((a as int - '0' as int) * 10 + (b as int - '0' as int))
  {
    var t := [a, '_', b];
    assert Grouped(t) by {
      assert t[2..] == [b];
    }
    assert DigitsOf(t) == [a, b] by {
      assert t[1..] == ['_', b] && t[1..][1..] == [b] && [b][1..] == [];
      assert DigitsOf([b]) == [b] + DigitsOf([]);
      assert DigitsOf(['_', b]) == DigitsOf([b]);
      assert DigitsOf(t) == [a] + DigitsOf(['_', b]);
    }
    assert [a, b][..1] == [a] && [a][..0] == [];
    assert DigitsValue([a]) == a as int - '0' as int;
    assert DigitsValue([a, b]) == DigitsValue([a]) * 10 + (b as int - '0' as int);
    assert t[0] != '-' && t[0] != '+';
  }

  function NatToStr(n: nat): (r: string)
    ensures r != [] && AllDigits(r)
  {
    if n < 10 then [('0' as int + n) as char]
    else NatToStr(n / 10) + [('0' as int + n % 10) as char]
  }

  /** `str(n)` */
  function IntToStr(n: int): (r: string)
    ensures r != [] && (r[0] == '-' || IsDigit(r[0])) && forall i :: 1 <= i < |r| ==> IsDigit(r[i])
  {
    if n < 0 then "-" + NatToStr(-n) else NatToStr(n)
  }

  lemma {:induction false} NatToStrValue(n: nat)
    ensures DigitsValue(NatToStr(n)) == n
  {
    if n >= 10 {
      NatToStrValue(n / 10);
      var r := NatToStr(n);
      assert r[..|r| - 1] == NatToStr(n / 10);
    }
  }

  /** `int(str(n)) == n` */
  lemma ParseIntOfIntToStr(n: int)
    ensures ParseInt(IntToStr(n)) == Some(n)
  {
    StripIntToStr(n);
    ParseSignedIntToStr(n);
  }

  lemma StripIntToStr(n: int)
    ensures Strip(IntToStr(n)) == IntToStr(n)
  {
    var r := IntToStr(n);
    assert !IsSpace(r[0]) && !IsSpace(r[|r| - 1]);
    StripUnchanged(r);
  }

  lemma ParseSignedIntToStr(n: int)
    ensures ParseSigned(IntToStr(n)) == Some(n)
  {
    var r := IntToStr(n);
    if n < 0 {
      var d := NatToStr(-n);
      NatToStrValue(-n);
      DigitsOfDigits(d);
      DigitsGrouped(d);
      assert r == "-" + d && r[0] == '-';
      assert r[1..] == d;
    } else {
      NatToStrValue(n);
      DigitsOfDigits(r);
      DigitsGrouped(r);
      assert r[0] != '-' && r[0] != '+';
    }
  }

  // ---------------------------------------------------------------------
  // clean_text

  /** The characters `[а-яА-ЯёЁ\s-]` that clean_text keeps. */
  predicate IsKept(c: char) {
    IsCyrillic(c) || IsSpace(c) || c == '-'
  }

  /** `re.sub(r'[^а-яА-ЯёЁ\s-]', ' ', s)` */
  function MaskOthers(s: string): (r: string)
    ensures |r| == |s| && forall i :: 0 <= i < |s| ==> r[i] == if IsKept(s[i]) then s[i] else ' '
  {
    seq(|s|, i requires 0 <= i < |s| => if IsKept(s[i]) then s[i] else ' ')
  }

  /** `re.sub(r'\s+', ' ', s)`: every maximal run of whitespace becomes one space. */
  function CollapseSpaces(s: string): (r: string)
    ensures forall i :: 0 <= i < |r| ==> r[i] == ' ' || (r[i] in s && !IsSpace(r[i]))
    ensures Collapsed(r)
    ensures r != [] <==> s != []
    ensures r != [] ==> (IsSpace(r[0]) <==> IsSpace(s[0]))
    decreases |s|
  {
    if s == [] then []
    else if IsSpace(s[0]) then
      var t := StripLeft(s);
      var rest := CollapseSpaces(t);
      StripLeftWithin(s);
      ConsCollapsed(' ', rest, s, t);
      [' '] + rest
    else
      var rest := CollapseSpaces(s[1..]);
      ConsCollapsed(s[0], rest, s, s[1..]);
      [s[0]] + rest
  }

  lemma StripLeftWithin(s: string)
    ensures forall x :: x in StripLeft(s) ==> x in s
  {
    var t := StripLeft(s);
    forall x | x in t ensures x in s {
      var i :| 0 <= i < |t| && t[i] == x;
      assert s[|s| - |t| + i] == x;
    }
  }

  /** One character in front of a collapsed piece of `s` that starts with non-whitespace after a space. */
  lemma ConsCollapsed(c: char, rest: string, s: string, t: string)
    requires Collapsed(rest) && (IsSpace(c) ==> c == ' ')
    requires c == ' ' ==> rest == [] || !IsSpace(rest[0])
    requires c == ' ' || (c in s && !IsSpace(c))
    requires forall x :: x in t ==> x in s
    requires forall i :: 0 <= i < |rest| ==> rest[i] == ' ' || (rest[i] in t && !IsSpace(rest[i]))
    ensures Collapsed([c] + rest)
    ensures forall i :: 0 <= i < |[c] + rest| ==> ([c] + rest)[i] == ' ' || (([c] + rest)[i] in s && !IsSpace(([c] + rest)[i]))
  {
    var r := [c] + rest;
    assert forall i :: 1 <= i < |r| ==> r[i] == rest[i - 1];
  }

  /** Whitespace is only single spaces. */
  predicate Collapsed(t: string) {
    && (forall i :: 0 <= i < |t| ==> IsSpace(t[i]) ==> t[i] == ' ')
    && (forall i :: 0 <= i < |t| - 1 ==> !(t[i] == ' ' && t[i + 1] == ' '))
  }

  /**
   * `clean_text` of tokenizer.py and calculation_TFIDF.py (the two are the
   * same character class, written once with explicit capitals and once with
   * re.IGNORECASE). The html.unescape step is not part of this model.
   */
  function CleanText(s: string): string {
    LowerStr(Strip(CollapseSpaces(MaskOthers(s))))
  }

  /** What clean_text output looks like. */
  predicate IsClean(t: string) {
    && (forall i :: 0 <= i < |t| ==> IsCyrLower(t[i]) || t[i] == '-' || t[i] == ' ')
    && (t == [] || (t[0] != ' ' && t[|t| - 1] != ' '))
    && (forall i :: 0 <= i < |t| - 1 ==> !(t[i] == ' ' && t[i + 1] == ' '))
  }

  /** Only Cyrillic letters, `-` and plain spaces. */
  predicate KeptChars(t: string) {
    forall i :: 0 <= i < |t| ==> IsCyrillic(t[i]) || t[i] == '-' || t[i] == ' '
  }

  lemma MaskedCollapsedChars(s: string)
    ensures KeptChars(CollapseSpaces(MaskOthers(s)))
  {
    var m := MaskOthers(s);
    assert forall i :: 0 <= i < |m| ==> IsKept(m[i]);
    var c := CollapseSpaces(m);
    forall i | 0 <= i < |c|
      ensures IsCyrillic(c[i]) || c[i] == '-' || c[i] == ' '
    {
      if c[i] != ' ' {
        assert c[i] in m && !IsSpace(c[i]);
      }
    }
  }

  /** strip() keeps a contiguous piece, so both properties survive it. */
  lemma StripKeeps(c: string)
    requires KeptChars(c) && Collapsed(c)
    ensures KeptChars(Strip(c)) && Collapsed(Strip(c))
    ensures Strip(c) == [] || (Strip(c)[0] != ' ' && Strip(c)[|Strip(c)| - 1] != ' ')
  {
    var t := StripLeft(c);
    StripLeftKeeps(c);
    StripRightKeeps(t);
    StripEnds(c);
  }

  lemma StripLeftKeeps(c: string)
    requires KeptChars(c) && Collapsed(c)
    ensures KeptChars(StripLeft(c)) && Collapsed(StripLeft(c))
  {
    SliceKeeps(c, |c| - |StripLeft(c)|, |c|);
  }

  lemma StripRightKeeps(t: string)
    requires KeptChars(t) && Collapsed(t)
    ensures KeptChars(StripRight(t)) && Collapsed(StripRight(t))
  {
    SliceKeeps(t, 0, |StripRight(t)|);
  }

  lemma StripEnds(c: string)
    ensures Strip(c) == [] || (Strip(c)[0] != ' ' && Strip(c)[|Strip(c)| - 1] != ' ')
  {
    var t := StripLeft(c);
    var u := StripRight(t);
    if u != [] {
      assert u[0] == t[0];
    }
  }

  /** A slice of kept, collapsed text is kept and collapsed. */
  lemma SliceKeeps(c: string, lo: nat, hi: nat)
    requires lo <= hi <= |c|
    requires KeptChars(c) && Collapsed(c)
    ensures KeptChars(c[lo..hi]) && Collapsed(c[lo..hi])
  {
    var u := c[lo..hi];
    assert forall i :: 0 <= i < |u| ==> u[i] == c[lo + i];
    forall i | 0 <= i < |u| - 1
      ensures !(u[i] == ' ' && u[i + 1] == ' ')
    {
      assert u[i] == c[lo + i] && u[i + 1] == c[lo + i + 1];
    }
  }

  lemma LowerKeeps(u: string)
    requires KeptChars(u) && Collapsed(u)
    requires u == [] || (u[0] != ' ' && u[|u| - 1] != ' ')
    ensures IsClean(LowerStr(u))
  {
    var r := LowerStr(u);
    assert forall i :: 0 <= i < |u| ==> (r[i] == ' ' <==> u[i] == ' ');
  }

  /**
   * clean_text leaves only lower-case а-я/ё, `-` and single spaces, with no
   * space at either end.
   */
  lemma CleanTextIsClean(s: string)
    ensures IsClean(CleanText(s))
  {
    MaskedCollapsedChars(s);
    StripKeeps(CollapseSpaces(MaskOthers(s)));
    LowerKeeps(Strip(CollapseSpaces(MaskOthers(s))));
  }

  /** Text that is already clean is left alone. */
  lemma CleanTextFixes(t: string)
    requires IsClean(t)
    ensures CleanText(t) == t
  {
    MaskUnchanged(t);
    assert Collapsed(t) by {
      assert forall i :: 0 <= i < |t| ==> IsCyrLower(t[i]) || t[i] == '-' || t[i] == ' ';
    }
    CollapseUnchanged(t);
    StripUnchanged(t);
    LowerUnchanged(t);
  }

  lemma MaskUnchanged(t: string)
    requires IsClean(t)
    ensures MaskOthers(t) == t
  {
    var m := MaskOthers(t);
    forall i | 0 <= i < |t| ensures m[i] == t[i] {
      assert IsKept(t[i]);
    }
  }

  lemma LowerUnchanged(t: string)
    requires IsClean(t)
    ensures LowerStr(t) == t
  {
    var r := LowerStr(t);
    forall i | 0 <= i < |t| ensures r[i] == t[i] {
      assert IsCyrLower(t[i]) || t[i] == '-' || t[i] == ' ';
    }
  }

  lemma {:induction false} CollapseUnchanged(t: string)
    requires Collapsed(t)
    ensures CollapseSpaces(t) == t
    decreases |t|
  {
    if t != [] {
      assert Collapsed(t[1..]);
      CollapseUnchanged(t[1..]);
      if IsSpace(t[0]) {
        assert StripLeft(t) == t[1..];
      }
    }
  }

  /** clean_text is idempotent. */
  lemma CleanTextIdempotent(s: string)
    ensures CleanText(CleanText(s)) == CleanText(s)
  {
    CleanTextIsClean(s);
    CleanTextFixes(CleanText(s));
  }

  // ---------------------------------------------------------------------
  // where the characters of split pieces come from

  /** Every character of every part is a character of `s`. */
  predicate CharsWithin(parts: seq<string>, s: string) {
    forall i, x :: 0 <= i < |parts| && x in parts[i] ==> x in s
  }

  lemma SliceWithin(s: string, lo: nat, hi: nat)
    requires lo <= hi <= |s|
    ensures forall x :: x in s[lo..hi] ==> x in s
  {
    forall x | x in s[lo..hi] ensures x in s {
      var i :| 0 <= i < hi - lo && s[lo..hi][i] == x;
      assert s[lo + i] == x;
    }
  }

  lemma ConsWithin(w: string, rest: seq<string>, s: string)
    requires (forall x :: x in w ==> x in s) && CharsWithin(rest, s)
    ensures CharsWithin([w] + rest, s)
  {
    var r := [w] + rest;
    forall i, x | 0 <= i < |r| && x in r[i] ensures x in s {
      if i > 0 {
        assert r[i] == rest[i - 1];
      }
    }
  }

  lemma WithinWider(parts: seq<string>, t: string, s: string)
    requires CharsWithin(parts, t) && forall x :: x in t ==> x in s
    ensures CharsWithin(parts, s)
  {
  }

  /** Every character of a field of `s.split()` is a character of `s`. */
  lemma {:induction false} SplitWsChars(s: string)
    ensures CharsWithin(SplitWs(s), s)
    decreases |s|
  {
    var t := StripLeft(s);
    StripLeftWithin(s);
    if t != [] {
      var n := WordLength(t);
      var u := t[n..];
      SplitWsChars(u);
      SliceWithin(t, n, |t|);
      WithinWider(SplitWs(u), u, s);
      SliceWithin(t, 0, n);
      ConsWithin(t[..n], SplitWs(u), s);
      assert SplitWs(s) == [t[..n]] + SplitWs(u);
    }
  }

  /** No piece of `s.split(c)` holds `c`, and every character of a piece is one of `s`. */
  lemma {:induction false} SplitChars(s: string, c: char)
    ensures CharsWithin(Split(s, c), s)
    ensures forall i :: 0 <= i < |Split(s, c)| ==> c !in Split(s, c)[i]
    decreases |s|
  {
    if s != [] {
      SplitChars(s[1..], c);
      var rest := Split(s[1..], c);
      SliceWithin(s, 1, |s|);
      WithinWider(rest, s[1..], s);
      if s[0] == c {
        ConsWithin([], rest, s);
        var r := [[]] + rest;
        assert forall i :: 1 <= i < |r| ==> r[i] == rest[i - 1];
      } else {
        var r := [[s[0]] + rest[0]] + rest[1..];
        assert forall i :: 1 <= i < |r| ==> r[i] == rest[i];
        assert forall x :: x in r[0] ==> x == s[0] || x in rest[0];
        assert CharsWithin(r, s) by {
          forall i, x | 0 <= i < |r| && x in r[i] ensures x in s {
            if i > 0 {
              assert x in rest[i];
            }
          }
        }
      }
    }
  }
}
