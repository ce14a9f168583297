/**
 * The boolean query engine: a permissive lexer that turns AND/OR/NOT into
 * `&&`/`||`/`!`, a shunting-yard conversion to reverse Polish notation, and
 * a stack evaluator over sets of document ids.
 */
module BooleanSearch {
  import opened Wrappers
  import opened Text
  import opened Order

  /** The strings `tokenize_query` can produce, and `to_rpn` then passes on. */
  datatype Token = LParen | RParen | And | Or | Not | Word(text: string)

  /** The Python string a token stands for. */
  function Spelling(t: Token): string {
    match t
    case LParen => "("
    case RParen => ")"
    case And => "&&"
    case Or => "||"
    case Not => "!"
    case Word(w) => w
  }

  /** `token in precedence` */
  predicate IsOperator(t: Token) {
    t.And? || t.Or? || t.Not?
  }

  /** `precedence.get(t, 0)` with `precedence = {'!': 3, '&&': 2, '||': 1}` */
  function Precedence(t: Token): nat {
    if t.Not? then 3 else if t.And? then 2 else if t.Or? then 1 else 0
  }

  // ---------------------------------------------------------------------
  // tokenize_query

  /** `s.replace(pat, rep)`: every occurrence, left to right, without overlaps. */
  function Replace(s: string, pat: string, rep: string): string
    requires pat != []
    decreases |s|
  {
    if |s| < |pat| then s
    else if s[..|pat|] == pat then rep + Replace(s[|pat|..], pat, rep)
    else [s[0]] + Replace(s[1..], pat, rep)
  }

  /** Length of the leading `\w+` run. */
  function WordRun(s: string): (n: nat)
    ensures n <= |s|
    ensures forall i :: 0 <= i < n ==> IsWordChar(s[i])
    ensures n == |s| || !IsWordChar(s[n])
  {
    if s == [] || !IsWordChar(s[0]) then 0 else 1 + WordRun(s[1..])
  }

  /** A token the lexer can emit: an operator, a parenthesis or a non-empty `\w` run. */
  predicate WellFormed(t: Token) {
    t.Word? ==> t.text != [] && forall j :: 0 <= j < |t.text| ==> IsWordChar(t.text[j])
  }

  /**
   * `re.findall(r'\(|\)|\w+|\&\&|\|\||!', s)`: at each position the
   * alternatives are tried in order; a character none of them matches is
   * skipped.
   */
  function Lex(s: string): (r: seq<Token>)
    ensures forall k :: 0 <= k < |r| ==> WellFormed(r[k])
    decreases |s|
  {
    if s == [] then []
    else if s[0] == '(' then [LParen] + Lex(s[1..])
    else if s[0] == ')' then [RParen] + Lex(s[1..])
    else if IsWordChar(s[0]) then
      var n := WordRun(s);
      [Word(s[..n])] + Lex(s[n..])
    else if |s| >= 2 && s[..2] == "&&" then [And] + Lex(s[2..])
    else if |s| >= 2 && s[..2] == "||" then [Or] + Lex(s[2..])
    else if s[0] == '!' then [Not] + Lex(s[1..])
    else Lex(s[1..])
  }

  /** `tokenize_query`: upper-case, spell the connectives as symbols, then lex. */
  function TokenizeQuery(q: string): seq<Token> {
    Lex(Replace(Replace(Replace(UpperStr(q), "AND", "&&"), "OR", "||"), "NOT", "!"))
  }

  function Spellings(ts: seq<Token>): seq<string> {
    if ts == [] then [] else [Spelling(ts[0])] + Spellings(ts[1..])
  }

  /** Lexing the tokens written out with spaces between them gives them back. */
  lemma {:induction false} LexSpelled(ts: seq<Token>)
    requires forall k :: 0 <= k < |ts| ==> WellFormed(ts[k])
    ensures Lex(Join(" ", Spellings(ts))) == ts
    decreases |ts|
  {
    if ts != [] {
      var t := ts[0];
      var w := Spelling(t);
      assert Spellings(ts) == [w] + Spellings(ts[1..]);
      if |ts| == 1 {
        assert Join(" ", Spellings(ts)) == w + [];
        LexOne(t, []);
      } else {
        var rest := Join(" ", Spellings(ts[1..]));
        assert Join(" ", Spellings(ts)) == w + (" " + rest);
        LexOne(t, " " + rest);
        LexSpace(rest);
        LexSpelled(ts[1..]);
        assert [t] + ts[1..] == ts;
      }
    }
  }

  lemma LexSpace(rest: string)
    ensures Lex(" " + rest) == Lex(rest)
  {
    var s := " " + rest;
    assert s[0] == ' ' && s[1..] == rest;
    assert |s| >= 2 ==> s[..2] != "&&" && s[..2] != "||";
  }

  /** One spelled token followed by nothing or a space lexes as itself. */
  lemma LexOne(t: Token, tail: string)
    requires WellFormed(t)
    requires tail == [] || tail[0] == ' '
    ensures Lex(Spelling(t) + tail) == [t] + Lex(tail)
  {
    match t
    case Word(w) => LexWord(w, tail);
    case And => LexPair("&&", tail);
    case Or => LexPair("||", tail);
    case _ =>
      var s := Spelling(t) + tail;
      assert s[0] == Spelling(t)[0] && s[1..] == tail;
  }

  lemma LexWord(w: string, tail: string)
    requires w != [] && forall j :: 0 <= j < |w| ==> IsWordChar(w[j])
    requires tail == [] || !IsWordChar(tail[0])
    ensures Lex(w + tail) == [Word(w)] + Lex(tail)
  {
    var s := w + tail;
    WordRunOf(w, tail);
    assert s[0] == w[0] && IsWordChar(s[0]);
    assert s[..|w|] == w && s[|w|..] == tail;
  }

  lemma LexPair(p: string, tail: string)
    requires p == "&&" || p == "||"
    ensures Lex(p + tail) == [if p == "&&" then And else Or] + Lex(tail)
  {
    var s := p + tail;
    assert s[0] == p[0] && !IsWordChar(s[0]);
    assert s[..2] == p && s[2..] == tail;
  }

  lemma {:induction false} WordRunOf(w: string, tail: string)
    requires w != [] && forall j :: 0 <= j < |w| ==> IsWordChar(w[j])
    requires tail == [] || !IsWordChar(tail[0])
    ensures WordRun(w + tail) == |w|
    decreases |w|
  {
    if |w| > 1 {
      assert (w + tail)[1..] == w[1..] + tail;
      WordRunOf(w[1..], tail);
    } else {
      assert (w + tail)[1..] == tail;
    }
  }

  /** Upper-casing first makes the connectives case-insensitive. */
  lemma TokenizeIgnoresCase(q: string)
    ensures TokenizeQuery(LowerStr(q)) == TokenizeQuery(q)
    ensures TokenizeQuery(UpperStr(q)) == TokenizeQuery(q)
  {
    forall i | 0 <= i < |q| ensures Upper(Lower(q[i])) == Upper(q[i]) && Upper(Upper(q[i])) == Upper(q[i]) {
      CaseFolding(q[i]);
    }
    assert UpperStr(LowerStr(q)) == UpperStr(q);
    assert UpperStr(UpperStr(q)) == UpperStr(q);
  }

  lemma {:induction false} ReplaceAbsent(s: string, pat: string, rep: string)
    requires pat != [] && pat[0] !in s
    ensures Replace(s, pat, rep) == s
    decreases |s|
  {
    if |s| >= |pat| {
      assert s[0] != pat[0];
      assert s[..|pat|] != pat;
      ReplaceAbsent(s[1..], pat, rep);
    }
  }

  /**
   * A query without Latin letters (any Russian query) is lexed as it is,
   * upper-cased: connectives can only be written in Latin letters.
   */
  lemma TokenizeWithoutLatin(q: string)
    requires forall i :: 0 <= i < |q| ==> !IsLatin(q[i])
    ensures TokenizeQuery(q) == Lex(UpperStr(q))
  {
    var u := UpperStr(q);
    assert 'A' !in u && 'O' !in u && 'N' !in u;
    ReplaceAbsent(u, "AND", "&&");
    ReplaceAbsent(u, "OR", "||");
    ReplaceAbsent(u, "NOT", "!");
  }

  /** The replacement is a plain substring replacement: "brand" hides an AND. */
  lemma TokenizeBrand()
    ensures TokenizeQuery("brand") == [Word("BR"), And]
  {
    ReplacedBrand();
    LexBrand();
  }

  lemma ReplacedBrand()
    ensures Replace(Replace(Replace(UpperStr("brand"), "AND", "&&"), "OR", "||"), "NOT", "!") == "BR&&"
  {
    UpperBrand();
    ReplaceBrand();
    ReplaceAbsent("BR&&", "OR", "||");
    ReplaceAbsent("BR&&", "NOT", "!");
  }

  lemma LexBrand()
    ensures Lex("BR&&") == [Word("BR"), And]
  {
    LexWord("BR", "&&");
    LexPair("&&", []);
    assert "BR" + "&&" == "BR&&" && "&&" + [] == "&&";
  }

  lemma UpperBrand()
    ensures UpperStr("brand") == "BRAND"
  {
    var u := UpperStr("brand");
    assert u[0] == 'B' && u[1] == 'R' && u[2] == 'A' && u[3] == 'N' && u[4] == 'D';
  }

  lemma ReplaceBrand()
    ensures Replace("BRAND", "AND", "&&") == "BR&&"
  {
    assert Replace("", "AND", "&&") == "";
    assert "AND"[..3] == "AND" && "AND"[3..] == "";
    assert Replace("AND", "AND", "&&") == "&&";
    assert "RAND"[..3] != "AND" && "RAND"[1..] == "AND";
    assert Replace("RAND", "AND", "&&") == "R&&";
    assert "BRAND"[..3] != "AND" && "BRAND"[1..] == "RAND";
  }

  // ---------------------------------------------------------------------
  // to_rpn

  /** The converter's state: the output list and the operator stack, whose top is its last element. */
  datatype Shunt = Shunt(output: seq<Token>, stack: seq<Token>)

  /**
   * `)`: operators are popped to the output down to the nearest `(`, which
   * is dropped; when there is none the stack simply empties.
   */
  function CloseParen(st: Shunt): Shunt
    decreases |st.stack|
  {
    if st.stack == [] then st
    else
      var top, below := st.stack[|st.stack| - 1], st.stack[..|st.stack| - 1];
      if top == LParen then Shunt(st.output, below)
      else CloseParen(Shunt(st.output + [top], below))
  }

  /** Operators of precedence at least `p` are popped to the output down to the nearest `(`. */
  function PopAtLeast(st: Shunt, p: nat): Shunt
    decreases |st.stack|
  {
    if st.stack == [] then st
    else
      var top, below := st.stack[|st.stack| - 1], st.stack[..|st.stack| - 1];
      if top == LParen || Precedence(top) < p then st
      else PopAtLeast(Shunt(st.output + [top], below), p)
  }

  /** One iteration of the `for token in tokens` loop; operands are lower-cased. */
  function Step(st: Shunt, t: Token): Shunt {
    match t
    case LParen => Shunt(st.output, st.stack + [LParen])
    case RParen => CloseParen(st)
    case Word(w) => Shunt(st.output + [Word(LowerStr(w))], st.stack)
    case _ =>
      var s := PopAtLeast(st, Precedence(t));
      Shunt(s.output, s.stack + [t])
  }

  /** The state after the loop has consumed `ts`, starting from `st`. */
  function RunFrom(st: Shunt, ts: seq<Token>): Shunt
    decreases |ts|
  {
    if ts == [] then st else Step(RunFrom(st, ts[..|ts| - 1]), ts[|ts| - 1])
  }

  function Reversed(s: seq<Token>): (r: seq<Token>)
    ensures |r| == |s| && multiset(r) == multiset(s)
    ensures forall i :: 0 <= i < |s| ==> r[i] == s[|s| - 1 - i]
  {
    if s == [] then []
    else
      assert s == s[..|s| - 1] + [s[|s| - 1]];
      [s[|s| - 1]] + Reversed(s[..|s| - 1])
  }

  /** The final `while stack: output.append(stack.pop())`. */
  function Flush(st: Shunt): seq<Token> {
    st.output + Reversed(st.stack)
  }

  /** What `to_rpn(tokens)` returns. */
  function Rpn(ts: seq<Token>): seq<Token> {
    Flush(RunFrom(Shunt([], []), ts))
  }

  /** The inner `while` of the `)` branch, followed by the pop of the `(` it stops at. */
  method PopToParen(output0: seq<Token>, stack0: seq<Token>) returns (output: seq<Token>, stack: seq<Token>)
    ensures Shunt(output, stack) == CloseParen(Shunt(output0, stack0))
  {
    output, stack := output0, stack0;
    while stack != [] && stack[|stack| - 1] != LParen
      invariant CloseParen(Shunt(output, stack)) == CloseParen(Shunt(output0, stack0))
      decreases |stack|
    {
      output := output + [stack[|stack| - 1]];
      stack := stack[..|stack| - 1];
    }
    if stack != [] {
      stack := stack[..|stack| - 1];
    }
  }

  /** The inner `while` of the operator branch. */
  method PopOperators(output0: seq<Token>, stack0: seq<Token>, p: nat) returns (output: seq<Token>, stack: seq<Token>)
    ensures Shunt(output, stack) == PopAtLeast(Shunt(output0, stack0), p)
  {
    output, stack := output0, stack0;
    while stack != [] && stack[|stack| - 1] != LParen && Precedence(stack[|stack| - 1]) >= p
      invariant PopAtLeast(Shunt(output, stack), p) == PopAtLeast(Shunt(output0, stack0), p)
      decreases |stack|
    {
      output := output + [stack[|stack| - 1]];
      stack := stack[..|stack| - 1];
    }
  }

  /** `to_rpn`: the shunting-yard loop over an output list and a stack list. */
  method ToRpn(tokens: seq<Token>) returns (output: seq<Token>)
    ensures output == Rpn(tokens)
  {
    output := [];
    var stack: seq<Token> := [];
    for i := 0 to |tokens|
      invariant Shunt(output, stack) == RunFrom(Shunt([], []), tokens[..i])
    {
      var token := tokens[i];
      ghost var next := Step(Shunt(output, stack), token);
      assert tokens[..i + 1] == tokens[..i] + [token];
      RunPush(Shunt([], []), tokens[..i], token, Shunt(output, stack), next);
      if token == LParen {
        stack := stack + [token];
      } else if token == RParen {
        output, stack := PopToParen(output, stack);
      } else if IsOperator(token) {
        output, stack := PopOperators(output, stack, Precedence(token));
        stack := stack + [token];
      } else {
        output := output + [Word(LowerStr(token.text))];
      }
    }
    assert tokens[..|tokens|] == tokens;
    while stack != []
      invariant output + Reversed(stack) == Rpn(tokens)
      decreases |stack|
    {
      output := output + [stack[|stack| - 1]];
      stack := stack[..|stack| - 1];
    }
  }

  // ---------------------------------------------------------------------
  // What to_rpn keeps and what it drops

  /** What can sit on the stack: `(` and the operators. */
  predicate Pending(t: Token) {
    t == LParen || IsOperator(t)
  }

  ghost predicate StackPending(st: Shunt) {
    forall k :: 0 <= k < |st.stack| ==> Pending(st.stack[k])
  }

  ghost predicate NoRParen(s: seq<Token>) {
    forall k :: 0 <= k < |s| ==> s[k] != RParen
  }

  /** `after` is `before` with stack tokens appended. */
  ghost predicate Moved(before: seq<Token>, after: seq<Token>) {
    |before| <= |after| && after[..|before|] == before &&
    forall k :: |before| <= k < |after| ==> Pending(after[k])
  }

  /** The copies of `o` a state holds, in its output and on its stack. */
  function Held(st: Shunt, o: Token): nat {
    multiset(st.output)[o] + multiset(st.stack)[o]
  }

  /** The operand words of a token list, in order. */
  function Operands(s: seq<Token>): seq<string>
    decreases |s|
  {
    if s == [] then []
    else Operands(s[..|s| - 1]) + (if s[|s| - 1].Word? then [s[|s| - 1].text] else [])
  }

  function LowerAll(ws: seq<string>): (r: seq<string>)
    ensures |r| == |ws| && forall i :: 0 <= i < |ws| ==> r[i] == LowerStr(ws[i])
  {
    seq(|ws|, i requires 0 <= i < |ws| => LowerStr(ws[i]))
  }

  lemma LowerAllAppend(a: seq<string>, b: seq<string>)
    ensures LowerAll(a + b) == LowerAll(a) + LowerAll(b)
  {
  }

  lemma MovedSnoc(a: seq<Token>, top: Token, c: seq<Token>)
    requires Pending(top) && Moved(a + [top], c)
    ensures Moved(a, c)
  {
    assert c[..|a|] == c[..|a| + 1][..|a|];
  }

  lemma {:induction false} CloseParenFacts(st: Shunt, o: Token)
    requires StackPending(st) && o != LParen
    ensures StackPending(CloseParen(st)) && Moved(st.output, CloseParen(st).output)
    ensures Held(CloseParen(st), o) == Held(st, o)
    decreases |st.stack|
  {
    if st.stack != [] {
      var top, below := st.stack[|st.stack| - 1], st.stack[..|st.stack| - 1];
      assert st.stack == below + [top];
      if top != LParen {
        CloseParenFacts(Shunt(st.output + [top], below), o);
        MovedSnoc(st.output, top, CloseParen(st).output);
      }
    }
  }

  lemma {:induction false} PopAtLeastFacts(st: Shunt, p: nat, o: Token)
    requires StackPending(st)
    ensures StackPending(PopAtLeast(st, p)) && Moved(st.output, PopAtLeast(st, p).output)
    ensures Held(PopAtLeast(st, p), o) == Held(st, o)
    decreases |st.stack|
  {
    if st.stack != [] {
      var top, below := st.stack[|st.stack| - 1], st.stack[..|st.stack| - 1];
      assert st.stack == below + [top];
      if top != LParen && Precedence(top) >= p {
        PopAtLeastFacts(Shunt(st.output + [top], below), p, o);
        MovedSnoc(st.output, top, PopAtLeast(st, p).output);
      }
    }
  }

  lemma {:induction false} OperandsAppend(a: seq<Token>, b: seq<Token>)
    ensures Operands(a + b) == Operands(a) + Operands(b)
    decreases |b|
  {
    if b == [] {
      assert a + b == a;
    } else {
      assert (a + b)[..|a + b| - 1] == a + b[..|b| - 1];
      OperandsAppend(a, b[..|b| - 1]);
    }
  }

  lemma {:induction false} OperandsOfPending(m: seq<Token>)
    requires forall k :: 0 <= k < |m| ==> Pending(m[k])
    ensures Operands(m) == []
    decreases |m|
  {
    if m != [] {
      OperandsOfPending(m[..|m| - 1]);
    }
  }

  lemma MovedOperands(a: seq<Token>, b: seq<Token>)
    requires Moved(a, b)
    ensures Operands(b) == Operands(a)
    ensures NoRParen(a) ==> NoRParen(b)
  {
    assert b == a + b[|a|..];
    OperandsAppend(a, b[|a|..]);
    OperandsOfPending(b[|a|..]);
  }

  /** What one step of the loop does to the operands, to the operator counts and to the stack. */
  lemma StepFacts(st: Shunt, t: Token, o: Token)
    requires StackPending(st) && IsOperator(o)
    ensures StackPending(Step(st, t))
    ensures Operands(Step(st, t).output) == Operands(st.output) + (if t.Word? then [LowerStr(t.text)] else [])
    ensures Held(Step(st, t), o) == Held(st, o) + (if t == o then 1 else 0)
    ensures NoRParen(st.output) ==> NoRParen(Step(st, t).output)
  {
    if t.RParen? {
      CloseStepFacts(st, o);
    } else if t.Word? {
      WordStepFacts(st, t.text);
    } else if IsOperator(t) {
      OperatorStepFacts(st, t, o);
    }
  }

  lemma CloseStepFacts(st: Shunt, o: Token)
    requires StackPending(st) && IsOperator(o)
    ensures StackPending(Step(st, RParen))
    ensures Operands(Step(st, RParen).output) == Operands(st.output)
    ensures Held(Step(st, RParen), o) == Held(st, o)
    ensures NoRParen(st.output) ==> NoRParen(Step(st, RParen).output)
  {
    CloseParenFacts(st, o);
    MovedOperands(st.output, CloseParen(st).output);
  }

  lemma WordStepFacts(st: Shunt, w: string)
    ensures Operands(Step(st, Word(w)).output) == Operands(st.output) + [LowerStr(w)]
    ensures NoRParen(st.output) ==> NoRParen(Step(st, Word(w)).output)
  {
    OperandsAppend(st.output, [Word(LowerStr(w))]);
    assert Operands([Word(LowerStr(w))]) == [LowerStr(w)];
  }

  lemma OperatorStepFacts(st: Shunt, t: Token, o: Token)
    requires StackPending(st) && IsOperator(t) && IsOperator(o)
    ensures StackPending(Step(st, t))
    ensures Operands(Step(st, t).output) == Operands(st.output)
    ensures Held(Step(st, t), o) == Held(st, o) + (if t == o then 1 else 0)
    ensures NoRParen(st.output) ==> NoRParen(Step(st, t).output)
  {
    var s := PopAtLeast(st, Precedence(t));
    PopAtLeastFacts(st, Precedence(t), o);
    MovedOperands(st.output, s.output);
    assert Step(st, t) == Shunt(s.output, s.stack + [t]);
    assert multiset(s.stack + [t]) == multiset(s.stack) + multiset{t};
  }

  lemma {:induction false} RunFacts(ts: seq<Token>, o: Token)
    requires IsOperator(o)
    ensures StackPending(RunFrom(Shunt([], []), ts))
    ensures NoRParen(RunFrom(Shunt([], []), ts).output)
    ensures Operands(RunFrom(Shunt([], []), ts).output) == LowerAll(Operands(ts))
    ensures Held(RunFrom(Shunt([], []), ts), o) == multiset(ts)[o]
    decreases |ts|
  {
    if ts != [] {
      var init, t := ts[..|ts| - 1], ts[|ts| - 1];
      var st := RunFrom(Shunt([], []), init);
      var extra := if t.Word? then [t.text] else [];
      assert RunFrom(Shunt([], []), ts) == Step(st, t);
      assert Operands(ts) == Operands(init) + extra;
      assert multiset(ts)[o] == multiset(init)[o] + (if t == o then 1 else 0) by {
        assert ts == init + [t];
      }
      RunFacts(init, o);
      StepFacts(st, t, o);
      assert LowerAll(Operands(ts)) == LowerAll(Operands(init)) + LowerAll(extra) by {
        LowerAllAppend(Operands(init), extra);
      }
      assert LowerAll(extra) == if t.Word? then [LowerStr(t.text)] else [];
    }
  }

  lemma FlushFacts(st: Shunt)
    requires StackPending(st)
    ensures Moved(st.output, Flush(st))
  {
    var f := Flush(st);
    assert f[..|st.output|] == st.output;
    forall k | |st.output| <= k < |f| ensures Pending(f[k]) {
      assert f[k] == st.stack[|st.stack| - 1 - (k - |st.output|)];
    }
  }

  /** `to_rpn` never emits `)`. */
  lemma RpnDropsRParen(ts: seq<Token>)
    ensures forall k :: 0 <= k < |Rpn(ts)| ==> Rpn(ts)[k] != RParen
  {
    RunFacts(ts, And);
    FlushFacts(RunFrom(Shunt([], []), ts));
    MovedOperands(RunFrom(Shunt([], []), ts).output, Rpn(ts));
  }

  /** `to_rpn` emits the operands in their input order, lower-cased. */
  lemma RpnKeepsOperands(ts: seq<Token>)
    ensures Operands(Rpn(ts)) == LowerAll(Operands(ts))
  {
    RunFacts(ts, And);
    FlushFacts(RunFrom(Shunt([], []), ts));
    MovedOperands(RunFrom(Shunt([], []), ts).output, Rpn(ts));
  }

  /** `to_rpn` emits every operator of its input exactly once. */
  lemma RpnKeepsOperators(ts: seq<Token>, o: Token)
    requires IsOperator(o)
    ensures multiset(Rpn(ts))[o] == multiset(ts)[o]
  {
    RunFacts(ts, o);
  }

  // ---------------------------------------------------------------------
  // How to_rpn orders what it emits

  lemma {:induction false} RunFromAppend(st: Shunt, a: seq<Token>, b: seq<Token>)
    ensures RunFrom(st, a + b) == RunFrom(RunFrom(st, a), b)
    decreases |b|
  {
    if b == [] {
      assert a + b == a;
    } else {
      assert (a + b)[..|a + b| - 1] == a + b[..|b| - 1];
      RunFromAppend(st, a, b[..|b| - 1]);
    }
  }

  lemma RunOne(st: Shunt, t: Token)
    ensures RunFrom(st, [t]) == Step(st, t)
  {
    assert [t][..0] == [];
  }

  /** A fully bracketed query: every operator application is wrapped in parentheses. */
  datatype Query = Term(w: string) | Neg(q: Query) | Conj(l: Query, r: Query) | Disj(l: Query, r: Query)

  function Bracketed(q: Query): seq<Token> {
    match q
    case Term(w) => [Word(w)]
    case Neg(x) => [LParen, Not] + Bracketed(x) + [RParen]
    case Conj(x, y) => [LParen] + Bracketed(x) + [And] + Bracketed(y) + [RParen]
    case Disj(x, y) => [LParen] + Bracketed(x) + [Or] + Bracketed(y) + [RParen]
  }

  /** The postfix form of a query, operands lower-cased. */
  function Post(q: Query): seq<Token> {
    match q
    case Term(w) => [Word(LowerStr(w))]
    case Neg(x) => Post(x) + [Not]
    case Conj(x, y) => Post(x) + Post(y) + [And]
    case Disj(x, y) => Post(x) + Post(y) + [Or]
  }

  /** A bracketed query passes through the loop leaving the stack as it found it. */
  lemma {:induction false} RunBracketed(st: Shunt, q: Query)
    ensures RunFrom(st, Bracketed(q)) == Shunt(st.output + Post(q), st.stack)
    decreases q
  {
    match q
    case Term(w) =>
      RunOne(st, Word(w));
    case Neg(x) =>
      RunBracketed(Shunt(st.output, st.stack + [LParen, Not]), x);
      RunNeg(st, Bracketed(x), Post(x));
    case Conj(x, y) =>
      RunBracketed(Shunt(st.output, st.stack + [LParen]), x);
      RunBracketed(Shunt(st.output + Post(x), st.stack + [LParen, And]), y);
      RunBinary(st, Bracketed(x), Post(x), And, Bracketed(y), Post(y));
    case Disj(x, y) =>
      RunBracketed(Shunt(st.output, st.stack + [LParen]), x);
      RunBracketed(Shunt(st.output + Post(x), st.stack + [LParen, Or]), y);
      RunBinary(st, Bracketed(x), Post(x), Or, Bracketed(y), Post(y));
  }

  lemma Chain3(st: Shunt, a: seq<Token>, b: seq<Token>, c: seq<Token>, s1: Shunt, s2: Shunt, s3: Shunt)
    requires RunFrom(st, a) == s1 && RunFrom(s1, b) == s2 && RunFrom(s2, c) == s3
    ensures RunFrom(st, a + b + c) == s3
  {
    RunFromAppend(st, a, b);
    RunFromAppend(st, a + b, c);
  }

  lemma Assoc(a: seq<Token>, b: seq<Token>, c: seq<Token>, d: seq<Token>)
    ensures a + b + c == a + (b + c)
    ensures a + b + c + d == a + (b + c + d)
  {
  }

  lemma RunOpen(st: Shunt)
    ensures RunFrom(st, [LParen]) == Shunt(st.output, st.stack + [LParen])
  {
    RunOne(st, LParen);
  }

  /** An operator pushed right above a `(` pops nothing. */
  lemma RunPushOver(out: seq<Token>, stk: seq<Token>, o: Token)
    requires IsOperator(o)
    ensures RunFrom(Shunt(out, stk + [LParen]), [o]) == Shunt(out, stk + [LParen, o])
  {
    RunOne(Shunt(out, stk + [LParen]), o);
    assert PopAtLeast(Shunt(out, stk + [LParen]), Precedence(o)) == Shunt(out, stk + [LParen]);
    assert stk + [LParen] + [o] == stk + [LParen, o];
  }

  /** `)` after an operator sitting on a `(` emits the operator and drops the `(`. */
  lemma CloseOver(out: seq<Token>, stk: seq<Token>, o: Token)
    requires o != LParen
    ensures RunFrom(Shunt(out, stk + [LParen, o]), [RParen]) == Shunt(out + [o], stk)
  {
    var s := Shunt(out, stk + [LParen, o]);
    RunOne(s, RParen);
    assert s.stack[..|s.stack| - 1] == stk + [LParen];
    assert (stk + [LParen])[..|stk|] == stk;
    assert CloseParen(s) == CloseParen(Shunt(out + [o], stk + [LParen]));
  }

  lemma RunOpenNot(st: Shunt)
    ensures RunFrom(st, [LParen, Not]) == Shunt(st.output, st.stack + [LParen, Not])
  {
    RunOpen(st);
    RunPushOver(st.output, st.stack, Not);
    assert [LParen] + [Not] == [LParen, Not];
    RunFromAppend(st, [LParen], [Not]);
  }

  lemma RunNegSteps(st: Shunt, bx: seq<Token>, px: seq<Token>)
    requires RunFrom(Shunt(st.output, st.stack + [LParen, Not]), bx) == Shunt(st.output + px, st.stack + [LParen, Not])
    ensures RunFrom(st, [LParen, Not] + bx + [RParen]) == Shunt(st.output + px + [Not], st.stack)
  {
    RunOpenNot(st);
    CloseOver(st.output + px, st.stack, Not);
    Chain3(st, [LParen, Not], bx, [RParen], Shunt(st.output, st.stack + [LParen, Not]),
           Shunt(st.output + px, st.stack + [LParen, Not]), Shunt(st.output + px + [Not], st.stack));
  }

  lemma RunNeg(st: Shunt, bx: seq<Token>, px: seq<Token>)
    requires RunFrom(Shunt(st.output, st.stack + [LParen, Not]), bx) == Shunt(st.output + px, st.stack + [LParen, Not])
    ensures RunFrom(st, [LParen, Not] + bx + [RParen]) == Shunt(st.output + (px + [Not]), st.stack)
  {
    RunNegSteps(st, bx, px);
    Assoc(st.output, px, [Not], []);
  }

  lemma RunBinarySteps(st: Shunt, bx: seq<Token>, px: seq<Token>, o: Token, bys: seq<Token>, py: seq<Token>)
    requires IsOperator(o)
    requires RunFrom(Shunt(st.output, st.stack + [LParen]), bx) == Shunt(st.output + px, st.stack + [LParen])
    requires RunFrom(Shunt(st.output + px, st.stack + [LParen, o]), bys) == Shunt(st.output + px + py, st.stack + [LParen, o])
    ensures RunFrom(st, [LParen] + bx + [o] + bys + [RParen]) == Shunt(st.output + px + py + [o], st.stack)
  {
    var s1 := Shunt(st.output, st.stack + [LParen]);
    var s2 := Shunt(st.output + px, st.stack + [LParen]);
    var s3 := Shunt(st.output + px, st.stack + [LParen, o]);
    var s4 := Shunt(st.output + px + py, st.stack + [LParen, o]);
    RunOpen(st);
    RunPushOver(st.output + px, st.stack, o);
    CloseOver(st.output + px + py, st.stack, o);
    Chain3(st, [LParen], bx, [o], s1, s2, s3);
    Chain3(st, [LParen] + bx + [o], bys, [RParen], s3, s4, Shunt(st.output + px + py + [o], st.stack));
  }

  lemma RunBinary(st: Shunt, bx: seq<Token>, px: seq<Token>, o: Token, bys: seq<Token>, py: seq<Token>)
    requires IsOperator(o)
    requires RunFrom(Shunt(st.output, st.stack + [LParen]), bx) == Shunt(st.output + px, st.stack + [LParen])
    requires RunFrom(Shunt(st.output + px, st.stack + [LParen, o]), bys) == Shunt(st.output + px + py, st.stack + [LParen, o])
    ensures RunFrom(st, [LParen] + bx + [o] + bys + [RParen]) == Shunt(st.output + (px + py + [o]), st.stack)
  {
    RunBinarySteps(st, bx, px, o, bys, py);
    Assoc(st.output, px, py, [o]);
  }

  /** A fully bracketed query converts to its postfix form. */
  lemma RpnBracketed(q: Query)
    ensures Rpn(Bracketed(q)) == Post(q)
  {
    RunBracketed(Shunt([], []), q);
  }

  /** One more step after a run whose result is known. */
  lemma RunPush(st: Shunt, ts: seq<Token>, t: Token, mid: Shunt, next: Shunt)
    requires RunFrom(st, ts) == mid && Step(mid, t) == next
    ensures RunFrom(st, ts + [t]) == next
  {
    assert (ts + [t])[..|ts|] == ts;
  }

  lemma StepWord(st: Shunt, w: string)
    ensures Step(st, Word(w)) == Shunt(st.output + [Word(LowerStr(w))], st.stack)
  {
  }

  lemma StepFirstOperator(out: seq<Token>, o: Token)
    requires IsOperator(o)
    ensures Step(Shunt(out, []), o) == Shunt(out, [o])
  {
  }

  /** An operator pops one of no higher precedence. */
  lemma StepPopsOperator(out: seq<Token>, o1: Token, o2: Token)
    requires IsOperator(o1) && IsOperator(o2) && Precedence(o1) >= Precedence(o2)
    ensures Step(Shunt(out, [o1]), o2) == Shunt(out + [o1], [o2])
  {
    assert PopAtLeast(Shunt(out, [o1]), Precedence(o2)) == PopAtLeast(Shunt(out + [o1], []), Precedence(o2));
  }

  /** An operator is pushed above one of lower precedence. */
  lemma StepPushesOperator(out: seq<Token>, o1: Token, o2: Token)
    requires IsOperator(o1) && IsOperator(o2) && Precedence(o1) < Precedence(o2)
    ensures Step(Shunt(out, [o1]), o2) == Shunt(out, [o1, o2])
  {
    assert PopAtLeast(Shunt(out, [o1]), Precedence(o2)) == Shunt(out, [o1]);
  }

  lemma FlushOne(out: seq<Token>, o: Token)
    ensures Flush(Shunt(out, [o])) == out + [o]
  {
    assert Reversed([o]) == [o];
  }

  lemma FlushTwo(out: seq<Token>, o1: Token, o2: Token)
    ensures Flush(Shunt(out, [o1, o2])) == out + [o2, o1]
  {
    assert [o1, o2][..1] == [o1];
    assert Reversed([o1, o2]) == [o2] + Reversed([o1]);
  }

  /** A run of the loop over two, four or five tokens, step by step over abstract states. */
  lemma RunChain2(st: Shunt, t0: Token, t1: Token, s1: Shunt, s2: Shunt)
    requires Step(st, t0) == s1 && Step(s1, t1) == s2
    ensures RunFrom(st, [t0, t1]) == s2
  {
    RunOne(st, t0);
    RunPush(st, [t0], t1, s1, s2);
    assert [t0] + [t1] == [t0, t1];
  }

  lemma RunChain4(st: Shunt, t0: Token, t1: Token, t2: Token, t3: Token, s1: Shunt, s2: Shunt, s3: Shunt, s4: Shunt)
    requires Step(st, t0) == s1 && Step(s1, t1) == s2 && Step(s2, t2) == s3 && Step(s3, t3) == s4
    ensures RunFrom(st, [t0, t1, t2, t3]) == s4
  {
    RunChain2(st, t0, t1, s1, s2);
    RunPush(st, [t0, t1], t2, s2, s3);
    assert [t0, t1] + [t2] == [t0, t1, t2];
    RunPush(st, [t0, t1, t2], t3, s3, s4);
    assert [t0, t1, t2] + [t3] == [t0, t1, t2, t3];
  }

  lemma RunChain5(st: Shunt, t0: Token, t1: Token, t2: Token, t3: Token, t4: Token,
                  s1: Shunt, s2: Shunt, s3: Shunt, s4: Shunt, s5: Shunt)
    requires Step(st, t0) == s1 && Step(s1, t1) == s2 && Step(s2, t2) == s3 && Step(s3, t3) == s4
    requires Step(s4, t4) == s5
    ensures RunFrom(st, [t0, t1, t2, t3, t4]) == s5
  {
    RunChain4(st, t0, t1, t2, t3, s1, s2, s3, s4);
    RunPush(st, [t0, t1, t2, t3], t4, s4, s5);
    assert [t0, t1, t2, t3] + [t4] == [t0, t1, t2, t3, t4];
  }

  /** Of two binary operators the left one is applied first unless the right one binds tighter (`>=`). */
  lemma RpnLeftFirst(a: string, o1: Token, b: string, o2: Token, c: string)
    requires o1 == And || o1 == Or
    requires o2 == And || o2 == Or
    requires Precedence(o1) >= Precedence(o2)
    ensures Rpn([Word(a), o1, Word(b), o2, Word(c)])
         == [Word(LowerStr(a)), Word(LowerStr(b)), o1, Word(LowerStr(c)), o2]
  {
    var wa, wb, wc := Word(LowerStr(a)), Word(LowerStr(b)), Word(LowerStr(c));
    var s1, s2, s3 := Shunt([wa], []), Shunt([wa], [o1]), Shunt([wa, wb], [o1]);
    var s4, s5 := Shunt([wa, wb, o1], [o2]), Shunt([wa, wb, o1, wc], [o2]);
    assert RunFrom(Shunt([], []), [Word(a), o1, Word(b), o2, Word(c)]) == s5 by {
      assert Step(Shunt([], []), Word(a)) == s1 by { StepWord(Shunt([], []), a); }
      assert Step(s1, o1) == s2 by { StepFirstOperator([wa], o1); }
      assert Step(s2, Word(b)) == s3 by { StepWord(s2, b); }
      assert Step(s3, o2) == s4 by { StepPopsOperator([wa, wb], o1, o2); }
      assert Step(s4, Word(c)) == s5 by { StepWord(s4, c); }
      RunChain5(Shunt([], []), Word(a), o1, Word(b), o2, Word(c), s1, s2, s3, s4, s5);
    }
    FlushOne([wa, wb, o1, wc], o2);
  }

  /** `&&` binds tighter than `||`. */
  lemma RpnAndFirst(a: string, b: string, c: string)
    ensures Rpn([Word(a), Or, Word(b), And, Word(c)])
         == [Word(LowerStr(a)), Word(LowerStr(b)), Word(LowerStr(c)), And, Or]
  {
    var wa, wb, wc := Word(LowerStr(a)), Word(LowerStr(b)), Word(LowerStr(c));
    var s1, s2, s3 := Shunt([wa], []), Shunt([wa], [Or]), Shunt([wa, wb], [Or]);
    var s4, s5 := Shunt([wa, wb], [Or, And]), Shunt([wa, wb, wc], [Or, And]);
    assert RunFrom(Shunt([], []), [Word(a), Or, Word(b), And, Word(c)]) == s5 by {
      assert Step(Shunt([], []), Word(a)) == s1 by { StepWord(Shunt([], []), a); }
      assert Step(s1, Or) == s2 by { StepFirstOperator([wa], Or); }
      assert Step(s2, Word(b)) == s3 by { StepWord(s2, b); }
      assert Step(s3, And) == s4 by { StepPushesOperator([wa, wb], Or, And); }
      assert Step(s4, Word(c)) == s5 by { StepWord(s4, c); }
      RunChain5(Shunt([], []), Word(a), Or, Word(b), And, Word(c), s1, s2, s3, s4, s5);
    }
    FlushTwo([wa, wb, wc], Or, And);
  }

  /** The `(` that `ts` leaves open: each `)` closes the nearest open one, and a `)` with none open closes nothing. */
  function Unclosed(ts: seq<Token>): nat
    decreases |ts|
  {
    if ts == [] then 0
    else
      var d := Unclosed(ts[..|ts| - 1]);
      match ts[|ts| - 1]
      case LParen => d + 1
      case RParen => if d > 0 then d - 1 else 0
      case _ => d
  }

  /** The number of `(` in a token list. */
  function Opens(s: seq<Token>): nat {
    multiset(s)[LParen]
  }

  lemma OpensSnoc(s: seq<Token>, t: Token)
    ensures Opens(s + [t]) == Opens(s) + (if t == LParen then 1 else 0)
  {
    assert multiset(s + [t]) == multiset(s) + multiset{t};
  }

  lemma {:induction false} CloseParenOpens(st: Shunt)
    ensures Opens(CloseParen(st).output) == Opens(st.output)
    ensures Opens(CloseParen(st).stack) == if Opens(st.stack) > 0 then Opens(st.stack) - 1 else 0
    decreases |st.stack|
  {
    if st.stack != [] {
      var top, below := st.stack[|st.stack| - 1], st.stack[..|st.stack| - 1];
      assert st.stack == below + [top];
      OpensSnoc(below, top);
      if top != LParen {
        OpensSnoc(st.output, top);
        CloseParenOpens(Shunt(st.output + [top], below));
      }
    }
  }

  lemma {:induction false} PopAtLeastOpens(st: Shunt, p: nat)
    ensures Opens(PopAtLeast(st, p).output) == Opens(st.output)
    ensures Opens(PopAtLeast(st, p).stack) == Opens(st.stack)
    decreases |st.stack|
  {
    if st.stack != [] {
      var top, below := st.stack[|st.stack| - 1], st.stack[..|st.stack| - 1];
      assert st.stack == below + [top];
      if top != LParen && Precedence(top) >= p {
        OpensSnoc(below, top);
        OpensSnoc(st.output, top);
        PopAtLeastOpens(Shunt(st.output + [top], below), p);
      }
    }
  }

  lemma StepOpens(st: Shunt, t: Token)
    ensures Opens(Step(st, t).output) == Opens(st.output)
    ensures Opens(Step(st, t).stack) == match t
      case LParen => Opens(st.stack) + 1
      case RParen => if Opens(st.stack) > 0 then Opens(st.stack) - 1 else 0
      case _ => Opens(st.stack)
  {
    match t
    case LParen => OpensSnoc(st.stack, LParen);
    case RParen => CloseParenOpens(st);
    case Word(w) => OpensSnoc(st.output, Word(LowerStr(w)));
    case _ =>
      var s := PopAtLeast(st, Precedence(t));
      PopAtLeastOpens(st, Precedence(t));
      OpensSnoc(s.stack, t);
  }

  /** The loop never emits `(`, and the stack ends holding one `(` per open parenthesis. */
  lemma {:induction false} RunOpens(ts: seq<Token>)
    ensures Opens(RunFrom(Shunt([], []), ts).output) == 0
    ensures Opens(RunFrom(Shunt([], []), ts).stack) == Unclosed(ts)
    decreases |ts|
  {
    if ts != [] {
      RunOpens(ts[..|ts| - 1]);
      StepOpens(RunFrom(Shunt([], []), ts[..|ts| - 1]), ts[|ts| - 1]);
    }
  }

  /**
   * An unmatched `(` is not rejected: every `(` the query leaves open is
   * flushed into the output at the end, and no other `(` reaches it.
   */
  lemma RpnUnmatchedOpen(ts: seq<Token>)
    ensures multiset(Rpn(ts))[LParen] == Unclosed(ts)
  {
    var st := RunFrom(Shunt([], []), ts);
    RunOpens(ts);
    assert multiset(Rpn(ts)) == multiset(st.output) + multiset(Reversed(st.stack));
  }

  /** The smallest case: `( a` becomes `a (`. */
  lemma RpnOpenWord(a: string)
    ensures Rpn([LParen, Word(a)]) == [Word(LowerStr(a)), LParen]
  {
    var wa := Word(LowerStr(a));
    StepWord(Shunt([], [LParen]), a);
    RunChain2(Shunt([], []), LParen, Word(a), Shunt([], [LParen]), Shunt([wa], [LParen]));
    FlushOne([wa], LParen);
  }

  /** An unmatched `)` is dropped. */
  lemma RpnUnmatchedClose(a: string)
    ensures Rpn([Word(a), RParen]) == [Word(LowerStr(a))]
  {
    var wa := Word(LowerStr(a));
    StepWord(Shunt([], []), a);
    assert CloseParen(Shunt([wa], [])) == Shunt([wa], []);
    RunChain2(Shunt([], []), Word(a), RParen, Shunt([wa], []), Shunt([wa], []));
  }

  /** `!` of equal precedence pops too, so a second `!` emits the first one before any operand. */
  lemma RpnDoubleNot(ts: seq<Token>)
    ensures |Rpn([Not, Not] + ts)| > 0 && Rpn([Not, Not] + ts)[0] == Not
  {
    var init := Shunt([], []);
    StepPopsOperator([], Not, Not);
    RunChain2(init, Not, Not, Shunt([], [Not]), Shunt([Not], [Not]));
    RunFromAppend(init, [Not, Not], ts);
    RunKeepsOutput(Shunt([Not], [Not]), ts);
  }

  /** The loop only ever appends to the output. */
  lemma {:induction false} RunKeepsOutput(st: Shunt, ts: seq<Token>)
    ensures |RunFrom(st, ts).output| >= |st.output|
    ensures RunFrom(st, ts).output[..|st.output|] == st.output
    decreases |ts|
  {
    if ts != [] {
      var mid := RunFrom(st, ts[..|ts| - 1]);
      RunKeepsOutput(st, ts[..|ts| - 1]);
      StepKeepsOutput(mid, ts[|ts| - 1]);
      assert Step(mid, ts[|ts| - 1]).output[..|st.output|] == Step(mid, ts[|ts| - 1]).output[..|mid.output|][..|st.output|];
    }
  }

  lemma StepKeepsOutput(st: Shunt, t: Token)
    ensures |Step(st, t).output| >= |st.output| && Step(st, t).output[..|st.output|] == st.output
  {
    if t.RParen? {
      CloseParenKeepsOutput(st);
    } else if IsOperator(t) {
      PopAtLeastKeepsOutput(st, Precedence(t));
    }
  }

  lemma {:induction false} CloseParenKeepsOutput(st: Shunt)
    ensures |CloseParen(st).output| >= |st.output| && CloseParen(st).output[..|st.output|] == st.output
    decreases |st.stack|
  {
    if st.stack != [] && st.stack[|st.stack| - 1] != LParen {
      var next := Shunt(st.output + [st.stack[|st.stack| - 1]], st.stack[..|st.stack| - 1]);
      CloseParenKeepsOutput(next);
      assert CloseParen(st).output[..|st.output|] == CloseParen(st).output[..|next.output|][..|st.output|];
    }
  }

  lemma {:induction false} PopAtLeastKeepsOutput(st: Shunt, p: nat)
    ensures |PopAtLeast(st, p).output| >= |st.output| && PopAtLeast(st, p).output[..|st.output|] == st.output
    decreases |st.stack|
  {
    if st.stack != [] && st.stack[|st.stack| - 1] != LParen && Precedence(st.stack[|st.stack| - 1]) >= p {
      var next := Shunt(st.output + [st.stack[|st.stack| - 1]], st.stack[..|st.stack| - 1]);
      PopAtLeastKeepsOutput(next, p);
      assert PopAtLeast(st, p).output[..|st.output|] == PopAtLeast(st, p).output[..|next.output|][..|st.output|];
    }
  }

  // ---------------------------------------------------------------------
  // evaluate_rpn

  /** The inverted index: a lemma and its list of document ids. */
  type Index = map<string, seq<int>>

  /** `set(inverted_index.get(token, []))`: an unknown term stands for no documents. */
  function Postings(index: Index, term: string): set<int> {
    if term in index then set x | x in index[term] else {}
  }

  /** Every document id the index mentions. */
  ghost function Posted(index: Index): set<int> {
    set k, x | k in index && x in index[k] :: x
  }

  /**
   * One iteration of the evaluation loop. `None` is the IndexError of
   * popping an empty stack; every token that is not an operator, a
   * stray `(` included, is looked up as a term.
   */
  function Apply(stack: seq<set<int>>, t: Token, index: Index, universe: set<int>): Option<seq<set<int>>> {
    var n := |stack|;
    match t
    case And => if n < 2 then None else Some(stack[..n - 2] + [stack[n - 2] * stack[n - 1]])
    case Or => if n < 2 then None else Some(stack[..n - 2] + [stack[n - 2] + stack[n - 1]])
    case Not => if n < 1 then None else Some(stack[..n - 1] + [universe - stack[n - 1]])
    case _ => Some(stack + [Postings(index, Spelling(t))])
  }

  /** The stack after the loop has consumed `ts`, or `None` once a pop has failed. */
  function EvalFrom(stack: seq<set<int>>, ts: seq<Token>, index: Index, universe: set<int>): Option<seq<set<int>>>
    decreases |ts|
  {
    if ts == [] then Some(stack)
    else match EvalFrom(stack, ts[..|ts| - 1], index, universe)
      case None => None
      case Some(s) => Apply(s, ts[|ts| - 1], index, universe)
  }

  /** `evaluate_rpn` before sorting: `None` when it raises, otherwise the top set, or none for an empty stack. */
  function Denote(rpn: seq<Token>, index: Index, universe: set<int>): Option<set<int>> {
    match EvalFrom([], rpn, index, universe)
    case None => None
    case Some(s) => Some(if s == [] then {} else s[|s| - 1])
  }

  /** Continue an evaluation that has not failed. */
  function Resume(r: Option<seq<set<int>>>, ts: seq<Token>, index: Index, universe: set<int>): Option<seq<set<int>>> {
    match r
    case None => None
    case Some(s) => EvalFrom(s, ts, index, universe)
  }

  lemma {:induction false} EvalAppend(stack: seq<set<int>>, a: seq<Token>, b: seq<Token>, index: Index, universe: set<int>)
    ensures EvalFrom(stack, a + b, index, universe) == Resume(EvalFrom(stack, a, index, universe), b, index, universe)
    decreases |b|
  {
    if b == [] {
      assert a + b == a;
    } else {
      assert (a + b)[..|a + b| - 1] == a + b[..|b| - 1];
      EvalAppend(stack, a, b[..|b| - 1], index, universe);
    }
  }

  /** `evaluate_rpn`: a stack of sets, then the sorted top set. */
  method EvaluateRpn(rpn: seq<Token>, index: Index, universe: set<int>) returns (r: Option<seq<int>>)
    ensures r.None? <==> Denote(rpn, index, universe).None?
    ensures r.Some? ==> r.value == SortedSet(Denote(rpn, index, universe).value)
  {
    var stack: seq<set<int>> := [];
    for i := 0 to |rpn|
      invariant EvalFrom([], rpn[..i], index, universe) == Some(stack)
    {
      var token := rpn[i];
      assert rpn[..i + 1][..i] == rpn[..i];
      var n := |stack|;
      if token == And || token == Or {
        if n < 2 {
          FaultStays(rpn, i, index, universe);
          return None;
        }
        var b, a := stack[n - 1], stack[n - 2];
        stack := stack[..n - 2] + [if token == And then a * b else a + b];
      } else if token == Not {
        if n < 1 {
          FaultStays(rpn, i, index, universe);
          return None;
        }
        var a := stack[n - 1];
        stack := stack[..n - 1] + [universe - a];
      } else {
        stack := stack + [Postings(index, Spelling(token))];
      }
    }
    assert rpn[..|rpn|] == rpn;
    if stack == [] {
      r := Some([]);
    } else {
      r := Some(SortedSet(stack[|stack| - 1]));
    }
  }

  /** Once a pop has failed, the rest of the tokens cannot recover. */
  lemma FaultStays(rpn: seq<Token>, i: nat, index: Index, universe: set<int>)
    requires i < |rpn| && EvalFrom([], rpn[..i + 1], index, universe) == None
    ensures Denote(rpn, index, universe) == None
  {
    EvalAppend([], rpn[..i + 1], rpn[i + 1..], index, universe);
    assert rpn[..i + 1] + rpn[i + 1..] == rpn;
  }

  // ---------------------------------------------------------------------
  // evaluate_query

  /** What `evaluate_query` returns: nothing for a blank query or one whose evaluation raises. */
  function QueryResult(query: string, index: Index, universe: set<int>): seq<int> {
    if IsBlank(query) then []
    else match Denote(Rpn(TokenizeQuery(query)), index, universe)
      case None => []
      case Some(d) => SortedSet(d)
  }

  /** `evaluate_query`: strip test, tokenize, convert, evaluate; an exception yields []. */
  method EvaluateQuery(query: string, index: Index, universe: set<int>) returns (r: seq<int>)
    ensures r == QueryResult(query, index, universe)
    ensures Increasing(r)
    ensures forall x :: x in r ==> x in universe || x in Posted(index)
    ensures IsBlank(query) ==> r == []
  {
    StripEmptyIffBlank(query);
    if Strip(query) == [] {
      return [];
    }
    var tokens := TokenizeQuery(query);
    var rpn := ToRpn(tokens);
    var result := EvaluateRpn(rpn, index, universe);
    DenoteBounded(rpn, index, universe);
    match result
    case None => r := [];
    case Some(docs) => r := docs;
  }

  // ---------------------------------------------------------------------
  // What evaluate_rpn computes

  /** Every set the evaluation builds lies within the universe and the posted ids. */
  ghost predicate WithinIds(stack: seq<set<int>>, index: Index, universe: set<int>) {
    forall k :: 0 <= k < |stack| ==> stack[k] <= universe + Posted(index)
  }

  lemma PostingsPosted(index: Index, term: string)
    ensures Postings(index, term) <= Posted(index)
  {
    if term in index {
      forall x | x in index[term] ensures x in Posted(index) {
      }
    }
  }

  lemma ApplyWithin(stack: seq<set<int>>, t: Token, index: Index, universe: set<int>)
    requires WithinIds(stack, index, universe)
    ensures Apply(stack, t, index, universe).Some? ==> WithinIds(Apply(stack, t, index, universe).value, index, universe)
  {
    PostingsPosted(index, Spelling(t));
  }

  lemma {:induction false} EvalWithin(ts: seq<Token>, index: Index, universe: set<int>)
    ensures EvalFrom([], ts, index, universe).Some? ==> WithinIds(EvalFrom([], ts, index, universe).value, index, universe)
    decreases |ts|
  {
    if ts != [] {
      EvalWithin(ts[..|ts| - 1], index, universe);
      var r := EvalFrom([], ts[..|ts| - 1], index, universe);
      if r.Some? {
        ApplyWithin(r.value, ts[|ts| - 1], index, universe);
      }
    }
  }

  /** The result only ever holds ids from the universe or from the postings. */
  lemma DenoteBounded(rpn: seq<Token>, index: Index, universe: set<int>)
    ensures Denote(rpn, index, universe).Some? ==> Denote(rpn, index, universe).value <= universe + Posted(index)
  {
    EvalWithin(rpn, index, universe);
  }

  /** A query whose last operator is `!` yields a subset of the universe. */
  lemma DenoteNotWithinUniverse(rpn: seq<Token>, index: Index, universe: set<int>)
    requires rpn != [] && rpn[|rpn| - 1] == Not
    ensures Denote(rpn, index, universe).Some? ==> Denote(rpn, index, universe).value <= universe
  {
  }

  /** With nothing on the stack the result is empty. */
  lemma DenoteEmpty(index: Index, universe: set<int>)
    ensures Denote([], index, universe) == Some({})
  {
  }

  /** Only the top set is the result: operands left over below it are ignored. */
  lemma DenoteTopOnly(rpn: seq<Token>, w: string, index: Index, universe: set<int>)
    requires EvalFrom([], rpn, index, universe).Some?
    ensures Denote(rpn + [Word(w)], index, universe) == Some(Postings(index, w))
  {
    assert (rpn + [Word(w)])[..|rpn|] == rpn;
  }

  /** An operator with too few operands raises, whatever follows. */
  lemma DenoteFaults(o: Token, ts: seq<Token>, index: Index, universe: set<int>)
    requires IsOperator(o)
    ensures Denote([o] + ts, index, universe) == None
  {
    assert [o][..0] == [];
    assert EvalFrom([], [o], index, universe) == None;
    EvalAppend([], [o], ts, index, universe);
  }

  /** `NOT NOT x` without parentheses raises (and so yields []), whatever `x` is. */
  lemma DoubleNotFaults(ts: seq<Token>, index: Index, universe: set<int>)
    ensures Denote(Rpn([Not, Not] + ts), index, universe) == None
  {
    RpnDoubleNot(ts);
    var r := Rpn([Not, Not] + ts);
    assert r == [Not] + r[1..];
    DenoteFaults(Not, r[1..], index, universe);
  }

  /** The token list with every `(` replaced by the word `(`. */
  function ParensAsWords(s: seq<Token>): (r: seq<Token>)
    ensures |r| == |s|
  {
    seq(|s|, k requires 0 <= k < |s| => if s[k] == LParen then Word("(") else s[k])
  }

  /** The evaluator reads each `(` that reaches it as the word `(`, looked up in the index like any term. */
  lemma {:induction false} UnmatchedOpenIsTerm(stack: seq<set<int>>, rpn: seq<Token>, index: Index, universe: set<int>)
    ensures EvalFrom(stack, rpn, index, universe) == EvalFrom(stack, ParensAsWords(rpn), index, universe)
    decreases |rpn|
  {
    if rpn != [] {
      var n := |rpn| - 1;
      var w := ParensAsWords(rpn);
      assert w[..n] == ParensAsWords(rpn[..n]);
      UnmatchedOpenIsTerm(stack, rpn[..n], index, universe);
      match EvalFrom(stack, rpn[..n], index, universe)
      case None =>
      case Some(s) =>
        assert Apply(s, rpn[n], index, universe) == Apply(s, w[n], index, universe);
    }
  }

  /** So `( a` is answered with the documents posted under the term `(`. */
  lemma OpenWordIsTerm(a: string, index: Index, universe: set<int>)
    ensures Denote(Rpn([LParen, Word(a)]), index, universe) == Some(Postings(index, "("))
  {
    RpnOpenWord(a);
    var la := LowerStr(a);
    assert [Word(la), LParen][..1] == [Word(la)];
    assert [Word(la)][..0] == [];
    var p, q := Postings(index, la), Postings(index, "(");
    assert [] + [p] == [p] && [p] + [q] == [p, q];
    assert EvalFrom([], [Word(la)], index, universe) == Some([p]);
    assert EvalFrom([], [Word(la), LParen], index, universe) == Some([p, q]);
  }

  // ---------------------------------------------------------------------
  // Meaning of a bracketed query

  /** `&&` is intersection, `||` union and `!` complement within the universe. */
  function Meaning(q: Query, index: Index, universe: set<int>): set<int> {
    match q
    case Term(w) => Postings(index, LowerStr(w))
    case Neg(x) => universe - Meaning(x, index, universe)
    case Conj(x, y) => Meaning(x, index, universe) * Meaning(y, index, universe)
    case Disj(x, y) => Meaning(x, index, universe) + Meaning(y, index, universe)
  }

  lemma EvalOne(stack: seq<set<int>>, t: Token, index: Index, universe: set<int>)
    ensures EvalFrom(stack, [t], index, universe) == Apply(stack, t, index, universe)
  {
    assert [t][..0] == [];
  }

  lemma EvalNegSteps(stack: seq<set<int>>, px: seq<Token>, m: set<int>, index: Index, universe: set<int>)
    requires EvalFrom(stack, px, index, universe) == Some(stack + [m])
    ensures EvalFrom(stack, px + [Not], index, universe) == Some(stack + [universe - m])
  {
    EvalAppend(stack, px, [Not], index, universe);
    EvalOne(stack + [m], Not, index, universe);
    assert (stack + [m])[..|stack|] == stack;
  }

  lemma EvalBinarySteps(stack: seq<set<int>>, px: seq<Token>, mx: set<int>, py: seq<Token>, my: set<int>,
                        o: Token, index: Index, universe: set<int>)
    requires o == And || o == Or
    requires EvalFrom(stack, px, index, universe) == Some(stack + [mx])
    requires EvalFrom(stack + [mx], py, index, universe) == Some(stack + [mx] + [my])
    ensures EvalFrom(stack, px + py + [o], index, universe) == Some(stack + [if o == And then mx * my else mx + my])
  {
    EvalAppend(stack, px, py, index, universe);
    EvalAppend(stack, px + py, [o], index, universe);
    var s := stack + [mx] + [my];
    EvalOne(s, o, index, universe);
    assert s[..|s| - 2] == stack && s[|s| - 2] == mx && s[|s| - 1] == my;
  }

  /** The postfix form of a query pushes exactly its meaning. */
  lemma {:induction false} EvalPost(stack: seq<set<int>>, q: Query, index: Index, universe: set<int>)
    ensures EvalFrom(stack, Post(q), index, universe) == Some(stack + [Meaning(q, index, universe)])
    decreases q
  {
    match q
    case Term(w) =>
      EvalOne(stack, Word(LowerStr(w)), index, universe);
    case Neg(x) =>
      EvalPost(stack, x, index, universe);
      EvalNegSteps(stack, Post(x), Meaning(x, index, universe), index, universe);
    case Conj(x, y) =>
      var mx := Meaning(x, index, universe);
      EvalPost(stack, x, index, universe);
      EvalPost(stack + [mx], y, index, universe);
      EvalBinarySteps(stack, Post(x), mx, Post(y), Meaning(y, index, universe), And, index, universe);
    case Disj(x, y) =>
      var mx := Meaning(x, index, universe);
      EvalPost(stack, x, index, universe);
      EvalPost(stack + [mx], y, index, universe);
      EvalBinarySteps(stack, Post(x), mx, Post(y), Meaning(y, index, universe), Or, index, universe);
  }

  /** A fully bracketed query is converted and evaluated to exactly its set-algebra meaning. */
  lemma DenoteBracketed(q: Query, index: Index, universe: set<int>)
    ensures Denote(Rpn(Bracketed(q)), index, universe) == Some(Meaning(q, index, universe))
  {
    RpnBracketed(q);
    EvalPost([], q, index, universe);
    assert [] + [Meaning(q, index, universe)] == [Meaning(q, index, universe)];
  }

  /** `(x AND y)` finds no document that `(x OR y)` does not. */
  lemma AndWithinOr(x: Query, y: Query, index: Index, universe: set<int>)
    ensures Denote(Rpn(Bracketed(Conj(x, y))), index, universe).Some?
    ensures Denote(Rpn(Bracketed(Disj(x, y))), index, universe).Some?
    ensures Denote(Rpn(Bracketed(Conj(x, y))), index, universe).value
            <= Denote(Rpn(Bracketed(Disj(x, y))), index, universe).value
  {
    DenoteBracketed(Conj(x, y), index, universe);
    DenoteBracketed(Disj(x, y), index, universe);
    var a, b := Meaning(x, index, universe), Meaning(y, index, universe);
    assert a * b <= a + b;
  }

  /** `(NOT (NOT x))` is `x` cut down to the universe. */
  lemma DoubleNegation(x: Query, index: Index, universe: set<int>)
    ensures Denote(Rpn(Bracketed(Neg(Neg(x)))), index, universe) == Some(Meaning(x, index, universe) * universe)
  {
    DenoteBracketed(Neg(Neg(x)), index, universe);
    var m := Meaning(x, index, universe);
    assert universe - (universe - m) == m * universe;
  }

  /** `(NOT x)` and `x` together make up the universe together with the documents of `x`. */
  lemma NegationCovers(x: Query, index: Index, universe: set<int>)
    ensures Denote(Rpn(Bracketed(Disj(Neg(x), x))), index, universe) == Some(universe + Meaning(x, index, universe))
  {
    var q := Disj(Neg(x), x);
    var m := Meaning(x, index, universe);
    DenoteBracketed(q, index, universe);
    assert Meaning(q, index, universe) == universe + m by {
      assert Meaning(q, index, universe) == (universe - m) + m;
    }
  }

  // ---------------------------------------------------------------------
  // A query written out: `физика AND NOT химия`

  /** A non-empty run of Cyrillic letters. */
  predicate CyrillicWord(w: string) {
    w != [] && forall i :: 0 <= i < |w| ==> IsCyrillic(w[i])
  }

  lemma UpperCyrillic(w: string)
    requires CyrillicWord(w)
    ensures CyrillicWord(UpperStr(w)) && forall i :: 0 <= i < |w| ==> UpperStr(w)[i] !in "ANDOT"
  {
  }

  lemma UpperAppend(x: string, y: string)
    ensures UpperStr(x + y) == UpperStr(x) + UpperStr(y)
  {
  }

  lemma UpperAndNot(a: string, b: string)
    ensures UpperStr(a + " AND NOT " + b) == UpperStr(a) + " AND NOT " + UpperStr(b)
  {
    UpperAppend(a + " AND NOT ", b);
    UpperAppend(a, " AND NOT ");
    var k := " AND NOT ";
    assert UpperStr(k) == k by {
      assert forall i :: 0 <= i < |k| ==> Upper(k[i]) == k[i];
    }
  }

  /** Characters before the first possible start of a match are copied. */
  lemma {:induction false} ReplaceSkip(a: string, b: string, pat: string, rep: string)
    requires pat != [] && pat[0] !in a
    ensures Replace(a + b, pat, rep) == a + Replace(b, pat, rep)
    decreases |a|
  {
    if a == [] {
      assert a + b == b;
    } else {
      var s := a + b;
      if |s| >= |pat| {
        assert s[0] == a[0] != pat[0];
        assert s[1..] == a[1..] + b;
        ReplaceSkip(a[1..], b, pat, rep);
        assert a == [a[0]] + a[1..];
      } else {
        ReplaceAbsentShort(b, pat, rep);
      }
    }
  }

  lemma ReplaceAbsentShort(b: string, pat: string, rep: string)
    requires pat != [] && |b| < |pat|
    ensures Replace(b, pat, rep) == b
  {
  }

  lemma ReplaceHit(pat: string, rest: string, rep: string)
    requires pat != []
    ensures Replace(pat + rest, pat, rep) == rep + Replace(rest, pat, rep)
  {
    var s := pat + rest;
    assert s[..|pat|] == pat && s[|pat|..] == rest;
  }

  /** One occurrence of the pattern, with none of its first character around it, is replaced. */
  lemma ReplaceOnce(a: string, pat: string, rep: string, b: string)
    requires pat != [] && pat[0] !in a && pat[0] !in b
    ensures Replace(a + pat + b, pat, rep) == a + rep + b
  {
    assert Replace(pat + b, pat, rep) == rep + b by {
      ReplaceHit(pat, b, rep);
      ReplaceAbsent(b, pat, rep);
    }
    assert a + pat + b == a + (pat + b);
    ReplaceSkip(a, pat + b, pat, rep);
    assert a + (rep + b) == a + rep + b;
  }

  /** A pattern whose second character does not occur is never matched. */
  lemma {:induction false} ReplaceWithoutSecond(s: string, pat: string, rep: string)
    requires |pat| >= 2 && pat[1] !in s
    ensures Replace(s, pat, rep) == s
    decreases |s|
  {
    if |s| >= |pat| {
      assert s[..|pat|][1] == s[1] != pat[1];
      assert s[1..] <= s[1..];
      assert forall c :: c in s[1..] ==> c in s;
      ReplaceWithoutSecond(s[1..], pat, rep);
      assert [s[0]] + s[1..] == s;
    }
  }

  /** A Cyrillic word holds none of the letters that make up a connective. */
  lemma NoConnectiveLetters(x: string)
    requires CyrillicWord(x)
    ensures 'A' !in x && 'N' !in x && 'R' !in x
  {
  }

  /**
   * A pass replacing `AND` or `NOT` between two Russian words changes only
   * the one connective it finds there.
   */
  lemma ReplaceConnective(x: string, l: string, pat: string, rep: string, r: string, y: string)
    requires CyrillicWord(x) && CyrillicWord(y)
    requires pat != [] && (pat[0] == 'A' || pat[0] == 'N') && pat[0] !in l && pat[0] !in r
    ensures Replace(x + (l + pat + r) + y, pat, rep) == x + (l + rep + r) + y
  {
    NoConnectiveLetters(x);
    NoConnectiveLetters(y);
    var pre, post := x + l, r + y;
    NotInConcat(pat[0], x, l);
    NotInConcat(pat[0], r, y);
    Regroup(x, l, pat, r, y);
    Regroup(x, l, rep, r, y);
    ReplaceOnce(pre, pat, rep, post);
  }

  lemma NotInConcat(c: char, a: string, b: string)
    requires c !in a && c !in b
    ensures c !in a + b
  {
  }

  lemma Regroup(x: string, l: string, m: string, r: string, y: string)
    ensures x + (l + m + r) + y == (x + l) + m + (r + y)
  {
  }

  /** The three passes turn `A AND NOT B` into `A && ! B`. */
  lemma ReplacePasses(x: string, y: string)
    requires CyrillicWord(x) && CyrillicWord(y)
    ensures Replace(Replace(Replace(x + " AND NOT " + y, "AND", "&&"), "OR", "||"), "NOT", "!") == x + " && ! " + y
  {
    assert " " + "AND" + " NOT " == " AND NOT " && " " + "&&" + " NOT " == " && NOT ";
    ReplaceConnective(x, " ", "AND", "&&", " NOT ", y);
    ReplaceOrPass(x, y);
    assert " && " + "NOT" + " " == " && NOT " && " && " + "!" + " " == " && ! ";
    ReplaceConnective(x, " && ", "NOT", "!", " ", y);
  }

  /** No `OR` occurs: the `O` of NOT is followed by `T`. */
  lemma ReplaceOrPass(x: string, y: string)
    requires CyrillicWord(x) && CyrillicWord(y)
    ensures Replace(x + " && NOT " + y, "OR", "||") == x + " && NOT " + y
  {
    NoConnectiveLetters(x);
    NoConnectiveLetters(y);
    assert 'R' !in x + " && NOT " + y;
    ReplaceWithoutSecond(x + " && NOT " + y, "OR", "||");
  }

  lemma SpellingsAndNot(x: string, y: string)
    ensures Spellings([Word(x), And, Not, Word(y)]) == [x, "&&", "!", y]
  {
    var ts := [Word(x), And, Not, Word(y)];
    assert ts[1..] == [And, Not, Word(y)];
    assert ts[1..][1..] == [Not, Word(y)];
    assert ts[1..][1..][1..] == [Word(y)];
    assert Spellings([Word(y)]) == [y];
    assert Spellings([Not, Word(y)]) == ["!", y];
    assert Spellings([And, Not, Word(y)]) == ["&&", "!", y];
  }

  lemma JoinAndNot(x: string, y: string)
    ensures Join(" ", [x, "&&", "!", y]) == x + " && ! " + y
  {
    var ps := [x, "&&", "!", y];
    assert ps[1..] == ["&&", "!", y] && ps[1..][1..] == ["!", y] && ps[1..][1..][1..] == [y];
    assert Join(" ", ["!", y]) == "! " + y;
    assert Join(" ", ["&&", "!", y]) == "&& " + ("! " + y);
    assert Join(" ", ps) == x + " " + ("&& " + ("! " + y));
  }

  lemma SpelledAndNot(x: string, y: string)
    requires CyrillicWord(x) && CyrillicWord(y)
    ensures Lex(x + " && ! " + y) == [Word(x), And, Not, Word(y)]
  {
    var ts := [Word(x), And, Not, Word(y)];
    SpellingsAndNot(x, y);
    JoinAndNot(x, y);
    assert forall k :: 0 <= k < |ts| ==> WellFormed(ts[k]);
    LexSpelled(ts);
  }

  /** `a AND NOT b` for two Russian words is lexed as the four tokens it reads as. */
  lemma TokenizeAndNot(a: string, b: string)
    requires CyrillicWord(a) && CyrillicWord(b)
    ensures TokenizeQuery(a + " AND NOT " + b) == [Word(UpperStr(a)), And, Not, Word(UpperStr(b))]
  {
    var x, y := UpperStr(a), UpperStr(b);
    UpperCyrillic(a);
    UpperCyrillic(b);
    UpperAndNot(a, b);
    ReplacePasses(x, y);
    SpelledAndNot(x, y);
  }

  /** `a && ! b` converts to the postfix form of `a ∩ (universe − b)`. */
  lemma RpnAndNot(a: string, b: string)
    ensures Rpn([Word(a), And, Not, Word(b)]) == Post(Conj(Term(a), Neg(Term(b))))
  {
    var wa, wb := Word(LowerStr(a)), Word(LowerStr(b));
    var s1, s2, s3, s4 := Shunt([wa], []), Shunt([wa], [And]), Shunt([wa], [And, Not]), Shunt([wa, wb], [And, Not]);
    assert RunFrom(Shunt([], []), [Word(a), And, Not, Word(b)]) == s4 by {
      assert Step(Shunt([], []), Word(a)) == s1 by { StepWord(Shunt([], []), a); }
      assert Step(s1, And) == s2 by { StepFirstOperator([wa], And); }
      assert Step(s2, Not) == s3 by { StepPushesOperator([wa], And, Not); }
      assert Step(s3, Word(b)) == s4 by { StepWord(s3, b); }
      RunChain4(Shunt([], []), Word(a), And, Not, Word(b), s1, s2, s3, s4);
    }
    FlushTwo([wa, wb], And, Not);
    PostAndNot(a, b);
  }

  lemma PostAndNot(a: string, b: string)
    ensures Post(Conj(Term(a), Neg(Term(b)))) == [Word(LowerStr(a)), Word(LowerStr(b)), Not, And]
  {
    var wa, wb := Word(LowerStr(a)), Word(LowerStr(b));
    assert Post(Neg(Term(b))) == [wb] + [Not];
    assert Post(Conj(Term(a), Neg(Term(b)))) == [wa] + ([wb] + [Not]) + [And];
  }

  lemma LowerUpper(w: string)
    requires forall i :: 0 <= i < |w| ==> IsCyrLower(w[i])
    ensures LowerStr(UpperStr(w)) == w
  {
    var r := LowerStr(UpperStr(w));
    forall i | 0 <= i < |w| ensures r[i] == w[i] {
      var c := w[i];
      assert Upper(c) == if c == 'ё' then 'Ё' else (c as int - 32) as char;
    }
  }

  lemma PostingsOf(index: Index, term: string, ids: seq<int>, expected: set<int>)
    requires term in index && index[term] == ids
    requires forall x :: x in ids <==> x in expected
    ensures Postings(index, term) == expected
  {
    forall x ensures x in Postings(index, term) <==> x in expected {
    }
  }

  lemma SortedOneThree()
    ensures SortedSet({1, 3}) == [1, 3]
  {
    IncreasingUnique(SortedSet({1, 3}), [1, 3]);
  }

  /** `evaluate_query` put together from its three stages. */
  lemma QueryStages(q: string, index: Index, universe: set<int>, ts: seq<Token>, p: seq<Token>, d: set<int>)
    requires !IsBlank(q) && TokenizeQuery(q) == ts && Rpn(ts) == p && Denote(p, index, universe) == Some(d)
    ensures QueryResult(q, index, universe) == SortedSet(d)
  {
  }

  /** `a AND NOT b`, for two lower-case Russian words, finds the documents of `a` in the universe without `b`. */
  lemma QueryAndNot(a: string, b: string, index: Index, universe: set<int>)
    requires CyrillicWord(a) && CyrillicWord(b)
    requires forall i :: 0 <= i < |a| ==> IsCyrLower(a[i])
    requires forall i :: 0 <= i < |b| ==> IsCyrLower(b[i])
    ensures QueryResult(a + " AND NOT " + b, index, universe)
         == SortedSet(Postings(index, a) * (universe - Postings(index, b)))
  {
    var q, x, y := a + " AND NOT " + b, UpperStr(a), UpperStr(b);
    var ts, e := [Word(x), And, Not, Word(y)], Conj(Term(x), Neg(Term(y)));
    var d := Postings(index, a) * (universe - Postings(index, b));
    assert !IsBlank(q) by {
      assert q[0] == a[0];
    }
    assert TokenizeQuery(q) == ts by {
      TokenizeAndNot(a, b);
    }
    assert Rpn(ts) == Post(e) by {
      RpnAndNot(x, y);
    }
    assert Denote(Post(e), index, universe) == Some(d) by {
      DenoteBracketedPost(e, index, universe);
      MeaningAndNot(a, b, index, universe);
    }
    QueryStages(q, index, universe, ts, Post(e), d);
  }

  lemma MeaningAndNot(a: string, b: string, index: Index, universe: set<int>)
    requires forall i :: 0 <= i < |a| ==> IsCyrLower(a[i])
    requires forall i :: 0 <= i < |b| ==> IsCyrLower(b[i])
    ensures Meaning(Conj(Term(UpperStr(a)), Neg(Term(UpperStr(b)))), index, universe)
         == Postings(index, a) * (universe - Postings(index, b))
  {
    LowerUpper(a);
    LowerUpper(b);
    assert Meaning(Neg(Term(UpperStr(b))), index, universe) == universe - Postings(index, b);
  }

  /**
   * With postings a: [1, 2, 3] and b: [2] over the documents {1, 2, 3},
   * the query `a AND NOT b` finds [1, 3] (a = физика, b = химия, say).
   */
  lemma PhysicsWithoutChemistry(a: string, b: string, index: Index)
    requires CyrillicWord(a) && CyrillicWord(b) && a != b
    requires forall i :: 0 <= i < |a| ==> IsCyrLower(a[i])
    requires forall i :: 0 <= i < |b| ==> IsCyrLower(b[i])
    requires index == map[a := [1, 2, 3], b := [2]]
    ensures QueryResult(a + " AND NOT " + b, index, {1, 2, 3}) == [1, 3]
  {
    assert Postings(index, a) * ({1, 2, 3} - Postings(index, b)) == {1, 3} by {
      PostingsOf(index, a, [1, 2, 3], {1, 2, 3});
      PostingsOf(index, b, [2], {2});
    }
    QueryAndNot(a, b, index, {1, 2, 3});
    SortedOneThree();
  }

  lemma DenoteBracketedPost(q: Query, index: Index, universe: set<int>)
    ensures Denote(Post(q), index, universe) == Some(Meaning(q, index, universe))
  {
    EvalPost([], q, index, universe);
    assert [] + [Meaning(q, index, universe)] == [Meaning(q, index, universe)];
  }
}
