/** Shell arithmetic against tables written out here: the operator levels of ISO C, the text of
    every operator, the positional value of numerals and the truth tables of the operators. */
module ArithLaws {
  import opened Wrappers
  import opened ArithValue
  import opened ArithGrammar
  import opened ArithLex
  import opened ArithEval

  // ---------------------------------------------------------------- grouping

  /** Sections 6.5.5 to 6.5.14 of ISO C, the tightest operators first. */
  const LEVELS: seq<seq<int>> := [
    [MUL, DIV, REM], [ADD, SUB], [LSHIFT, RSHIFT], [LT, LE, GT, GE], [EQ, NE],
    [BAND], [BXOR], [BOR], [AND], [OR]]

  predicate Tighter(q: int, p: int) {
    exists i, j :: 0 <= i < j < |LEVELS| && q in LEVELS[i] && p in LEVELS[j]
  }

  /** A number or a name, and the tree it is. */
  predicate IsOperand(t: Token) { (t.code == NUM && t.yy.Val?) || (t.code == VAR && t.yy.Name?) }

  function Operand(t: Token): Expr
    requires IsOperand(t)
  {
    if t.code == NUM then Num(t.yy.val) else Var(t.yy.name)
  }

  /** An operator's level is its place among the lists. */
  lemma LevelOf(op: InfixCode, l: Expr, r: Expr, i: nat)
    requires i < |LEVELS|
    ensures op in LEVELS[i] <==> Level(Infix(op, l, r)) == i
  {
    assert LEVELS[0] == [MUL, DIV, REM] && LEVELS[1] == [ADD, SUB] && LEVELS[2] == [LSHIFT, RSHIFT];
    assert LEVELS[3] == [LT, LE, GT, GE] && LEVELS[4] == [EQ, NE] && LEVELS[5] == [BAND] && LEVELS[6] == [BXOR];
    assert LEVELS[7] == [BOR] && LEVELS[8] == [AND] && LEVELS[9] == [OR];
  }

  lemma TighterLevels(q: InfixCode, p: InfixCode, l: Expr, r: Expr)
    ensures Tighter(q, p) <==> Level(Infix(q, l, r)) < Level(Infix(p, l, r))
  {
    hide LEVELS, Level;
    var m, n := Level(Infix(q, l, r)), Level(Infix(p, l, r));
    assert 0 <= m < |LEVELS| && 0 <= n < |LEVELS| by { LevelsListed(q, l, r); LevelsListed(p, l, r); }
    LevelOf(q, l, r, m);
    LevelOf(p, l, r, n);
    if Tighter(q, p) {
      var i, j :| 0 <= i < j < |LEVELS| && q in LEVELS[i] && p in LEVELS[j];
      LevelOf(q, l, r, i);
      LevelOf(p, l, r, j);
    }
  }

  lemma LevelsListed(op: InfixCode, l: Expr, r: Expr)
    ensures 0 <= Level(Infix(op, l, r)) < |LEVELS|
  {
  }

  lemma Parses(e: Expr, ts: seq<Token>)
    requires WellFormed(e) && Yield(e) == ts && Tokens(ts, EOF).Valid()
    ensures ParseAll(Tokens(ts, EOF)) == Done(e, |ts|)
  {
    hide *;
    WrittenParses(e);
  }

  lemma OperandFacts(a: Token)
    requires IsOperand(a)
    ensures WellFormed(Operand(a)) && Level(Operand(a)) == -1 && Yield(Operand(a)) == [a] && InStream(a)
  {
  }

  lemma InfixFacts(op: InfixCode, l: Expr, r: Expr)
    requires WellFormed(l) && WellFormed(r)
    ensures Level(l) == -1 && Level(r) == -1 ==> WellFormed(Infix(op, l, r))
    ensures Level(l) < Level(Infix(op, l, r)) && Level(r) < Level(Infix(op, l, r)) ==> WellFormed(Infix(op, l, r))
    ensures Level(l) == Level(Infix(op, l, r)) && Level(r) == -1 && op !in [AND, OR] ==> WellFormed(Infix(op, l, r))
    ensures Level(r) == Level(Infix(op, l, r)) && Level(l) == -1 && op in [AND, OR] ==> WellFormed(Infix(op, l, r))
    ensures 0 <= Level(Infix(op, l, r)) <= 9 && InStream(Plain(op))
    ensures Yield(Infix(op, l, r)) == Yield(l) + ([Plain(op)] + Yield(r))
  {
  }

  lemma PairFacts(a: Token, p: InfixCode, b: Token)
    requires IsOperand(a) && IsOperand(b)
    ensures var e := Infix(p, Operand(a), Operand(b));
            WellFormed(e) && 0 <= Level(e) <= 9 && Yield(e) == [a, Plain(p), b]
    ensures InStream(a) && InStream(Plain(p)) && InStream(b) && InStream(Plain(QMARK)) && InStream(Plain(COLON))
  {
    hide WellFormed, Yield, Level;
    OperandFacts(a);
    OperandFacts(b);
    InfixFacts(p, Operand(a), Operand(b));
  }

  lemma UnaryFacts(u: UnCode, a: Token)
    requires IsOperand(a)
    ensures var e := Unary(u, Operand(a)); WellFormed(e) && Level(e) == -1 && Yield(e) == [Plain(u), a]
    ensures InStream(Plain(u)) && InStream(a)
  {
    OperandFacts(a);
  }

  lemma ParenFacts(e: Expr)
    requires WellFormed(e)
    ensures WellFormed(Paren(e)) && Level(Paren(e)) == -1
    ensures Yield(Paren(e)) == [Plain(LPAREN)] + (Yield(e) + [Plain(RPAREN)])
    ensures InStream(Plain(LPAREN)) && InStream(Plain(RPAREN))
  {
  }

  lemma AssignFacts(x: string, m: AssCode, e: Expr)
    requires WellFormed(e)
    ensures WellFormed(Assign(x, m, e)) && InStream(Token(VAR, Name(x))) && InStream(Plain(m))
    ensures Yield(Assign(x, m, e)) == [Token(VAR, Name(x))] + ([Plain(m)] + Yield(e))
  {
  }

  lemma CondFacts(c: Expr, t: Expr, f: Expr)
    requires WellFormed(c) && WellFormed(t) && WellFormed(f) && Level(c) <= 9 && Level(f) <= 10
    ensures WellFormed(Cond(c, t, f)) && Level(Cond(c, t, f)) == 10
    ensures Yield(Cond(c, t, f)) == Yield(c) + ([Plain(QMARK)] + (Yield(t) + ([Plain(COLON)] + Yield(f))))
  {
  }

  predicate InStream(t: Token) { Tokens([t], EOF).Valid() }

  lemma AllInStream(ts: seq<Token>)
    requires forall t :: t in ts ==> InStream(t)
    ensures Tokens(ts, EOF).Valid()
  {
    forall k | 0 <= k < |ts|
      ensures InStream(ts[k]) && [ts[k]][0] == ts[k]
    {
      assert ts[k] in ts;
    }
  }

  lemma LevelsAlike(op: InfixCode, l: Expr, r: Expr, l': Expr, r': Expr)
    ensures Level(Infix(op, l, r)) == Level(Infix(op, l', r'))
  {
  }

  lemma SameLevelSameSide(p: InfixCode, q: InfixCode, l: Expr, r: Expr)
    ensures Level(Infix(p, l, r)) == Level(Infix(q, l, r)) ==> (p in [AND, OR] || q in [AND, OR] ==> p == q)
  {
  }

  /** Between two operators the middle operand goes to the tighter one; at one level it goes to
      the left one, except that && and || group to the right. */
  lemma TwoOperators(a: Token, p: InfixCode, b: Token, q: InfixCode, c: Token)
    requires IsOperand(a) && IsOperand(b) && IsOperand(c)
    ensures Tokens([a, Plain(p), b, Plain(q), c], EOF).Valid()
    ensures var x, y, z := Operand(a), Operand(b), Operand(c);
            ParseAll(Tokens([a, Plain(p), b, Plain(q), c], EOF)) ==
            if Tighter(q, p) || (p == q && p in [AND, OR]) then Done(Infix(p, x, Infix(q, y, z)), 5)
            else Done(Infix(q, Infix(p, x, y), z), 5)
  {
    hide LEVELS, ParseAll, WellFormed, Yield, Level, Tokens.Valid, Tighter;
    var x, y, z := Operand(a), Operand(b), Operand(c);
    TighterLevels(q, p, x, y);
    SameLevelSameSide(p, q, x, y);
    var ts := [a, Plain(p), b, Plain(q), c];
    PairFacts(a, p, b);
    PairFacts(b, q, c);
    OperandFacts(a);
    OperandFacts(c);
    AllInStream(ts);
    if Tighter(q, p) || (p == q && p in [AND, OR]) {
      InfixFacts(p, x, Infix(q, y, z));
      LevelsAlike(p, x, y, x, Infix(q, y, z));
      LevelsAlike(q, x, y, y, z);
      Parses(Infix(p, x, Infix(q, y, z)), ts);
    } else {
      InfixFacts(q, Infix(p, x, y), z);
      LevelsAlike(q, x, y, Infix(p, x, y), z);
      Parses(Infix(q, Infix(p, x, y), z), ts);
    }
  }

  /** Unary operators bind tighter than every infix operator, on either side. */
  lemma UnaryThenInfix(u: UnCode, a: Token, p: InfixCode, v: UnCode, b: Token)
    requires IsOperand(a) && IsOperand(b)
    ensures Tokens([Plain(u), a, Plain(p), Plain(v), b], EOF).Valid()
    ensures ParseAll(Tokens([Plain(u), a, Plain(p), Plain(v), b], EOF)) ==
            Done(Infix(p, Unary(u, Operand(a)), Unary(v, Operand(b))), 5)
  {
    hide ParseAll, WellFormed, Yield, Level, Tokens.Valid;
    var ts := [Plain(u), a, Plain(p), Plain(v), b];
    UnaryFacts(u, a);
    UnaryFacts(v, b);
    InfixFacts(p, Unary(u, Operand(a)), Unary(v, Operand(b)));
    AllInStream(ts);
    Parses(Infix(p, Unary(u, Operand(a)), Unary(v, Operand(b))), ts);
  }

  /** Parentheses override the levels. */
  lemma Parenthesized(a: Token, p: InfixCode, b: Token, q: InfixCode, c: Token)
    requires IsOperand(a) && IsOperand(b) && IsOperand(c)
    ensures Tokens([a, Plain(p), Plain(LPAREN), b, Plain(q), c, Plain(RPAREN)], EOF).Valid()
    ensures ParseAll(Tokens([a, Plain(p), Plain(LPAREN), b, Plain(q), c, Plain(RPAREN)], EOF)) ==
            Done(Infix(p, Operand(a), Paren(Infix(q, Operand(b), Operand(c)))), 7)
  {
    hide ParseAll, WellFormed, Yield, Level, Tokens.Valid;
    var ts := [a, Plain(p), Plain(LPAREN), b, Plain(q), c, Plain(RPAREN)];
    var e := Infix(q, Operand(b), Operand(c));
    OperandFacts(a);
    PairFacts(b, q, c);
    ParenFacts(e);
    InfixFacts(p, Operand(a), Paren(e));
    AllInStream(ts);
    assert Yield(Infix(p, Operand(a), Paren(e))) == ts;
    Parses(Infix(p, Operand(a), Paren(e)), ts);
  }

  /** ?: is looser than every infix operator in all three places. */
  lemma InfixInConditional(a: Token, p: InfixCode, b: Token, c: Token, q: InfixCode, d: Token,
                           f: Token, r: InfixCode, g: Token)
    requires IsOperand(a) && IsOperand(b) && IsOperand(c) && IsOperand(d) && IsOperand(f) && IsOperand(g)
    ensures Tokens([a, Plain(p), b, Plain(QMARK), c, Plain(q), d, Plain(COLON), f, Plain(r), g], EOF).Valid()
    ensures ParseAll(Tokens([a, Plain(p), b, Plain(QMARK), c, Plain(q), d, Plain(COLON), f, Plain(r), g], EOF)) ==
            Done(Cond(Infix(p, Operand(a), Operand(b)), Infix(q, Operand(c), Operand(d)),
                      Infix(r, Operand(f), Operand(g))), 11)
  {
    hide ParseAll, WellFormed, Yield, Level, Tokens.Valid;
    var x, y, z := Infix(p, Operand(a), Operand(b)), Infix(q, Operand(c), Operand(d)), Infix(r, Operand(f), Operand(g));
    PairFacts(a, p, b);
    PairFacts(c, q, d);
    PairFacts(f, r, g);
    CondFacts(x, y, z);
    var ts := [a, Plain(p), b, Plain(QMARK), c, Plain(q), d, Plain(COLON), f, Plain(r), g];
    assert Yield(Cond(x, y, z)) == ts;
    AllInStream(ts);
    Parses(Cond(x, y, z), ts);
  }

  /** A conditional after the colon belongs to the second branch. */
  lemma ConditionalsGroupRight(a: Token, b: Token, c: Token, d: Token, f: Token)
    requires IsOperand(a) && IsOperand(b) && IsOperand(c) && IsOperand(d) && IsOperand(f)
    ensures Tokens([a, Plain(QMARK), b, Plain(COLON), c, Plain(QMARK), d, Plain(COLON), f], EOF).Valid()
    ensures ParseAll(Tokens([a, Plain(QMARK), b, Plain(COLON), c, Plain(QMARK), d, Plain(COLON), f], EOF)) ==
            Done(Cond(Operand(a), Operand(b), Cond(Operand(c), Operand(d), Operand(f))), 9)
  {
    hide ParseAll, WellFormed, Yield, Level, Tokens.Valid;
    var ts := [a, Plain(QMARK), b, Plain(COLON), c, Plain(QMARK), d, Plain(COLON), f];
    var e := Cond(Operand(c), Operand(d), Operand(f));
    PairFacts(a, AND, b);
    PairFacts(c, AND, d);
    OperandFacts(a);
    OperandFacts(b);
    OperandFacts(c);
    OperandFacts(d);
    OperandFacts(f);
    CondFacts(Operand(c), Operand(d), Operand(f));
    CondFacts(Operand(a), Operand(b), e);
    AllInStream(ts);
    assert Yield(Cond(Operand(a), Operand(b), e)) == ts;
    Parses(Cond(Operand(a), Operand(b), e), ts);
  }

  /** Assignments group to the right and take everything that follows. */
  lemma AssignmentsGroupRight(x: string, m: AssCode, y: string, n: AssCode, a: Token, p: InfixCode, b: Token)
    requires IsOperand(a) && IsOperand(b)
    ensures Tokens([Token(VAR, Name(x)), Plain(m), Token(VAR, Name(y)), Plain(n), a, Plain(p), b], EOF).Valid()
    ensures ParseAll(Tokens([Token(VAR, Name(x)), Plain(m), Token(VAR, Name(y)), Plain(n), a, Plain(p), b], EOF)) ==
            Done(Assign(x, m, Assign(y, n, Infix(p, Operand(a), Operand(b)))), 7)
  {
    hide ParseAll, WellFormed, Yield, Level, Tokens.Valid;
    var ts := [Token(VAR, Name(x)), Plain(m), Token(VAR, Name(y)), Plain(n), a, Plain(p), b];
    var e := Infix(p, Operand(a), Operand(b));
    PairFacts(a, p, b);
    AssignFacts(y, n, e);
    AssignFacts(x, m, Assign(y, n, e));
    AllInStream(ts);
    assert Yield(Assign(x, m, Assign(y, n, e))) == ts;
    Parses(Assign(x, m, Assign(y, n, e)), ts);
  }

  // ---------------------------------------------------------------- operator texts

  /** Every operator: its text and what it is. */
  const TEXTS: seq<(string, int)> := [
    ("*", MUL), ("/", DIV), ("%", REM), ("+", ADD), ("-", SUB), ("<<", LSHIFT), (">>", RSHIFT),
    ("<", LT), ("<=", LE), (">", GT), (">=", GE), ("==", EQ), ("!=", NE), ("&", BAND), ("^", BXOR), ("|", BOR),
    ("&&", AND), ("||", OR), ("!", NOT), ("~", BNOT), ("?", QMARK), (":", COLON), ("(", LPAREN), (")", RPAREN),
    ("=", ASS), ("%=", 24), ("&=", 25), ("<<=", 26), (">>=", 27), ("*=", 28), ("+=", 29), ("|=", 30), ("-=", 31),
    ("^=", 32), ("/=", 33)]

  /** What the compound assignments apply before they store. */
  const COMPOUND: map<string, int> := map[
    "%=" := REM, "&=" := BAND, "<<=" := LSHIFT, ">>=" := RSHIFT, "*=" := MUL, "+=" := ADD, "|=" := BOR,
    "-=" := SUB, "^=" := BXOR, "/=" := DIV]

  lemma OperatorTexts(k: nat)
    requires k < |TEXTS|
    ensures OpText(TEXTS[k].1) == TEXTS[k].0
  {
    if k < 9 { OperatorTextsLow(k); } else if k < 18 { OperatorTextsMid(k); }
    else if k < 25 { OperatorTextsHigh(k); } else { AssignmentTexts(k); }
  }

  lemma OperatorTextsLow(k: nat)
    requires k < 9
    ensures OpText(TEXTS[k].1) == TEXTS[k].0
  {
  }

  lemma OperatorTextsMid(k: nat)
    requires 9 <= k < 18
    ensures OpText(TEXTS[k].1) == TEXTS[k].0
  {
  }

  lemma OperatorTextsHigh(k: nat)
    requires 18 <= k < 25
    ensures OpText(TEXTS[k].1) == TEXTS[k].0
  {
  }

  lemma AssignmentTexts(k: nat)
    requires 25 <= k < |TEXTS|
    ensures OpText(TEXTS[k].1) == TEXTS[k].0
  {
  }

  /** A character that cannot make an operator longer. */
  predicate EndsOperator(c: char) { c !in "=<>|&+-" }

  lemma OperatorThen(s: string, i: nat, code: int)
    requires OpText(code) != "" && i + |OpText(code)| <= |s| && s[i..i + |OpText(code)|] == OpText(code)
    requires i + |OpText(code)| < |s| ==> EndsOperator(s[i + |OpText(code)|])
    ensures Operator(s, i) == (code, |OpText(code)|) && !DoubledSign(s, i)
    ensures !IsBlank(s[i]) && !IsDigit(s[i]) && !IsNameStart(s[i])
  {
    hide OpText;
    var x := OpText(code);
    OpTextMunch(code);
    assert s[i] == s[i..i + |x|][0];
    if |x| > 1 { assert s[i + 1] == s[i..i + |x|][1]; }
    if |x| > 2 { assert s[i + 2] == s[i..i + |x|][2]; }
    if |x| <= 2 { LongestAlready(x, if i + |x| < |s| then s[i + |x|] else ' '); }
  }

  lemma LongestAlready(x: string, c: char)
    requires 1 <= |x| <= 2 && EndsOperator(c)
    ensures |x| == 1 ==> Op2(x[0], c) == 0
    ensures |x| == 2 ==> Op3(x[0], x[1], c) == 0
    ensures forall d :: |x| == 1 ==> Op3(x[0], c, d) == 0
  {
  }

  /** Each listed text, wherever it stands, is read as the listed operator, unless the next character makes
      a longer one. */
  lemma OperatorRead(k: nat, before: string, rest: string)
    requires k < |TEXTS| && (rest != "" ==> EndsOperator(rest[0]))
    ensures var s := before + TEXTS[k].0 + rest;
            Lex(s, |before|) == Lexeme(TEXTS[k].1, None, |before| + |TEXTS[k].0|)
  {
    hide TEXTS, OpText, Operator, DoubledSign, EndsOperator;
    OperatorTexts(k);
    OperatorTextNonempty(k);
    var x := TEXTS[k].0;
    var s := before + x + rest;
    assert s[|before|..|before| + |x|] == x;
    if rest != "" { assert s[|before| + |x|] == rest[0]; }
    OperatorThen(s, |before|, TEXTS[k].1);
    OpTextMunch(TEXTS[k].1);
  }

  /** ASCII letters and the underscore. */
  predicate IsLetter(c: char) { 0x41 <= c as int <= 0x5A || 0x61 <= c as int <= 0x7A || c as int == 0x5F }

  predicate IsFigure(c: char) { 0x30 <= c as int <= 0x39 }

  lemma LetterClasses(c: char)
    ensures IsNameStart(c) <==> IsLetter(c)
    ensures IsInName(c) <==> IsLetter(c) || IsFigure(c)
    ensures IsDigit(c) <==> IsFigure(c)
    ensures IsBlank(c) <==> c in " \t\n"
    ensures IsLetter(c) ==> !IsFigure(c) && !IsBlank(c)
  {
  }

  /** A letter or underscore with all letters, underscores and digits that follow is a name. */
  lemma NameRead(before: string, name: string, rest: string)
    requires name != "" && IsLetter(name[0]) && forall k :: 0 <= k < |name| ==> IsLetter(name[k]) || IsFigure(name[k])
    requires rest != "" ==> !IsLetter(rest[0]) && !IsFigure(rest[0])
    ensures Lex(before + name + rest, |before|) == Lexeme(VAR, Some(Name(name)), |before| + |name|)
  {
    hide IsNameStart, IsInName, IsBlank, IsDigit, IsLetter, IsFigure;
    var s, i, j := before + name + rest, |before|, |before| + |name|;
    LetterClasses(name[0]);
    forall k | i <= k < j ensures IsInName(s[k]) { LetterClasses(name[k - i]); }
    if rest != "" { LetterClasses(rest[0]); }
    NameEndsAt(s, i + 1, j);
    assert s[i] == name[0] && s[i..j] == name;
  }

  lemma {:induction false} NameEndsAt(s: string, i: nat, j: nat)
    requires i <= j <= |s| && (forall k :: i <= k < j ==> IsInName(s[k])) && (j < |s| ==> !IsInName(s[j]))
    ensures NameEnd(s, i) == j
    decreases j - i
  {
    if i < j { NameEndsAt(s, i + 1, j); }
  }

  /** Blanks before a token do not matter, and at the end there is no token. */
  lemma {:induction false} BlanksBefore(s: string, i: nat, j: nat)
    requires i <= j <= |s| && forall k :: i <= k < j ==> s[k] in " \t\n"
    ensures Lex(s, j).code != BAD ==> Lex(s, i) == Lex(s, j)
    ensures Lex(s, j).code == BAD ==> Lex(s, i).code == BAD
    ensures j == |s| ==> Lex(s, i).code == EOF
    decreases j - i
  {
    if i < j { BlanksBefore(s, i + 1, j); }
  }

  /** Everything else is refused: characters that begin nothing, and ++ and --. */
  lemma Refused(s: string, i: nat)
    requires i < |s|
    requires (!IsLetter(s[i]) && !IsFigure(s[i]) && s[i] !in " \t\n" && s[i] !in "=<>|&!*/%+-^~?:()")
             || (s[i] in "+-" && i + 1 < |s| && s[i + 1] == s[i])
    ensures Lex(s, i).code == BAD
  {
    LetterClasses(s[i]);
  }

  lemma OperatorTextNonempty(k: nat)
    requires k < |TEXTS|
    ensures TEXTS[k].0 != ""
  {
  }

  /** Two numbers with an infix operator between them, as text, are that operator's tree. */
  lemma BinaryText(v: Int64, k: nat, w: Int64)
    requires v >= 0 && w >= 0 && k < 18
    ensures TEXTS[k].1 in [AND, OR] || BINOP_MIN <= TEXTS[k].1 < BINOP_MAX
    ensures ParseAll(Scan(Format(v) + " " + TEXTS[k].0 + " " + Format(w) + " ", 0)) ==
            Done(Infix(TEXTS[k].1, Num(v), Num(w)), 3)
  {
    hide TEXTS, OpText, ParseAll, Scan, Format;
    InfixListed(k);
    OperatorTexts(k);
    OperatorTextNonempty(k);
    var a, o, b := Token(NUM, Val(v)), Plain(TEXTS[k].1), Token(NUM, Val(w));
    var text := Format(v) + " " + TEXTS[k].0 + " " + Format(w) + " ";
    WriteThree(a, o, b);
    assert text == Text(a) + " " + Text(o) + " " + Text(b) + " ";
    assert text[0..] == text;
    ScanUndoesWrite(text, 0, [a, o, b]);
    PairFacts(a, TEXTS[k].1, b);
    Parses(Infix(TEXTS[k].1, Num(v), Num(w)), [a, o, b]);
  }

  lemma InfixListed(k: nat)
    requires k < 18
    ensures k < |TEXTS| && (TEXTS[k].1 in [AND, OR] || BINOP_MIN <= TEXTS[k].1 < BINOP_MAX)
  {
  }

  lemma WriteThree(a: Token, b: Token, c: Token)
    requires Writable(a) && Writable(b) && Writable(c)
    ensures AllWritable([a, b, c])
    ensures Write([a, b, c]) == Text(a) + " " + Text(b) + " " + Text(c) + " "
  {
    hide Writable, Text;
    assert [a, b, c][1..] == [b, c] && [b, c][1..] == [c] && [c][1..] == [];
    assert AllWritable([c]) && Write([c]) == Text(c) + " ";
    assert AllWritable([b, c]) && Write([b, c]) == Text(b) + " " + Write([c]);
  }

  // ---------------------------------------------------------------- numerals

  const LOWER := "0123456789abcdef"
  const UPPER := "0123456789ABCDEF"

  function Pow(base: nat, k: nat): nat { if k == 0 then 1 else base * Pow(base, k - 1) }

  /** The number that digits ds denote in a base. */
  function Positional(base: nat, ds: seq<nat>): nat {
    if ds == [] then 0 else ds[0] * Pow(base, |ds| - 1) + Positional(base, ds[1..])
  }

  /** text spells the digits ds, letters in either case. */
  ghost predicate Spells(text: string, base: nat, ds: seq<nat>) {
    |text| == |ds| && forall k :: 0 <= k < |ds| ==> SpellsDigit(text[k], base, ds[k])
  }

  predicate SpellsDigit(c: char, base: nat, d: nat) { d < base <= 16 && (c == LOWER[d] || c == UPPER[d]) }

  lemma DigitRead(c: char, base: nat, d: nat)
    requires SpellsDigit(c, base, d)
    ensures DigitVal(c) == d
    ensures base <= 10 ==> IsDigit(c)
    ensures c == '0' <==> d == 0
  {
  }

  /** acc followed by the digits ds. */
  function Extended(acc: nat, base: nat, ds: seq<nat>): nat
    decreases |ds|
  {
    if ds == [] then acc else Extended(acc * base + ds[0], base, ds[1..])
  }

  lemma {:induction false} ExtendedIsPositional(acc: nat, base: nat, ds: seq<nat>)
    ensures Extended(acc, base, ds) == acc * Pow(base, |ds|) + Positional(base, ds)
    decreases |ds|
  {
    if ds != [] {
      ExtendedIsPositional(acc * base + ds[0], base, ds[1..]);
      Distribute(acc, base, ds[0], Pow(base, |ds| - 1), Positional(base, ds[1..]));
    }
  }

  lemma Distribute(a: nat, b: nat, d: nat, p: nat, q: nat)
    ensures (a * b + d) * p + q == a * (b * p) + (d * p + q)
  {
    assert (a * b) * p == a * (b * p);
  }

  lemma {:induction false} DigitsRead(s: string, i: nat, base: nat, ds: seq<nat>, acc: nat)
    requires i + |ds| <= |s| && Spells(s[i..i + |ds|], base, ds)
    ensures ScanDigits(s, i, base, acc) == ScanDigits(s, i + |ds|, base, Extended(acc, base, ds))
    decreases |ds|
  {
    hide SpellsDigit, DigitVal;
    if ds != [] {
      var t := s[i..i + |ds|];
      assert t[0] == s[i] && SpellsDigit(t[0], base, ds[0]);
      DigitRead(s[i], base, ds[0]);
      DigitBelow(s[i], base, ds[0]);
      SpellsRest(t, base, ds);
      assert s[i + 1..i + 1 + |ds[1..]|] == t[1..];
      DigitsRead(s, i + 1, base, ds[1..], acc * base + ds[0]);
    }
  }

  lemma DigitBelow(c: char, base: nat, d: nat)
    requires SpellsDigit(c, base, d)
    ensures d < base
  {
  }

  lemma SpellsRest(t: string, base: nat, ds: seq<nat>)
    requires ds != [] && Spells(t, base, ds)
    ensures Spells(t[1..], base, ds[1..])
  {
    hide SpellsDigit;
    forall k | 0 <= k < |ds| - 1
      ensures SpellsDigit(t[1..][k], base, ds[1..][k])
    {
      var n := k + 1;
      assert SpellsDigit(t[n], base, ds[n]);
    }
  }

  /** The 64-bit value of a numeral that denotes n: octal and hexadecimal ones wrap around and
      stop at the largest unsigned number, decimal ones stop at the largest signed number. */
  ghost predicate Denotes(v: int, n: nat, decimal: bool) {
    if n <= ARITH_MAX then v == n
    else if decimal then v == (if n == ARITH_MAX + 1 then ARITH_MIN else ARITH_MAX)
    else v == (if n <= UMAX then n - TWO64 else -1)
  }

  /** A run of decimal, octal or hexadecimal digits before a blank or the end, at any place of a text. */
  ghost predicate NumeralAt(s: string, i: nat, prefix: string, base: nat, ds: seq<nat>) {
    var j := i + |prefix|;
    && j + |ds| <= |s| && s[i..j] == prefix && Spells(s[j..j + |ds|], base, ds)
    && (j + |ds| < |s| ==> s[j + |ds|] == ' ')
    && (base == 10 ==> prefix == "" && ds != [] && ds[0] != 0)
    && (base == 8 ==> prefix == "0")
    && (base == 16 ==> prefix in ["0x", "0X"] && ds != [])
  }

  /** The digits of a numeral at j end before the blank after them, or with the text. */
  lemma DigitsThenBlank(s: string, j: nat, base: nat, ds: seq<nat>)
    requires base <= 16 && j + |ds| <= |s| && Spells(s[j..j + |ds|], base, ds)
    requires j + |ds| < |s| ==> s[j + |ds|] == ' '
    ensures ScanDigits(s, j, base, 0) == (Positional(base, ds), j + |ds|)
    ensures ds != [] ==> DigitVal(s[j]) < base && (base <= 10 ==> IsDigit(s[j])) && (s[j] == '0' <==> ds[0] == 0)
  {
    hide Positional, Extended, SpellsDigit, Pow;
    DigitsRead(s, j, base, ds, 0);
    ExtendedIsPositional(0, base, ds);
    NothingBefore(Pow(base, |ds|));
    if ds != [] {
      assert s[j..j + |ds|][0] == s[j] && SpellsDigit(s[j..j + |ds|][0], base, ds[0]);
      DigitRead(s[j], base, ds[0]);
      DigitBelow(s[j], base, ds[0]);
    }
  }

  lemma NothingBefore(p: nat)
    ensures 0 * p == 0
  {
  }

  lemma NumeralScan(s: string, i: nat, prefix: string, base: nat, ds: seq<nat>)
    requires base in [8, 10, 16] && NumeralAt(s, i, prefix, base, ds)
    ensures ScanNumber(s, i) == (Positional(base, ds), i + |prefix| + |ds|)
    ensures IsDigit(s[i]) && (s[i] == '0' <==> base != 10)
  {
    hide Positional, Spells, ScanDigits;
    var j := i + |prefix|;
    DigitsThenBlank(s, j, base, ds);
    if base == 8 {
      assert s[i] == s[i..j][0];
    } else if base == 16 {
      assert s[i] == s[i..j][0] && s[i + 1] == s[i..j][1];
    }
  }

  /** A numeral has the positional value of its digits: base 10, base 8 after 0, base 16 after
      0x, in that order of choice. */
  lemma NumeralRead(s: string, i: nat, prefix: string, base: nat, ds: seq<nat>)
    requires base in [8, 10, 16] && NumeralAt(s, i, prefix, base, ds)
    ensures var t := Lex(s, i);
            && t.code == NUM && t.next == i + |prefix| + |ds|
            && Denotes(t.yy.value.val, Positional(base, ds), base == 10)
  {
    hide Positional, Pow, Spells, ScanNumber;
    NumeralScan(s, i, prefix, base, ds);
  }

  /** White space that may come before the number in a variable. */
  ghost predicate Spaces(b: string) { forall k :: 0 <= k < |b| ==> b[k] == ' ' || 9 <= b[k] as int <= 13 }

  lemma {:induction false} SpacesSkipped(s: string, i: nat, n: nat)
    requires i <= n < |s| && Spaces(s[i..n]) && !(s[n] == ' ' || 9 <= s[n] as int <= 13)
    ensures SkipSpaces(s, i) == n
    decreases n - i
  {
    if i < n {
      assert s[i] == s[i..n][0] && s[i + 1..n] == s[i..n][1..];
      SpacesSkipped(s, i + 1, n);
    }
  }

  /** What a variable that holds white space, a sign and a numeral is worth: the number, wrapped if it is
      unsigned octal or hexadecimal, and an error when it does not fit. */
  ghost predicate Worth(r: Outcome, env: Env, sign: string, base: nat, n: nat) {
    if sign == "-" then r == (if n <= -ARITH_MIN then Value(0 - n, env) else Raised(Conversion, env))
    else if n <= ARITH_MAX then r == Value(n, env)
    else if sign == "" && base != 10 && n <= UMAX then r == Value(n - TWO64, env)
    else r == Raised(Conversion, env)
  }

  /** The value of a variable that holds a number, and the error when something follows the number. */
  lemma VariableNumber(x: string, env: Env, b: string, sign: string, i: nat, prefix: string, base: nat, ds: seq<nat>)
    requires x in env.vars && Spaces(b) && sign in ["", "+", "-"] && i == |b| + |sign| && i <= |env.vars[x]|
    requires env.vars[x][..|b|] == b && env.vars[x][|b|..i] == sign
    requires base in [8, 10, 16] && NumeralAt(env.vars[x], i, prefix, base, ds)
    ensures if i + |prefix| + |ds| == |env.vars[x]| then Worth(Eval(Var(x), env), env, sign, base, Positional(base, ds))
            else Eval(Var(x), env) == Raised(Conversion, env)
  {
    hide Positional, Pow, Spells, ScanNumber, SkipSpaces, NumeralAt, IsDigit;
    var s := env.vars[x];
    NumeralScan(s, i, prefix, base, ds);
    NumeralStart(s, i, prefix, base, ds);
    if sign != "" { assert s[|b|] == s[|b|..i][0] == sign[0]; }
    assert s[0..|b|] == b;
    SpacesSkipped(s, 0, |b|);
    SignedNumber(s, |b|, i, i + |prefix| + |ds|, Positional(base, ds));
  }

  lemma NumeralStart(s: string, i: nat, prefix: string, base: nat, ds: seq<nat>)
    requires base in [8, 10, 16] && NumeralAt(s, i, prefix, base, ds)
    ensures i < |s| && i < i + |prefix| + |ds| <= |s| && (s[i] == '0' <==> base != 10) && '0' <= s[i] <= '9'
  {
    hide Positional, Pow, Spells, ScanNumber;
    NumeralScan(s, i, prefix, base, ds);
  }

  lemma SignedNumber(s: string, k: nat, i: nat, end: nat, n: nat)
    requires k <= i < end <= |s| && SkipSpaces(s, 0) == k && ScanNumber(s, i) == (n, end)
    requires i == k || (i == k + 1 && s[k] in ['+', '-'])
    requires '0' <= s[i] <= '9'
    ensures var r := StrToArith(s, 0);
            && r.end == end
            && (s[k] == '-' ==> r.range == (n > -ARITH_MIN) && (!r.range ==> r.value == 0 - n))
            && (s[k] != '-' && n <= ARITH_MAX ==> !r.range && r.value == n)
            && (s[k] != '-' && n > ARITH_MAX ==> r.range == !(s[k] == '0' && n <= UMAX)
                                                 && (!r.range ==> r.value == n - TWO64))
  {
    hide ScanNumber, SkipSpaces;
  }

  // ---------------------------------------------------------------- what the operators compute

  predicate BitSet(v: Int64, i: nat) { v % TWO64 / Pow2(i) % 2 == 1 }

  lemma {:induction false} BitIsQuotient(x: nat, i: nat)
    ensures Bit(x, i) == x / Pow2(i) % 2
    decreases i
  {
    if i > 0 {
      BitIsQuotient(x / 2, i - 1);
      QuotientOfQuotient(x, Pow2(i - 1));
    }
  }

  lemma QuotientOfQuotient(x: nat, p: int)
    requires p > 0
    ensures x / 2 / p == x / (2 * p)
  {
    var q, r := x / 2 / p, x / 2 % p;
    assert x / 2 == p * q + r;
    assert x == (2 * p) * q + (2 * r + x % 2);
    QuotientIs(x, 2 * p, q, 2 * r + x % 2);
  }

  lemma QuotientIs(x: int, d: int, q: int, r: int)
    requires d > 0 && x == d * q + r && 0 <= r < d
    ensures x / d == q
  {
    var k := x / d - q;
    assert x == d * (x / d) + x % d;
    assert d * k == r - x % d;
    SmallMultiple(d, k);
  }

  lemma SmallMultiple(d: int, k: int)
    requires -d < d * k < d
    ensures k == 0
  {
  }

  /** The truth tables of the bitwise operators, bit by bit. */
  lemma BitwiseTables(a: Int64, b: Int64, i: nat)
    requires i < 64
    ensures DoBinop(BAND, a, b).Ok? && (BitSet(DoBinop(BAND, a, b).value, i) <==> BitSet(a, i) && BitSet(b, i))
    ensures DoBinop(BOR, a, b).Ok? && (BitSet(DoBinop(BOR, a, b).value, i) <==> BitSet(a, i) || BitSet(b, i))
    ensures DoBinop(BXOR, a, b).Ok? && (BitSet(DoBinop(BXOR, a, b).value, i) <==> BitSet(a, i) != BitSet(b, i))
  {
    OneTable(BAND, a, b, i);
    OneTable(BOR, a, b, i);
    OneTable(BXOR, a, b, i);
  }

  lemma OneTable(op: BinCode, a: Int64, b: Int64, i: nat)
    requires i < 64 && op in [BAND, BOR, BXOR]
    ensures DoBinop(op, a, b).Ok?
    ensures var x, y := if BitSet(a, i) then 1 else 0, if BitSet(b, i) then 1 else 0;
            BitSet(DoBinop(op, a, b).value, i) <==> BitOp(op, x, y) == 1
  {
    hide DoBinop, Bitwise, Pow2, Bit;
    BitwiseMeaning(op, a, b, i);
    BitIsQuotient(a % TWO64, i);
    BitIsQuotient(b % TWO64, i);
    BitIsQuotient(Bitwise(op, a, b) % TWO64, i);
  }

  lemma {:induction false} ComplementBit(x: nat, n: nat, i: nat)
    requires i < n && x < Pow2(n)
    ensures Bit(Pow2(n) - 1 - x, i) == 1 - Bit(x, i)
    decreases i
  {
    var y := Pow2(n) - 1 - x;
    assert Pow2(n) == 2 * Pow2(n - 1);
    assert y / 2 == Pow2(n - 1) - 1 - x / 2 && y % 2 == 1 - x % 2;
    if i > 0 {
      ComplementBit(x / 2, n - 1, i - 1);
    }
  }

  /** What the unary operators compute: + nothing, - the wrapping negative, ! whether its
      operand is 0, ~ every bit turned over. */
  lemma UnaryMeaning(v: Int64, env: Env, i: nat)
    requires i < 64
    ensures Eval(Unary(ADD, Num(v)), env) == Value(v, env)
    ensures Eval(Unary(NOT, Num(v)), env) == Value(if v == 0 then 1 else 0, env)
    ensures var r := Eval(Unary(SUB, Num(v)), env); r.Value? && r.env == env && (r.v + v) % TWO64 == 0
    ensures var r := Eval(Unary(BNOT, Num(v)), env); r.Value? && r.env == env && (BitSet(r.v, i) <==> !BitSet(v, i))
  {
    hide Pow2, Bit;
    var x, r := v % TWO64, -1 - v;
    Pow2Is64();
    assert r % TWO64 == Pow2(64) - 1 - x;
    ComplementBit(x, 64, i);
    BitIsQuotient(x, i);
    BitIsQuotient(Pow2(64) - 1 - x, i);
  }

  /** The variables after x has been set. */
  function Having(env: Env, x: string, v: Int64): Env { env.(vars := env.vars[x := Format(v)]) }

  /** && and || look at their right operand only when the left one has not decided, and are 0 or 1. */
  lemma ShortCircuit(a: Int64, x: string, v: Int64, env: Env)
    requires x !in env.readonly
    ensures Eval(Infix(AND, Num(a), Assign(x, ASS, Num(v))), env) ==
            if a == 0 then Value(0, env) else Value(if v == 0 then 0 else 1, Having(env, x, v))
    ensures Eval(Infix(OR, Num(a), Assign(x, ASS, Num(v))), env) ==
            if a != 0 then Value(1, env) else Value(if v == 0 then 0 else 1, Having(env, x, v))
  {
    hide Format;
    assert Eval(Assign(x, ASS, Num(v)), env) == Value(v, Having(env, x, v));
  }

  /** ?: evaluates the branch its condition chooses and not the other. */
  lemma OneBranch(a: Int64, x: string, v: Int64, y: string, w: Int64, env: Env)
    requires x !in env.readonly && y !in env.readonly
    ensures Eval(Cond(Num(a), Assign(x, ASS, Num(v)), Assign(y, ASS, Num(w))), env) ==
            if a != 0 then Value(v, Having(env, x, v)) else Value(w, Having(env, y, w))
  {
    hide Format;
    assert Eval(Assign(x, ASS, Num(v)), env) == Value(v, Having(env, x, v));
    assert Eval(Assign(y, ASS, Num(w)), env) == Value(w, Having(env, y, w));
  }

  /** The left operand's assignment is there when the right operand is evaluated. */
  lemma LeftOperandFirst(op: BinCode, x: string, v: Int64, env: Env)
    requires x !in env.readonly && DoBinop(op, v, v).Ok?
    ensures Eval(Infix(op, Assign(x, ASS, Num(v)), Var(x)), env) == Value(DoBinop(op, v, v).value, Having(env, x, v))
  {
    hide Format, DoBinop, Lookup;
    assert Eval(Assign(x, ASS, Num(v)), env) == Value(v, Having(env, x, v));
    StoreThenLookup(env, x, v);
  }

  /** A compound assignment applies its operator to the variable and the right-hand side, in
      that order, after the right-hand side has taken effect. */
  lemma CompoundAssignment(k: nat, x: string, w: Int64, y: string, env: Env)
    requires 25 <= k < |TEXTS|
    ensures TEXTS[k].0 in COMPOUND && BINOP_MIN <= COMPOUND[TEXTS[k].0] < BINOP_MAX
            && ASS_MIN <= TEXTS[k].1 < ASS_MAX
    ensures Eval(Assign(x, TEXTS[k].1, Num(w)), env) ==
            Eval(Assign(x, ASS, Infix(COMPOUND[TEXTS[k].0], Var(x), Num(w))), env)
    ensures x !in env.readonly ==>
            Eval(Assign(x, TEXTS[k].1, Assign(x, ASS, Num(w))), env) ==
            Eval(Assign(x, ASS, Infix(COMPOUND[TEXTS[k].0], Num(w), Num(w))), Having(env, x, w))
  {
    hide Format, DoBinop, Lookup, TEXTS, COMPOUND;
    CompoundListed(k);
    var op: BinCode := COMPOUND[TEXTS[k].0];
    OneCompound(TEXTS[k].1, op, x, w, env);
  }

  lemma CompoundListed(k: nat)
    requires 25 <= k < |TEXTS|
    ensures TEXTS[k].0 in COMPOUND && ASS_MIN <= TEXTS[k].1 < ASS_MAX
    ensures BINOP_MIN <= COMPOUND[TEXTS[k].0] < BINOP_MAX && Underlying(TEXTS[k].1) == COMPOUND[TEXTS[k].0]
  {
  }

  lemma OneCompound(aop: AssCode, op: BinCode, x: string, w: Int64, env: Env)
    requires aop != ASS && Underlying(aop) == op
    ensures Eval(Assign(x, aop, Num(w)), env) == Eval(Assign(x, ASS, Infix(op, Var(x), Num(w))), env)
    ensures x !in env.readonly ==>
            Eval(Assign(x, aop, Assign(x, ASS, Num(w))), env) ==
            Eval(Assign(x, ASS, Infix(op, Num(w), Num(w))), Having(env, x, w))
  {
    hide Format, DoBinop, Lookup;
    assert Eval(Infix(op, Var(x), Num(w)), env) ==
           match Lookup(env, x) case Ok(a) => Combine2(op, a, w, env) case Err(k) => Raised(k, env);
    if x !in env.readonly {
      StoreThenLookup(env, x, w);
      assert Eval(Assign(x, ASS, Num(w)), env) == Value(w, Having(env, x, w));
      assert Eval(Infix(op, Num(w), Num(w)), Having(env, x, w)) == Combine2(op, w, w, Having(env, x, w));
    }
  }

  /** A variable that is unset is 0, or an error under -u; one set to nothing is 0; one that
      holds a decimal number has its value; assigning a read-only one is an error that changes
      nothing. */
  lemma VariableMeaning(x: string, v: Int64, env: Env)
    ensures x !in env.vars ==> Eval(Var(x), env) == if env.nounset then Raised(NotSet, env) else Value(0, env)
    ensures x in env.vars && env.vars[x] == "" ==> Eval(Var(x), env) == Value(0, env)
    ensures x in env.vars && env.vars[x] == Format(v) ==> Eval(Var(x), env) == Value(v, env)
    ensures x in env.readonly ==> Eval(Assign(x, ASS, Num(v)), env) == Raised(ReadOnly, env)
  {
    hide StrToArith;
    FormatRoundTrip(v);
  }
}
