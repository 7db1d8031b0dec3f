/** The grammar of shell arithmetic: syntax trees, the tokens they are written with, and the
    precedence-climbing parse of sh/arith_yacc.c as a function from tokens to trees. */
module ArithGrammar {
  import opened ArithValue

  // The remaining token codes (sh/arith_yacc.h).
  const EOF := 0
  const ASS := 1
  const OR := 2
  const AND := 3
  const BAD := 4
  const NUM := 5
  const VAR := 6
  const NOT := 7
  const ASS_MIN := 24
  const ASS_MAX := 34
  const LPAREN := 34
  const RPAREN := 35
  const BNOT := 36
  const QMARK := 37
  const COLON := 38
  const MAX_PREC: nat := 8

  /** union yystype */
  datatype YyVal = Val(val: Int64) | Name(name: string)

  datatype Token = Token(code: int, yy: YyVal)

  function Plain(code: int): Token { Token(code, Val(0)) }

  /** Everything yylex returns, in order: after the listed tokens it returns `last`, the end
      of the text or a character it rejects, for ever. */
  datatype Tokens = Tokens(toks: seq<Token>, last: int) {
    predicate Valid() {
      (last == EOF || last == BAD) &&
      forall k :: 0 <= k < |toks| ==>
        toks[k].code != EOF && toks[k].code != BAD &&
        (toks[k].code == NUM ==> toks[k].yy.Val?) && (toks[k].code == VAR ==> toks[k].yy.Name?)
    }

    function At(k: nat): Token { if k < |toks| then toks[k] else Plain(last) }

    function Code(k: nat): int { At(k).code }
  }

  type Stream = s: Tokens | s.Valid() witness Tokens([], EOF)

  predicate IsEnd(code: int) { code == EOF || code == BAD }

  /** Tokens that set yylval. */
  predicate HasValue(code: int) { code == NUM || code == VAR }

  predicate IsBinop(code: int) { BINOP_MIN <= code < BINOP_MAX }

  predicate IsAssop(code: int) { code == ASS || ASS_MIN <= code < ASS_MAX }

  predicate IsUnop(code: int) { code == ADD || code == SUB || code == NOT || code == BNOT }

  function Prec(op: BinCode): (p: nat)
    ensures p < MAX_PREC
  {
    if op in {MUL, DIV, REM} then 0
    else if op in {ADD, SUB} then 1
    else if op in {LSHIFT, RSHIFT} then 2
    else if op in {LT, LE, GT, GE} then 3
    else if op in {EQ, NE} then 4
    else if op == BAND then 5
    else if op == BXOR then 6
    else 7
  }

  // ---------------------------------------------------------------- reference grammar

  type InfixCode = c: int | BINOP_MIN <= c < BINOP_MAX || c == AND || c == OR witness AND

  type UnCode = c: int | c == ADD || c == SUB || c == NOT || c == BNOT witness ADD

  type AssCode = c: int | c == ASS || ASS_MIN <= c < ASS_MAX witness ASS

  datatype Expr =
    | Num(v: Int64)
    | Var(x: string)
    | Paren(e: Expr)
    | Unary(u: UnCode, e: Expr)
    | Infix(op: InfixCode, l: Expr, r: Expr)
    | Cond(c: Expr, t: Expr, f: Expr)
    | Assign(x: string, aop: AssCode, e: Expr)

  /** How loosely an expression binds: -1 primary, 0 to 7 binary, 8 &&, 9 ||, 10 ?:, 11 assignment. */
  function Level(e: Expr): int {
    match e
    case Infix(op, _, _) => if IsBinop(op) then Prec(op) else if op == AND then 8 else 9
    case Cond(_, _, _) => 10
    case Assign(_, _, _) => 11
    case _ => -1
  }

  /** The precedence and associativity rules of section 6.5 of ISO C, as a condition on trees:
      binary operators group to the left, &&, || and ?: to the right (a difference without
      consequence for && and ||), and tighter operators may stand without parentheses. */
  predicate WellFormed(e: Expr) {
    match e
    case Num(_) => true
    case Var(_) => true
    case Paren(x) => WellFormed(x)
    case Unary(_, x) => WellFormed(x) && Level(x) < 0
    case Infix(op, l, r) =>
      WellFormed(l) && WellFormed(r) &&
      if IsBinop(op) then Level(l) <= Level(e) && Level(r) < Level(e)
      else Level(l) < Level(e) && Level(r) <= Level(e)
    case Cond(c, t, f) => WellFormed(c) && WellFormed(t) && WellFormed(f) && Level(c) <= 9 && Level(f) <= 10
    case Assign(_, _, x) => WellFormed(x)
  }

  /** The tokens an expression is written with. */
  function Yield(e: Expr): (ts: seq<Token>)
    ensures ts != []
  {
    match e
    case Num(v) => [Token(NUM, Val(v))]
    case Var(x) => [Token(VAR, Name(x))]
    case Paren(x) => [Plain(LPAREN)] + (Yield(x) + [Plain(RPAREN)])
    case Unary(u, x) => [Plain(u)] + Yield(x)
    case Infix(op, l, r) => Yield(l) + ([Plain(op)] + Yield(r))
    case Cond(c, t, f) => Yield(c) + ([Plain(QMARK)] + (Yield(t) + ([Plain(COLON)] + Yield(f))))
    case Assign(x, aop, y) => [Token(VAR, Name(x))] + ([Plain(aop)] + Yield(y))
  }

  /** The tokens from k on are ts; the yylval of tokens other than numbers and names is
      whatever it was. */
  ghost predicate Reads(s: Stream, k: nat, ts: seq<Token>)
    decreases |ts|
  {
    ts == [] || (k < |s.toks| && SameToken(s.toks[k], ts[0]) && Reads(s, k + 1, ts[1..]))
  }

  predicate SameToken(a: Token, b: Token) {
    a.code == b.code && (a.code == NUM || a.code == VAR ==> a.yy == b.yy)
  }

  // ---------------------------------------------------------------- the parse

  datatype Parse = Fail | Done(e: Expr, next: nat) {
    predicate IsFailure() { Fail? }
    function PropagateFailure(): Parse requires Fail? { Fail }
    function Extract(): (Expr, nat) requires Done? { (e, next) }
  }

  function Primary(s: Stream, k: nat): (r: Parse)
    ensures r.Done? ==> k < r.next <= |s.toks|
    decreases |s.toks| - k, 0
  {
    if k >= |s.toks| then Fail
    else
      var t := s.toks[k];
      if t.code == LPAREN then
        var (e, j) :- Assignment(s, k + 1);
        if s.Code(j) == RPAREN then Done(Paren(e), j + 1) else Fail
      else if t.code == NUM then Done(Num(t.yy.val), k + 1)
      else if t.code == VAR then Done(Var(t.yy.name), k + 1)
      else if IsUnop(t.code) then
        var (e, j) :- Primary(s, k + 1);
        Done(Unary(t.code, e), j)
      else Fail
  }

  /** A primary followed by all binary operators that bind tighter than p. */
  function UpTo(s: Stream, k: nat, p: nat): (r: Parse)
    ensures r.Done? ==> k < r.next <= |s.toks|
    decreases |s.toks| - k, 1
  {
    var (a, j) :- Primary(s, k);
    Climb(s, a, j, p)
  }

  /** Continue with left operand a and the operator, if any, at k (binop2). */
  function Climb(s: Stream, a: Expr, k: nat, p: nat): (r: Parse)
    requires k <= |s.toks|
    ensures r.Done? ==> k <= r.next <= |s.toks|
    decreases |s.toks| - k, 2
  {
    if IsBinop(s.Code(k)) && Prec(s.Code(k)) < p then
      var (b, j) :- UpTo(s, k + 1, Prec(s.Code(k)));
      Climb(s, Infix(s.Code(k), a, b), j, p)
    else Done(a, k)
  }

  function AndExpr(s: Stream, k: nat): (r: Parse)
    ensures r.Done? ==> k < r.next <= |s.toks|
    decreases |s.toks| - k, 3
  {
    var (a, j) :- UpTo(s, k, MAX_PREC);
    if s.Code(j) != AND then Done(a, j)
    else
      var (b, m) :- AndExpr(s, j + 1);
      Done(Infix(AND, a, b), m)
  }

  function OrExpr(s: Stream, k: nat): (r: Parse)
    ensures r.Done? ==> k < r.next <= |s.toks|
    decreases |s.toks| - k, 4
  {
    var (a, j) :- AndExpr(s, k);
    if s.Code(j) != OR then Done(a, j)
    else
      var (b, m) :- OrExpr(s, j + 1);
      Done(Infix(OR, a, b), m)
  }

  function CondExpr(s: Stream, k: nat): (r: Parse)
    ensures r.Done? ==> k < r.next <= |s.toks|
    decreases |s.toks| - k, 5
  {
    var (a, j) :- OrExpr(s, k);
    if s.Code(j) == QMARK then Branches(s, a, j) else Done(a, j)
  }

  function Branches(s: Stream, a: Expr, j: nat): (r: Parse)
    requires j < |s.toks|
    ensures r.Done? ==> j < r.next <= |s.toks|
    decreases |s.toks| - j, 0
  {
    var (b, m) :- Assignment(s, j + 1);
    if s.Code(m) != COLON then Fail
    else
      var (c, n) :- CondExpr(s, m + 1);
      Done(Cond(a, b, c), n)
  }

  function Assignment(s: Stream, k: nat): (r: Parse)
    ensures r.Done? ==> k < r.next <= |s.toks|
    decreases |s.toks| - k, 6
  {
    if s.Code(k) == VAR && IsAssop(s.Code(k + 1)) then
      var (e, j) :- Assignment(s, k + 2);
      Done(Assign(s.toks[k].yy.name, s.Code(k + 1), e), j)
    else CondExpr(s, k)
  }

  /** The tree of a whole text, as arith accepts it. */
  function ParseAll(s: Stream): (r: Parse)
  {
    var (e, j) :- Assignment(s, 0);
    if s.Code(j) == EOF then Done(e, j) else Fail
  }

  // ---------------------------------------------------------------- the parse is sound

  /** The index after the tokens of e when the stream spells e from k on, and -1 otherwise. */
  ghost function End(s: Stream, k: nat, e: Expr): (j: int)
    ensures -1 == j || k < j <= |s.toks|
    decreases e, 0
  {
    match e
    case Num(v) => if s.Code(k) == NUM && s.At(k).yy == Val(v) then k + 1 else -1
    case Var(x) => if s.Code(k) == VAR && s.At(k).yy == Name(x) then k + 1 else -1
    case Paren(x) =>
      var j := if s.Code(k) == LPAREN then End(s, k + 1, x) else -1;
      if j > 0 && s.Code(j) == RPAREN then j + 1 else -1
    case Unary(u, x) => if s.Code(k) == u then End(s, k + 1, x) else -1
    case Infix(op, l, r) => EndInfix(s, End(s, k, l), op, r)
    case Cond(c, t, f) => EndInfix(s, EndInfix(s, End(s, k, c), QMARK, t), COLON, f)
    case Assign(x, aop, y) =>
      if s.Code(k) == VAR && s.At(k).yy == Name(x) && s.Code(k + 1) == aop && !IsEnd(aop) then End(s, k + 2, y) else -1
  }

  ghost function EndInfix(s: Stream, j: int, op: int, r: Expr): (m: int)
    requires j <= |s.toks|
    ensures m == -1 || (0 < j && j + 1 < m <= |s.toks|)
    decreases r, 1
  {
    if j > 0 && s.Code(j) == op && !IsEnd(op) then End(s, j + 1, r) else -1
  }

  /** Nothing that binds tighter than p follows. */
  ghost predicate Stops(s: Stream, k: nat, p: nat) {
    IsBinop(s.Code(k)) ==> Prec(s.Code(k)) >= p
  }

  ghost predicate Sound(s: Stream, k: nat, r: Parse, limit: int)
  {
    r.Done? ==> WellFormed(r.e) && Level(r.e) <= limit && End(s, k, r.e) == r.next
  }

  lemma {:induction false} PrimarySound(s: Stream, k: nat)
    ensures Sound(s, k, Primary(s, k), -1)
    decreases |s.toks| - k, 0
  {
    if k < |s.toks| {
      var code := s.toks[k].code;
      if code == LPAREN {
        AssignmentSound(s, k + 1);
      } else if IsUnop(code) {
        PrimarySound(s, k + 1);
      }
    }
  }

  lemma {:induction false} UpToSound(s: Stream, k: nat, p: nat)
    ensures Sound(s, k, UpTo(s, k, p), p - 1)
    ensures UpTo(s, k, p).Done? ==> Stops(s, UpTo(s, k, p).next, p)
    decreases |s.toks| - k, 1
  {
    PrimarySound(s, k);
    if Primary(s, k).Done? {
      ClimbSound(s, k, Primary(s, k).e, Primary(s, k).next, p);
    }
  }

  lemma {:induction false} ClimbSound(s: Stream, k0: nat, a: Expr, k: nat, p: nat)
    requires k <= |s.toks| && WellFormed(a) && End(s, k0, a) == k && Level(a) < p
    requires IsBinop(s.Code(k)) ==> Level(a) <= Prec(s.Code(k))
    ensures Sound(s, k0, Climb(s, a, k, p), p - 1)
    ensures Climb(s, a, k, p).Done? ==> Stops(s, Climb(s, a, k, p).next, p)
    decreases |s.toks| - k, 2
  {
    if IsBinop(s.Code(k)) && Prec(s.Code(k)) < p {
      UpToSound(s, k + 1, Prec(s.Code(k)));
      var b := UpTo(s, k + 1, Prec(s.Code(k)));
      if b.Done? {
        ClimbSound(s, k0, Infix(s.Code(k), a, b.e), b.next, p);
      }
    }
  }

  lemma {:induction false} AndSound(s: Stream, k: nat)
    ensures Sound(s, k, AndExpr(s, k), 8)
    decreases |s.toks| - k, 3
  {
    hide UpTo;
    UpToSound(s, k, MAX_PREC);
    var a := UpTo(s, k, MAX_PREC);
    if a.Done? && s.Code(a.next) == AND {
      AndSound(s, a.next + 1);
      var b := AndExpr(s, a.next + 1);
      if b.Done? { assert End(s, k, Infix(AND, a.e, b.e)) == EndInfix(s, a.next, AND, b.e) == b.next; }
    }
  }

  lemma {:induction false} OrSound(s: Stream, k: nat)
    ensures Sound(s, k, OrExpr(s, k), 9)
    decreases |s.toks| - k, 4
  {
    AndSound(s, k);
    var a := AndExpr(s, k);
    if a.Done? && s.Code(a.next) == OR {
      OrSound(s, a.next + 1);
    }
  }

  lemma {:induction false} CondSound(s: Stream, k: nat)
    ensures Sound(s, k, CondExpr(s, k), 10)
    decreases |s.toks| - k, 5
  {
    OrSound(s, k);
    var a := OrExpr(s, k);
    if a.Done? && s.Code(a.next) == QMARK {
      BranchesSound(s, k, a.e, a.next);
    }
  }

  lemma {:induction false} BranchesSound(s: Stream, k: nat, a: Expr, j: nat)
    requires WellFormed(a) && Level(a) <= 9 && End(s, k, a) == j < |s.toks| && s.Code(j) == QMARK
    ensures Sound(s, k, Branches(s, a, j), 10)
    decreases |s.toks| - j, 0
  {
    hide Assignment, CondExpr;
    AssignmentSound(s, j + 1);
    var b := Assignment(s, j + 1);
    if b.Done? && s.Code(b.next) == COLON {
      assert EndInfix(s, j, QMARK, b.e) == b.next;
      CondSound(s, b.next + 1);
      var c := CondExpr(s, b.next + 1);
      if c.Done? {
        assert End(s, k, Cond(a, b.e, c.e)) == EndInfix(s, b.next, COLON, c.e) == c.next;
      }
    }
  }

  lemma {:induction false} AssignmentSound(s: Stream, k: nat)
    ensures Sound(s, k, Assignment(s, k), 11)
    decreases |s.toks| - k, 6
  {
    if s.Code(k) == VAR && IsAssop(s.Code(k + 1)) {
      AssignmentSound(s, k + 2);
    } else {
      CondSound(s, k);
    }
  }

  // ---------------------------------------------------------------- the parse is complete

  /** After an expression of the given level, a token that cannot continue it. */
  ghost predicate Follows(level: int, code: int) {
    && (level >= 0 ==> !IsBinop(code))
    && (level >= 8 ==> code != AND)
    && (level >= 9 ==> code != OR)
    && (level >= 10 ==> code != QMARK)
    && (level >= 11 ==> !IsAssop(code))
  }

  lemma {:induction false} PrimaryComplete(s: Stream, k: nat, e: Expr)
    requires WellFormed(e) && Level(e) < 0 && End(s, k, e) > 0
    ensures Primary(s, k) == Done(e, End(s, k, e))
    decreases e, 0
  {
    match e
    case Paren(x) => AssignmentComplete(s, k + 1, x);
    case Unary(u, x) => PrimaryComplete(s, k + 1, x);
    case _ =>
  }

  lemma ClimbStep(s: Stream, l: Expr, m: nat, r: Expr, j: nat, p: nat)
    requires m <= |s.toks| && IsBinop(s.Code(m)) && Prec(s.Code(m)) < p
    requires UpTo(s, m + 1, Prec(s.Code(m))) == Done(r, j) && j <= |s.toks|
    ensures Climb(s, l, m, p) == Climb(s, Infix(s.Code(m), l, r), j, p)
  {
    hide UpTo;
  }

  lemma ClimbStops(s: Stream, e: Expr, j: nat, p: nat)
    requires j <= |s.toks| && Stops(s, j, p)
    ensures Climb(s, e, j, p) == Done(e, j)
  {
  }

  /** The heart of precedence climbing: once the tokens of e are read, the climb goes on as if
      e were its left operand. */
  lemma {:induction false} ClimbComplete(s: Stream, k: nat, e: Expr, p: nat)
    requires WellFormed(e) && Level(e) < p && Level(e) < 8 && End(s, k, e) > 0
    requires Level(e) < 0 || Stops(s, End(s, k, e), Level(e))
    ensures UpTo(s, k, p) == Climb(s, e, End(s, k, e), p)
    decreases e, 1
  {
    if Level(e) < 0 {
      PrimaryComplete(s, k, e);
    } else {
      hide UpTo, Climb;
      var Infix(op, l, r) := e;
      var m := End(s, k, l);
      assert End(s, k, e) == EndInfix(s, m, op, r) == End(s, m + 1, r);
      ClimbComplete(s, k, l, p);
      ClimbComplete(s, m + 1, r, Prec(op));
      ClimbStops(s, r, End(s, k, e), Prec(op));
      ClimbStep(s, l, m, r, End(s, k, e), p);
    }
  }

  lemma {:induction false} AndComplete(s: Stream, k: nat, e: Expr)
    requires WellFormed(e) && Level(e) <= 8 && End(s, k, e) > 0 && Follows(8, s.Code(End(s, k, e)))
    ensures AndExpr(s, k) == Done(e, End(s, k, e))
    decreases e, 2
  {
    hide UpTo, Primary;
    if Level(e) == 8 {
      ClimbComplete(s, k, e.l, MAX_PREC);
      AndComplete(s, End(s, k, e.l) + 1, e.r);
    } else {
      ClimbComplete(s, k, e, MAX_PREC);
    }
  }

  lemma {:induction false} OrComplete(s: Stream, k: nat, e: Expr)
    requires WellFormed(e) && Level(e) <= 9 && End(s, k, e) > 0 && Follows(9, s.Code(End(s, k, e)))
    ensures OrExpr(s, k) == Done(e, End(s, k, e))
    decreases e, 3
  {
    hide AndExpr;
    if Level(e) == 9 {
      AndComplete(s, k, e.l);
      OrComplete(s, End(s, k, e.l) + 1, e.r);
    } else {
      AndComplete(s, k, e);
    }
  }

  lemma {:induction false} CondComplete(s: Stream, k: nat, e: Expr)
    requires WellFormed(e) && Level(e) <= 10 && End(s, k, e) > 0 && Follows(10, s.Code(End(s, k, e)))
    ensures CondExpr(s, k) == Done(e, End(s, k, e))
    decreases e, 4
  {
    if e.Cond? {
      OrComplete(s, k, e.c);
      BranchesComplete(s, k, e);
    } else {
      OrComplete(s, k, e);
    }
  }

  lemma {:induction false} BranchesComplete(s: Stream, k: nat, e: Expr)
    requires e.Cond? && WellFormed(e) && End(s, k, e) > 0 && Follows(10, s.Code(End(s, k, e)))
    ensures var m := End(s, k, e.c);
            m > 0 && s.Code(m) == QMARK && m < |s.toks| && Branches(s, e.c, m) == Done(e, End(s, k, e))
    decreases e, 0
  {
    hide Assignment, CondExpr;
    var m := End(s, k, e.c);
    var n := EndInfix(s, m, QMARK, e.t);
    AssignmentComplete(s, m + 1, e.t);
    CondComplete(s, n + 1, e.f);
  }

  /** A conditional expression never starts with a name and an assignment operator. */
  lemma {:induction false} NoAssignmentAtStart(s: Stream, k: nat, e: Expr)
    requires WellFormed(e) && Level(e) <= 10 && End(s, k, e) > 0 && !IsAssop(s.Code(End(s, k, e)))
    ensures !(s.Code(k) == VAR && IsAssop(s.Code(k + 1)))
    decreases e
  {
    match e
    case Infix(op, l, r) => NoAssignmentAtStart(s, k, l);
    case Cond(c, t, f) => NoAssignmentAtStart(s, k, c);
    case _ =>
  }

  lemma {:induction false} AssignmentComplete(s: Stream, k: nat, e: Expr)
    requires WellFormed(e) && End(s, k, e) > 0 && Follows(11, s.Code(End(s, k, e)))
    ensures Assignment(s, k) == Done(e, End(s, k, e))
    decreases e, 5
  {
    if e.Assign? {
      AssignmentComplete(s, k + 2, e.e);
    } else {
      NoAssignmentAtStart(s, k, e);
      CondComplete(s, k, e);
    }
  }

  // ---------------------------------------------------------------- trees and token strings

  lemma {:induction false} ReadsConcat(s: Stream, k: nat, a: seq<Token>, b: seq<Token>)
    ensures Reads(s, k, a + b) <==> Reads(s, k, a) && Reads(s, k + |a|, b)
    decreases |a|
  {
    if a == [] {
      assert a + b == b;
    } else {
      assert (a + b)[1..] == a[1..] + b;
      ReadsConcat(s, k + 1, a[1..], b);
    }
  }

  lemma ReadsHead(s: Stream, k: nat, t: Token, b: seq<Token>)
    ensures Reads(s, k, [t] + b) <==> k < |s.toks| && SameToken(s.toks[k], t) && Reads(s, k + 1, b)
  {
    assert ([t] + b)[1..] == b;
  }

  ghost predicate YieldAt(s: Stream, k: nat, e: Expr)
  {
    && (Reads(s, k, Yield(e)) <==> End(s, k, e) > 0)
    && (End(s, k, e) > 0 ==> End(s, k, e) == k + |Yield(e)|)
  }

  lemma ReadsAround(s: Stream, k: nat, a: seq<Token>, op: int, b: seq<Token>)
    requires !HasValue(op) && !IsEnd(op)
    ensures Reads(s, k, a + ([Plain(op)] + b)) <==> Reads(s, k, a) && s.Code(k + |a|) == op && Reads(s, k + |a| + 1, b)
  {
    hide Reads;
    ReadsConcat(s, k, a, [Plain(op)] + b);
    ReadsHead(s, k + |a|, Plain(op), b);
  }

  lemma InfixIsYield(s: Stream, k: nat, e: Expr)
    requires e.Infix?
    requires YieldAt(s, k, e.l) && YieldAt(s, k + |Yield(e.l)| + 1, e.r)
    ensures YieldAt(s, k, e)
  {
    var l, r := Yield(e.l), Yield(e.r);
    assert Yield(e) == l + ([Plain(e.op)] + r) && End(s, k, e) == EndInfix(s, End(s, k, e.l), e.op, e.r);
    hide Yield, End, Reads;
    ReadsAround(s, k, l, e.op, r);
  }

  lemma CondIsYield(s: Stream, k: nat, e: Expr)
    requires e.Cond? && YieldAt(s, k, e.c) && YieldAt(s, k + |Yield(e.c)| + 1, e.t)
    requires YieldAt(s, k + |Yield(e.c)| + 1 + |Yield(e.t)| + 1, e.f)
    ensures YieldAt(s, k, e)
  {
    var c, t, f := Yield(e.c), Yield(e.t), Yield(e.f);
    assert Yield(e) == c + ([Plain(QMARK)] + (t + ([Plain(COLON)] + f)));
    assert End(s, k, e) == EndInfix(s, EndInfix(s, End(s, k, e.c), QMARK, e.t), COLON, e.f);
    hide Yield, End, Reads;
    var rest := t + ([Plain(COLON)] + f);
    ReadsAround(s, k, c, QMARK, rest);
    ReadsAround(s, k + |c| + 1, t, COLON, f);
  }

  lemma ParenIsYield(s: Stream, k: nat, e: Expr)
    requires e.Paren? && YieldAt(s, k + 1, e.e)
    ensures YieldAt(s, k, e)
  {
    var x := Yield(e.e);
    ReadsHead(s, k, Plain(LPAREN), x + [Plain(RPAREN)]);
    ReadsConcat(s, k + 1, x, [Plain(RPAREN)]);
    ReadsHead(s, k + 1 + |x|, Plain(RPAREN), []);
    assert [Plain(RPAREN)] + [] == [Plain(RPAREN)];
  }

  lemma PrefixIsYield(s: Stream, k: nat, e: Expr)
    requires WellFormed(e) && (e.Unary? || e.Assign?)
    requires YieldAt(s, if e.Unary? then k + 1 else k + 2, e.e)
    ensures YieldAt(s, k, e)
  {
    var x := Yield(e.e);
    if e.Unary? {
      ReadsHead(s, k, Plain(e.u), x);
    } else {
      ReadsHead(s, k, Token(VAR, Name(e.x)), [Plain(e.aop)] + x);
      ReadsHead(s, k + 1, Plain(e.aop), x);
    }
  }

  lemma LeafIsYield(s: Stream, k: nat, e: Expr)
    requires (e.Num? || e.Var?)
    ensures YieldAt(s, k, e)
  {
    ReadsHead(s, k, Yield(e)[0], []);
    assert Yield(e) == [Yield(e)[0]] + [];
  }

  /** The stream spells a tree exactly when its tokens are the tree's token string. */
  lemma {:induction false} EndIsYield(s: Stream, k: nat, e: Expr)
    requires WellFormed(e)
    ensures YieldAt(s, k, e)
    decreases e
  {
    hide YieldAt, Yield, End;
    if e.Num? || e.Var? {
      LeafIsYield(s, k, e);
    } else if e.Paren? {
      EndIsYield(s, k + 1, e.e);
      ParenIsYield(s, k, e);
    } else if e.Infix? {
      EndIsYield(s, k, e.l);
      EndIsYield(s, k + |Yield(e.l)| + 1, e.r);
      InfixIsYield(s, k, e);
    } else if e.Cond? {
      EndIsYield(s, k, e.c);
      EndIsYield(s, k + |Yield(e.c)| + 1, e.t);
      EndIsYield(s, k + |Yield(e.c)| + 1 + |Yield(e.t)| + 1, e.f);
      CondIsYield(s, k, e);
    } else {
      EndIsYield(s, if e.Unary? then k + 1 else k + 2, e.e);
      PrefixIsYield(s, k, e);
    }
  }

  /** The parser accepts a text exactly when some well-formed tree is written that way, and
      then finds that tree: the grammar is unambiguous and precedence climbing implements it. */
  lemma ParseIsTheGrammar(s: Stream, e: Expr)
    ensures ParseAll(s) == Done(e, |s.toks|) <==>
            WellFormed(e) && s.last == EOF && |s.toks| == |Yield(e)| && Reads(s, 0, Yield(e))
    ensures ParseAll(s).Done? ==> ParseAll(s).next == |s.toks|
  {
    AssignmentSound(s, 0);
    if WellFormed(e) {
      EndIsYield(s, 0, e);
      if End(s, 0, e) == |s.toks| && s.last == EOF {
        AssignmentComplete(s, 0, e);
      }
    }
  }
}
