/** The arithmetic evaluator of sh/arith_yacc.c: one pass over the tokens, evaluating while it
    parses, against evaluation of the syntax tree. */
module ArithEval {
  import opened ArithValue
  import opened ArithGrammar
  import opened ArithLex

  // ---------------------------------------------------------------- reference meaning

  /** Shell variables, and the options that make a reference or assignment fail. */
  datatype Env = Env(vars: map<string, string>, readonly: set<string>, nounset: bool)

  /** arith_lookupvarint */
  function Lookup(env: Env, x: string): Res {
    if x !in env.vars && env.nounset then Err(NotSet)
    else if x !in env.vars || env.vars[x] == "" then Ok(0)
    else
      var n := StrToArith(env.vars[x], 0);
      if n.range || n.end != |env.vars[x]| then Err(Conversion) else Ok(n.value)
  }

  /** A value with the variables after it, or an error with the variables it leaves behind. */
  datatype Outcome = Value(v: Int64, env: Env) | Raised(error: Error, env: Env)

  function Store(env: Env, x: string, v: Int64): Outcome {
    if x in env.readonly then Raised(ReadOnly, env)
    else Value(v, env.(vars := env.vars[x := Format(v)]))
  }

  function ApplyUnary(u: int, v: Int64): Int64 {
    if u == SUB then Wrap(0 - v) else if u == NOT then FromBool(v == 0) else if u == BNOT then -1 - v else v
  }

  /** Apply an operator to two values in an environment. */
  function Combine2(op: BinCode, a: Int64, b: Int64, env: Env): Outcome {
    match DoBinop(op, a, b)
    case Ok(v) => Value(v, env)
    case Err(e) => Raised(e, env)
  }

  /** The operator of a compound assignment: its token is 11 more (sh/arith_yacc.c). */
  function Underlying(aop: AssCode): BinCode
    requires aop != ASS
  {
    aop - 11
  }

  /** The tree evaluated as section 6.5 of ISO C prescribes: left operands first, the operands
      that short-circuiting skips not at all, and the variable of a compound assignment read
      after its right-hand side. */
  function Eval(e: Expr, env: Env): Outcome {
    match e
    case Num(v) => Value(v, env)
    case Var(x) => (match Lookup(env, x) case Ok(v) => Value(v, env) case Err(k) => Raised(k, env))
    case Paren(x) => Eval(x, env)
    case Unary(u, x) =>
      var r := Eval(x, env);
      if r.Raised? then r else Value(ApplyUnary(u, r.v), r.env)
    case Infix(op, l, r) =>
      var a := Eval(l, env);
      if a.Raised? then a
      else if op == AND && a.v == 0 then Value(0, a.env)
      else if op == OR && a.v != 0 then Value(1, a.env)
      else
        var b := Eval(r, a.env);
        if b.Raised? then b
        else if op == AND || op == OR then Value(FromBool(b.v != 0), b.env)
        else Combine2(op, a.v, b.v, b.env)
    case Cond(c, t, f) =>
      var a := Eval(c, env);
      if a.Raised? then a else if a.v != 0 then Eval(t, a.env) else Eval(f, a.env)
    case Assign(x, aop, y) =>
      var b := Eval(y, env);
      if b.Raised? then b
      else if aop == ASS then Store(b.env, x, b.v)
      else match Lookup(b.env, x)
        case Err(k) => Raised(k, b.env)
        case Ok(a) =>
          var r := Combine2(Underlying(aop), a, b.v, b.env);
          if r.Raised? then r else Store(r.env, x, r.v)
  }

  /** A variable just assigned is read back with the assigned value. */
  lemma StoreThenLookup(env: Env, x: string, v: Int64)
    requires Store(env, x, v).Value?
    ensures Lookup(Store(env, x, v).env, x) == Ok(v)
    ensures forall y :: y != x ==> Lookup(Store(env, x, v).env, y) == Lookup(env, y)
  {
    FormatRoundTrip(v);
  }

  // ---------------------------------------------------------------- evaluating while parsing

  /** What a parsing function must have done when it returns r: under noeval it has only
      consumed the tokens, without reading or writing a variable or dividing; otherwise its
      value and effect are those of the tree just read. */
  ghost predicate Agrees(p: Parse, noeval: bool, env0: Env, r: Res, env: Env) {
    && (p.Fail? ==> r.Err?)
    && (noeval ==> env == env0 && r.Ok? == p.Done? && (p.Fail? ==> r == Err(Syntax)))
    && (!noeval && p.Done? ==>
          match Eval(p.e, env0)
          case Value(v, env1) => r == Ok(v) && env == env1
          case Raised(k, env1) => r == Err(k) && env == env1)
  }

  lemma ParenAgrees(b: Parse, closed: bool, noeval: bool, env0: Env, rb: Res, env: Env)
    requires Agrees(b, noeval, env0, rb, env)
    ensures if b.Done? && closed then Agrees(Done(Paren(b.e), b.next + 1), noeval, env0, rb, env)
            else Agrees(Fail, noeval, env0, if rb.Ok? then Err(Syntax) else rb, env)
  {
  }

  lemma UnaryAgrees(u: UnCode, b: Parse, noeval: bool, env0: Env, rb: Res, env: Env)
    requires Agrees(b, noeval, env0, rb, env)
    ensures var p := if b.Done? then Done(Unary(u, b.e), b.next) else Fail;
            Agrees(p, noeval, env0, if rb.Ok? then Ok(ApplyUnary(u, rb.value)) else rb, env)
  {
    hide ApplyUnary;
  }

  lemma LeafAgrees(s: Stream, i: nat, noeval: bool, env: Env, junk: Int64)
    requires HasValue(s.Code(i))
    ensures s.Code(i) == NUM ==> Agrees(ArithGrammar.Primary(s, i), noeval, env, Ok(s.At(i).yy.val), env)
    ensures s.Code(i) == VAR ==> Agrees(ArithGrammar.Primary(s, i), noeval, env, if noeval then Ok(junk)
            else Lookup(env, s.At(i).yy.name), env)
  {
    hide Lookup;
    PrimaryUnfolds(s, i);
  }

  /** The left operand l and what follows the operator after it, as one expression. */
  function Joined(s: Stream, l: Parse, op: BinCode): Parse
    requires l.Done?
  {
    var b := UpTo(s, l.next + 1, Prec(op));
    if b.Done? then Done(Infix(op, l.e, b.e), b.next) else Fail
  }

  /** The left operand is done; the right one has been run, or skipped, after it. */
  lemma BinopAgrees(op: BinCode, l: Parse, b: Parse, noeval: bool, env0: Env, ra: Res, env1: Env, rb: Res, env2: Env)
    requires l.Done? && ra.Ok? && Agrees(l, noeval, env0, ra, env1) && Agrees(b, noeval, env1, rb, env2)
    ensures var p := if b.Done? then Done(Infix(op, l.e, b.e), b.next) else Fail;
            Agrees(p, noeval, env0, if rb.Err? || noeval then rb else DoBinop(op, ra.value, rb.value), env2)
  {
    hide DoBinop;
  }

  lemma FailAgrees(noeval: bool, env: Env)
    ensures Agrees(Fail, noeval, env, Err(Syntax), env)
  {
  }

  lemma AndAgrees(l: Parse, b: Parse, noeval: bool, env0: Env, ra: Res, env1: Env, rb: Res, env2: Env)
    requires l.Done? && ra.Ok? && Agrees(l, noeval, env0, ra, env1)
             && Agrees(b, noeval || ra.value == 0, env1, rb, env2)
    ensures var p := if b.Done? then Done(Infix(AND, l.e, b.e), b.next) else Fail;
            Agrees(p, noeval, env0, if rb.Err? then rb else Ok(FromBool(ra.value != 0 && rb.value != 0)), env2)
  {
  }

  lemma OrAgrees(l: Parse, b: Parse, noeval: bool, env0: Env, ra: Res, env1: Env, rb: Res, env2: Env)
    requires l.Done? && ra.Ok? && Agrees(l, noeval, env0, ra, env1)
             && Agrees(b, noeval || ra.value != 0, env1, rb, env2)
    ensures var p := if b.Done? then Done(Infix(OR, l.e, b.e), b.next) else Fail;
            Agrees(p, noeval, env0, if rb.Err? then rb else Ok(FromBool(ra.value != 0 || rb.value != 0)), env2)
  {
  }

  /** Both branches of ?: are parsed, the one not chosen under noeval. */
  lemma CondAgrees(c: Parse, t: Parse, b: Parse, noeval: bool, env0: Env, ra: Res, env1: Env,
                   rt: Res, env2: Env, rb: Res, env3: Env)
    requires c.Done? && ra.Ok? && Agrees(c, noeval, env0, ra, env1)
    requires t.Done? && rt.Ok? && Agrees(t, noeval || ra.value == 0, env1, rt, env2)
    requires Agrees(b, noeval || ra.value != 0, env2, rb, env3)
    ensures Agrees(MakeCond(c, t, b), noeval, env0, if rb.Err? || ra.value == 0 then rb else rt, env3)
    ensures rb.Ok? ==> MakeCond(c, t, b).Done? && MakeCond(c, t, b).next == b.next
  {
  }

  /** An error in the first branch ends the evaluation, whatever follows it. */
  lemma CondFails(c: Parse, t: Parse, p: Parse, noeval: bool, env0: Env, ra: Res, env1: Env, rt: Res, env2: Env)
    requires c.Done? && ra.Ok? && Agrees(c, noeval, env0, ra, env1)
             && Agrees(t, noeval || ra.value == 0, env1, rt, env2)
    requires StartsWith(p, c, t) && (rt.Ok? ==> p.Fail?)
    ensures Agrees(p, noeval, env0, if rt.Err? then rt else Err(Syntax), env2)
  {
  }

  lemma AssignAgrees(x: string, aop: AssCode, b: Parse, noeval: bool, env0: Env, rb: Res, env1: Env)
    requires Agrees(b, noeval, env0, rb, env1) && (rb.Err? || noeval)
    ensures Agrees(if b.Done? then Done(Assign(x, aop, b.e), b.next) else Fail, noeval, env0, rb, env1)
  {
  }

  lemma PrimaryUnfolds(s: Stream, k: nat)
    ensures HasValue(s.Code(k)) ==> k < |s.toks|
    ensures s.Code(k) == NUM ==> s.At(k).yy.Val? && ArithGrammar.Primary(s, k) == Done(Num(s.At(k).yy.val), k + 1)
    ensures s.Code(k) == VAR ==> s.At(k).yy.Name? && ArithGrammar.Primary(s, k) == Done(Var(s.At(k).yy.name), k + 1)
    ensures s.Code(k) == LPAREN ==>
      var b := ArithGrammar.Assignment(s, k + 1);
      k < |s.toks| && ArithGrammar.Primary(s, k) == if b.Done? && s.Code(b.next) == RPAREN
          then Done(Paren(b.e), b.next + 1) else Fail
    ensures IsUnop(s.Code(k)) ==>
      var b := ArithGrammar.Primary(s, k + 1);
      k < |s.toks| && ArithGrammar.Primary(s, k) == if b.Done? then Done(Unary(s.Code(k), b.e), b.next) else Fail
    ensures !HasValue(s.Code(k)) && s.Code(k) != LPAREN && !IsUnop(s.Code(k)) ==> ArithGrammar.Primary(s, k) == Fail
  {
  }

  /** After the right-hand side: read the variable if the assignment is compound, then store. */
  lemma StoreAgrees(x: string, aop: AssCode, b: Parse, env0: Env, rb: Res, env1: Env, r: Res)
    requires b.Done? && rb.Ok? && Agrees(b, false, env0, rb, env1)
    requires if aop == ASS then r == rb
             else if Lookup(env1, x).Err? then r == Lookup(env1, x)
             else r == DoBinop(Underlying(aop), Lookup(env1, x).value, rb.value)
    ensures var p := Done(Assign(x, aop, b.e), b.next);
            if r.Err? then Agrees(p, false, env0, r, env1)
            else match Store(env1, x, r.value)
              case Value(w, env2) => Agrees(p, false, env0, Ok(w), env2)
              case Raised(e, env2) => Agrees(p, false, env0, Err(e), env2)
  {
    hide DoBinop, Lookup;
  }

  lemma AndUnfolds(s: Stream, k: nat)
    ensures var a, p := UpTo(s, k, MAX_PREC), ArithGrammar.AndExpr(s, k);
            && (p.Done? ==> a.Done? && LeftSpine(p.e, a.e))
            && (a.Done? && s.Code(a.next) != AND ==> p == a)
            && (a.Done? && s.Code(a.next) == AND ==>
                  var b := ArithGrammar.AndExpr(s, a.next + 1);
                  a.next < |s.toks| && p == if b.Done? then Done(Infix(AND, a.e, b.e), b.next) else Fail)
  {
  }

  lemma OrUnfolds(s: Stream, k: nat)
    ensures var a, p := ArithGrammar.AndExpr(s, k), ArithGrammar.OrExpr(s, k);
            && (p.Done? ==> a.Done? && LeftSpine(p.e, a.e))
            && (a.Done? && s.Code(a.next) != OR ==> p == a)
            && (a.Done? && s.Code(a.next) == OR ==>
                  var b := ArithGrammar.OrExpr(s, a.next + 1);
                  a.next < |s.toks| && p == if b.Done? then Done(Infix(OR, a.e, b.e), b.next) else Fail)
  {
  }

  lemma CondUnfolds(s: Stream, k: nat)
    ensures var a, p := ArithGrammar.OrExpr(s, k), ArithGrammar.CondExpr(s, k);
            && (p.Done? ==> a.Done? && LeftSpine(p.e, a.e))
            && (a.Done? && s.Code(a.next) != QMARK ==> p == a)
            && (a.Done? && s.Code(a.next) == QMARK ==> a.next < |s.toks| && p == Branches(s, a.e, a.next))
  {
  }

  /** p, if it succeeds, is a conditional with condition c and first branch t. */
  ghost predicate StartsWith(p: Parse, c: Parse, t: Parse) {
    p.Done? ==> c.Done? && t.Done? && p.e.Cond? && p.e.c == c.e && p.e.t == t.e
  }

  /** The conditional with condition c, first branch t and what b found for the other. */
  function MakeCond(c: Parse, t: Parse, b: Parse): Parse
    requires c.Done? && t.Done?
  {
    if b.Done? then Done(Cond(c.e, t.e, b.e), b.next) else Fail
  }

  lemma BranchesUnfolds(s: Stream, c: Parse)
    requires c.Done? && c.next < |s.toks|
    ensures StartsWith(Branches(s, c.e, c.next), c, ArithGrammar.Assignment(s, c.next + 1))
    ensures var t := ArithGrammar.Assignment(s, c.next + 1);
            if t.Done? && s.Code(t.next) == COLON then
              t.next < |s.toks| && Branches(s, c.e, c.next) == MakeCond(c, t, ArithGrammar.CondExpr(s, t.next + 1))
            else Branches(s, c.e, c.next).Fail?
  {
  }

  lemma AssignmentUnfolds(s: Stream, k: nat)
    ensures if s.Code(k) == VAR && IsAssop(s.Code(k + 1)) then
              var b := ArithGrammar.Assignment(s, k + 2);
              k + 1 < |s.toks| && s.At(k).yy.Name? &&
              ArithGrammar.Assignment(s, k) == if b.Done? then Done(Assign(s.At(k).yy.name, s.Code(k + 1), b.e), b.next)
                  else Fail
            else ArithGrammar.Assignment(s, k) == ArithGrammar.CondExpr(s, k)
  {
  }

  lemma {:induction false} ReadsItself(s: Stream, k: nat, ts: seq<Token>)
    requires k + |ts| <= |s.toks| && s.toks[k..k + |ts|] == ts
    ensures Reads(s, k, ts)
    decreases |ts|
  {
    if ts != [] {
      assert s.toks[k] == ts[0] && s.toks[k + 1..k + |ts|] == ts[1..];
      ReadsItself(s, k + 1, ts[1..]);
    }
  }

  /** The tokens of a well-formed tree parse to that tree. */
  lemma WrittenParses(e: Expr)
    requires WellFormed(e)
    requires Tokens(Yield(e), EOF).Valid()
    ensures ParseAll(Tokens(Yield(e), EOF)) == Done(e, |Yield(e)|)
  {
    var s: Stream := Tokens(Yield(e), EOF);
    assert s.toks[0..0 + |Yield(e)|] == Yield(e);
    ReadsItself(s, 0, Yield(e));
    ParseIsTheGrammar(s, e);
  }

  lemma UpToUnfolds(s: Stream, k: nat, p: nat)
    ensures var a := ArithGrammar.Primary(s, k);
            && UpTo(s, k, p) == (if a.Done? then Climb(s, a.e, a.next, p) else Fail)
            && (UpTo(s, k, p).Done? ==> LeftSpine(UpTo(s, k, p).e, a.e))
  {
    var a := ArithGrammar.Primary(s, k);
    if UpTo(s, k, p).Done? { ClimbSpine(s, a.e, a.next, p); }
  }

  lemma ClimbUnfolds(s: Stream, l: Parse, p: nat)
    requires l.Done? && l.next <= |s.toks|
    ensures var op := s.Code(l.next);
            if BINOP_MIN <= op < BINOP_MAX && Prec(op) < p then
              var joined := Joined(s, l, op);
              l.next < |s.toks| && (joined.Done? ==> l.next < joined.next <= |s.toks|) &&
              Climb(s, l.e, l.next, p) == (if joined.Done? then Climb(s, joined.e, joined.next, p) else Fail) &&
              (Climb(s, l.e, l.next, p).Done? ==> joined.Done? && LeftSpine(Climb(s, l.e, l.next, p).e, joined.e))
            else Climb(s, l.e, l.next, p) == l
  {
    if IsBinop(s.Code(l.next)) && Prec(s.Code(l.next)) < p {
      var joined := Joined(s, l, s.Code(l.next));
      if joined.Done? && Climb(s, l.e, l.next, p).Done? {
        ClimbSpine(s, joined.e, joined.next, p);
      }
    }
  }

  /** Evaluating e starts by evaluating l. */
  ghost predicate LeftSpine(e: Expr, l: Expr) {
    e == l || (e.Infix? && LeftSpine(e.l, l)) || (e.Cond? && LeftSpine(e.c, l))
  }

  lemma {:induction false} SpineTrans(e: Expr, m: Expr, l: Expr)
    requires LeftSpine(e, m) && LeftSpine(m, l)
    ensures LeftSpine(e, l)
    decreases e
  {
    if e != m { SpineTrans(if e.Infix? then e.l else e.c, m, l); }
  }

  lemma {:induction false} ClimbSpine(s: Stream, a: Expr, k: nat, p: nat)
    requires k <= |s.toks| && Climb(s, a, k, p).Done?
    ensures LeftSpine(Climb(s, a, k, p).e, a)
    decreases |s.toks| - k
  {
    if IsBinop(s.Code(k)) && Prec(s.Code(k)) < p {
      var b := UpTo(s, k + 1, Prec(s.Code(k)));
      var a' := Infix(s.Code(k), a, b.e);
      ClimbSpine(s, a', b.next, p);
      assert LeftSpine(a', a);
      SpineTrans(Climb(s, a, k, p).e, a', a);
    }
  }

  /** An error in an operand on the left spine is the error of the whole expression. */
  lemma {:induction false} SpineError(e: Expr, l: Expr, env: Env)
    requires LeftSpine(e, l) && Eval(l, env).Raised?
    ensures Eval(e, env) == Eval(l, env)
    decreases e
  {
    if e != l { SpineError(if e.Infix? then e.l else e.c, l, env); }
  }

  /** Parsing goes on after an operand that failed; the failure is still the outcome. */
  lemma ErrorStays(p: Parse, whole: Parse, noeval: bool, env0: Env, r: Res, env: Env)
    requires Agrees(p, noeval, env0, r, env) && r.Err?
    requires whole.Done? ==> p.Done? && LeftSpine(whole.e, p.e)
    ensures Agrees(whole, noeval, env0, r, env)
  {
    if whole.Done? && !noeval { SpineError(whole.e, p.e, env0); }
  }

  // ---------------------------------------------------------------- the one-pass evaluator

  class Arith {
    var env: Env
    var lastToken: int
    var yylval: YyVal
    var arithBuf: nat
    const text: string
    ghost const s: Stream
    ghost var k: nat

    /** k tokens have been scanned, the last of which left its value in yylval. */
    ghost predicate Valid()
      reads `arithBuf, `k, `yylval
    {
      && arithBuf <= |text|
      && Scan(text, arithBuf) == Tokens(if k <= |s.toks| then s.toks[k..] else [], s.last)
      && (0 < k <= |s.toks| && HasValue(s.Code(k - 1)) ==> yylval == s.At(k - 1).yy)
    }

    /** Token j has been scanned as the look-ahead. */
    ghost predicate Looking(j: nat)
      reads this
    {
      Valid() && k == j + 1 && lastToken == s.Code(j)
    }

    /** `token` is token i, scanned last. */
    ghost predicate Starting(i: nat, token: int)
      reads this
    {
      Valid() && k == i + 1 && token == s.Code(i) && (HasValue(token) ==> yylval == s.At(i).yy)
    }

    /** `token`, with its value in val, and `op` are tokens i and i + 1, scanned last. */
    ghost predicate Holding(i: nat, token: int, val: YyVal, op: int)
      reads this
    {
      Starting(i + 1, op) && token == s.Code(i) && (HasValue(token) ==> val == s.At(i).yy)
    }

    /** What every parsing function promises. */
    ghost predicate Result(p: Parse, noeval: bool, env0: Env, r: Res)
      reads this
    {
      Valid() && Agrees(p, noeval, env0, r, env) && (r.Ok? ==> p.Done? && Looking(p.next))
    }

    lemma Unpack(p: Parse, noeval: bool, env0: Env, r: Res)
      requires Result(p, noeval, env0, r)
      ensures Agrees(p, noeval, env0, r, env) && (r.Ok? ==> p.Done? && Looking(p.next) && lastToken == s.Code(p.next))
    {
    }

    /** Another parse and result, at the same point: errors only need to agree. */
    lemma Pack(p: Parse, noeval: bool, env0: Env, r: Res, p': Parse, noeval': bool, env0': Env, r': Res)
      requires Result(p', noeval', env0', r') && Agrees(p, noeval, env0, r, env)
      requires r.Ok? ==> p.Done? && r'.Ok? && p'.next == p.next
      ensures Result(p, noeval, env0, r)
    {
    }

    constructor (text: string, env: Env)
      ensures Valid() && k == 0 && s == Scan(text, 0) && this.env == env
    {
      this.text, this.env := text, env;
      s := Scan(text, 0);
      k, arithBuf, lastToken, yylval := 0, 0, 0, Val(0);
      new;
      assert s.toks[0..] == s.toks;
    }

    method Yylex() returns (code: int)
      requires Valid()
      modifies this
      ensures Starting(old(k), code) && env == old(env) && lastToken == old(lastToken)
    {
      hide Lex;
      ghost var at := arithBuf;
      code, arithBuf, yylval := ArithLex.Yylex(text, arithBuf, yylval);
      k := k + 1;
      if code == EOF || code == BAD {
        ScanPastEnd(text, at);
      } else {
        assert Scan(text, at).toks[1..] == Scan(text, arithBuf).toks;
        assert s.toks[k - 1..][0] == s.toks[k - 1] && s.toks[k - 1..][1..] == s.toks[k..];
      }
    }

    method YylexOne(ghost j: nat) returns (token: int)
      requires Looking(j)
      modifies this
      ensures Starting(j + 1, token) && env == old(env)
    {
      hide Valid;
      token := Yylex();
    }

    /** token = yylex(); val = yylval; op = yylex(); */
    method YylexPair(ghost j: nat) returns (token: int, val: YyVal, op: int)
      requires Looking(j)
      modifies this
      ensures Holding(j + 1, token, val, op) && env == old(env)
    {
      hide Valid;
      token := Yylex();
      val := yylval;
      op := Yylex();
    }

    /** `*val = yylval` and one more yylex before going on with the next token as the first. */
    method Shift(op: int, ghost i: nat) returns (val: YyVal, next: int)
      requires Starting(i, op)
      modifies this
      ensures Holding(i, op, val, next) && env == old(env)
    {
      hide Valid;
      val := yylval;
      next := Yylex();
    }

    method {:induction false} Primary(token: int, val: YyVal, op: int, noeval: bool, ghost i: nat) returns (r: Res)
      requires Holding(i, token, val, op)
      modifies this
      ensures Result(ArithGrammar.Primary(s, i), noeval, old(env), r)
      decreases |s.toks| - i, 1
    {
      PrimaryUnfolds(s, i);
      hide Valid, Tokens.Code, Tokens.At, Agrees, ArithGrammar.Primary, ArithGrammar.Assignment, Lookup, ApplyUnary;
      if token == LPAREN {
        r := Parenthesized(op, noeval, i);
      } else if token == NUM {
        LeafAgrees(s, i, noeval, env, 0);
        lastToken := op;
        return Ok(val.val);
      } else if token == VAR {
        lastToken := op;
        var junk: Int64 := *;
        LeafAgrees(s, i, noeval, env, junk);
        if noeval {
          return Ok(junk);
        }
        return Lookup(env, val.name);
      } else if IsUnop(token) {
        var v, next := Shift(op, i + 1);
        r := Primary(op, v, next, noeval, i + 1);
        UnaryAgrees(token, ArithGrammar.Primary(s, i + 1), noeval, old(env), r, env);
        if r.Ok? {
          r := Ok(ApplyUnary(token, r.value));
        }
      } else {
        FailAgrees(noeval, env);
        r := Err(Syntax);
      }
    }

    method {:induction false} Parenthesized(op: int, noeval: bool, ghost i: nat) returns (r: Res)
      requires Starting(i + 1, op) && s.Code(i) == LPAREN
      modifies this
      ensures Result(ArithGrammar.Primary(s, i), noeval, old(env), r)
      decreases |s.toks| - i, 0
    {
      PrimaryUnfolds(s, i);
      hide Valid, Tokens.Code, Agrees, ArithGrammar.Primary, ArithGrammar.Assignment;
      ghost var b := ArithGrammar.Assignment(s, i + 1);
      r := Assignment(op, noeval, i + 1);
      ParenAgrees(b, b.Done? && s.Code(b.next) == RPAREN, noeval, old(env), r, env);
      if r.Err? {
        return;
      }
      if lastToken != RPAREN {
        return Err(Syntax);
      }
      lastToken := Yylex();
    }

    /** A primary and the operators that bind tighter than `limit` (binop, and the right operand in binop2). */
    method {:induction false} Operand(token: int, val: YyVal, op: int, limit: nat, noeval: bool, ghost i: nat)
        returns (r: Res)
      requires Holding(i, token, val, op)
      modifies this
      ensures Result(UpTo(s, i, limit), noeval, old(env), r)
      decreases |s.toks| - i, 3
    {
      UpToUnfolds(s, i, limit);
      hide *;
      ghost var a := ArithGrammar.Primary(s, i);
      r := Primary(token, val, op, noeval, i);
      Unpack(a, noeval, old(env), r);
      if r.Err? {
        ErrorStays(a, UpTo(s, i, limit), noeval, old(env), r, env);
        Pack(UpTo(s, i, limit), noeval, old(env), r, a, noeval, old(env), r);
      } else if BINOP_MIN <= lastToken < BINOP_MAX && Prec(lastToken) < limit {
        r := Binop2(r, lastToken, limit, noeval, old(env), a);
      } else {
        ClimbUnfolds(s, a, limit);
      }
    }

    /** binop2: ra is the value of the left operand l, which ended at the operator. */
    method {:induction false} Binop2(ra0: Res, op0: int, precedence: nat, noeval: bool, ghost env0: Env,
                                     ghost l0: Parse)
      returns (r: Res)
      requires ra0.Ok? && l0.Done? && l0.next <= |s.toks| && op0 == lastToken && Result(l0, noeval, env0, ra0)
      requires BINOP_MIN <= op0 < BINOP_MAX && Prec(op0) < precedence
      modifies this
      ensures Result(Climb(s, l0.e, l0.next, precedence), noeval, env0, r)
      decreases |s.toks| - l0.next, 2
    {
      var op := op0;
      ghost var l := l0;
      r := ra0;
      while true
        invariant r.Ok? && l.Done? && l0.next <= l.next <= |s.toks| && op == lastToken && Result(l, noeval, env0, r)
        invariant BINOP_MIN <= op < BINOP_MAX && Prec(op) < precedence
        invariant Climb(s, l0.e, l0.next, precedence) == Climb(s, l.e, l.next, precedence)
        decreases |s.toks| - l.next
      {
        Unpack(l, noeval, env0, r);
        ClimbUnfolds(s, l, precedence);
        ghost var joined := Joined(s, l, op);
        hide *;
        r := BinopStep(r, op, noeval, env0, l);
        Unpack(joined, noeval, env0, r);
        if r.Err? {
          ErrorStays(joined, Climb(s, l.e, l.next, precedence), noeval, env0, r, env);
          Pack(Climb(s, l.e, l.next, precedence), noeval, env0, r, joined, noeval, env0, r);
          return;
        }
        l := joined;
        if !(BINOP_MIN <= lastToken < BINOP_MAX && Prec(lastToken) < precedence) {
          ClimbUnfolds(s, l, precedence);
          return;
        }
        op := lastToken;
      }
    }

    /** One turn of binop2's loop: the right operand, then the operator. */
    method {:induction false} BinopStep(ra: Res, op: BinCode, noeval: bool, ghost env0: Env, ghost l: Parse)
        returns (r: Res)
      requires ra.Ok? && l.Done? && l.next < |s.toks| && op == lastToken && Result(l, noeval, env0, ra)
      modifies this
      ensures Result(Joined(s, l, op), noeval, env0, r)
      decreases |s.toks| - l.next, 1
    {
      ghost var env1, b := env, UpTo(s, l.next + 1, Prec(op));
      assert Joined(s, l, op) == if b.Done? then Done(Infix(op, l.e, b.e), b.next) else Fail;
      hide *;
      Unpack(l, noeval, env0, ra);
      var token, val, next := YylexPair(l.next);
      var rb := Operand(token, val, next, Prec(op), noeval, l.next + 1);
      Unpack(b, noeval, env1, rb);
      BinopAgrees(op, l, b, noeval, env0, ra, env1, rb, env);
      r := if rb.Err? || noeval then rb else DoBinop(op, ra.value, rb.value);
      Pack(Joined(s, l, op), noeval, env0, r, b, noeval, env1, rb);
    }

    method {:induction false} AndExpr(token: int, val: YyVal, op: int, noeval: bool, ghost i: nat) returns (r: Res)
      requires Holding(i, token, val, op)
      modifies this
      ensures Result(ArithGrammar.AndExpr(s, i), noeval, old(env), r)
      decreases |s.toks| - i, 4
    {
      AndUnfolds(s, i);
      hide *;
      ghost var l, p := UpTo(s, i, MAX_PREC), ArithGrammar.AndExpr(s, i);
      r := Operand(token, val, op, MAX_PREC, noeval, i);
      Unpack(l, noeval, old(env), r);
      if r.Err? {
        ErrorStays(l, p, noeval, old(env), r, env);
        Pack(p, noeval, old(env), r, l, noeval, old(env), r);
      } else if lastToken == AND {
        r := AndRest(r, noeval, old(env), l, p);
      }
    }

    /** The part of and after '&&'. */
    method {:induction false} AndRest(ra: Res, noeval: bool, ghost env0: Env, ghost l: Parse, ghost p: Parse)
        returns (r: Res)
      requires ra.Ok? && l.Done? && l.next < |s.toks| && Result(l, noeval, env0, ra)
      requires var b := ArithGrammar.AndExpr(s, l.next + 1);
               p == if b.Done? then Done(Infix(AND, l.e, b.e), b.next) else Fail
      modifies this
      ensures Result(p, noeval, env0, r)
      decreases |s.toks| - l.next, 0
    {
      hide *;
      Unpack(l, noeval, env0, ra);
      ghost var env1, b := env, ArithGrammar.AndExpr(s, l.next + 1);
      var token, val, op := YylexPair(l.next);
      var rb := AndExpr(token, val, op, noeval || ra.value == 0, l.next + 1);
      Unpack(b, noeval || ra.value == 0, env1, rb);
      AndAgrees(l, b, noeval, env0, ra, env1, rb, env);
      r := if rb.Err? then rb else Ok(FromBool(ra.value != 0 && rb.value != 0));
      Pack(p, noeval, env0, r, b, noeval || ra.value == 0, env1, rb);
    }

    method {:induction false} OrExpr(token: int, val: YyVal, op: int, noeval: bool, ghost i: nat) returns (r: Res)
      requires Holding(i, token, val, op)
      modifies this
      ensures Result(ArithGrammar.OrExpr(s, i), noeval, old(env), r)
      decreases |s.toks| - i, 5
    {
      OrUnfolds(s, i);
      hide *;
      ghost var l, p := ArithGrammar.AndExpr(s, i), ArithGrammar.OrExpr(s, i);
      r := AndExpr(token, val, op, noeval, i);
      Unpack(l, noeval, old(env), r);
      if r.Err? {
        ErrorStays(l, p, noeval, old(env), r, env);
        Pack(p, noeval, old(env), r, l, noeval, old(env), r);
      } else if lastToken == OR {
        r := OrRest(r, noeval, old(env), l, p);
      }
    }

    /** The part of or after '||'. */
    method {:induction false} OrRest(ra: Res, noeval: bool, ghost env0: Env, ghost l: Parse, ghost p: Parse)
        returns (r: Res)
      requires ra.Ok? && l.Done? && l.next < |s.toks| && Result(l, noeval, env0, ra)
      requires var b := ArithGrammar.OrExpr(s, l.next + 1);
               p == if b.Done? then Done(Infix(OR, l.e, b.e), b.next) else Fail
      modifies this
      ensures Result(p, noeval, env0, r)
      decreases |s.toks| - l.next, 0
    {
      hide *;
      Unpack(l, noeval, env0, ra);
      ghost var env1, b := env, ArithGrammar.OrExpr(s, l.next + 1);
      var token, val, op := YylexPair(l.next);
      var rb := OrExpr(token, val, op, noeval || ra.value != 0, l.next + 1);
      Unpack(b, noeval || ra.value != 0, env1, rb);
      OrAgrees(l, b, noeval, env0, ra, env1, rb, env);
      r := if rb.Err? then rb else Ok(FromBool(ra.value != 0 || rb.value != 0));
      Pack(p, noeval, env0, r, b, noeval || ra.value != 0, env1, rb);
    }

    method {:induction false} CondExpr(token: int, val: YyVal, op: int, noeval: bool, ghost i: nat) returns (r: Res)
      requires Holding(i, token, val, op)
      modifies this
      ensures Result(ArithGrammar.CondExpr(s, i), noeval, old(env), r)
      decreases |s.toks| - i, 6
    {
      CondUnfolds(s, i);
      hide *;
      ghost var l, p := ArithGrammar.OrExpr(s, i), ArithGrammar.CondExpr(s, i);
      r := OrExpr(token, val, op, noeval, i);
      Unpack(l, noeval, old(env), r);
      if r.Err? {
        ErrorStays(l, p, noeval, old(env), r, env);
        Pack(p, noeval, old(env), r, l, noeval, old(env), r);
      } else if lastToken == QMARK {
        r := Alternatives(r, noeval, old(env), l);
      }
    }

    /** The part of cond after '?'. */
    method {:induction false} Alternatives(ra: Res, noeval: bool, ghost env0: Env, ghost l: Parse) returns (r: Res)
      requires ra.Ok? && l.Done? && l.next < |s.toks| && Result(l, noeval, env0, ra)
      modifies this
      ensures Result(Branches(s, l.e, l.next), noeval, env0, r)
      decreases |s.toks| - l.next, 0
    {
      BranchesUnfolds(s, l);
      hide *;
      Unpack(l, noeval, env0, ra);
      ghost var env1, t, p := env, ArithGrammar.Assignment(s, l.next + 1), Branches(s, l.e, l.next);
      var first := YylexOne(l.next);
      var rt := Assignment(first, noeval || ra.value == 0, l.next + 1);
      Unpack(t, noeval || ra.value == 0, env1, rt);
      if rt.Ok? && lastToken == COLON {
        r := ElseBranch(ra, rt, noeval, env0, l, env1, t);
      } else {
        CondFails(l, t, p, noeval, env0, ra, env1, rt, env);
        r := if rt.Err? then rt else Err(Syntax);
        Pack(p, noeval, env0, r, t, noeval || ra.value == 0, env1, rt);
      }
    }

    /** The part of cond after ':'. */
    method {:induction false} ElseBranch(ra: Res, rt: Res, noeval: bool, ghost env0: Env, ghost l: Parse,
                                         ghost env1: Env, ghost t: Parse)
      returns (r: Res)
      requires ra.Ok? && l.Done? && l.next < |s.toks| && Agrees(l, noeval, env0, ra, env1) && rt.Ok?
      requires t == ArithGrammar.Assignment(s, l.next + 1) && Result(t, noeval || ra.value == 0, env1, rt)
               && lastToken == COLON
      modifies this
      ensures Result(Branches(s, l.e, l.next), noeval, env0, r)
      decreases |s.toks| - l.next - 1, 7
    {
      BranchesUnfolds(s, l);
      hide *;
      Unpack(t, noeval || ra.value == 0, env1, rt);
      ghost var env2, b, p := env, ArithGrammar.CondExpr(s, t.next + 1), Branches(s, l.e, l.next);
      var token, val, op := YylexPair(t.next);
      var rb := CondExpr(token, val, op, noeval || ra.value != 0, t.next + 1);
      Unpack(b, noeval || ra.value != 0, env2, rb);
      CondAgrees(l, t, b, noeval, env0, ra, env1, rt, env2, rb, env);
      r := if rb.Err? || ra.value == 0 then rb else rt;
      Pack(p, noeval, env0, r, b, noeval || ra.value != 0, env2, rb);
    }

    method {:induction false} Assignment(variable: int, noeval: bool, ghost i: nat) returns (r: Res)
      requires Starting(i, variable)
      modifies this
      ensures Result(ArithGrammar.Assignment(s, i), noeval, old(env), r)
      decreases |s.toks| - i, 7
    {
      AssignmentUnfolds(s, i);
      hide Valid, Tokens.Code, Tokens.At, Agrees, ArithGrammar.CondExpr, ArithGrammar.Assignment, Store;
      var val, op := Shift(variable, i);
      if variable != VAR || (op != ASS && (op < ASS_MIN || op >= ASS_MAX)) {
        r := CondExpr(variable, val, op, noeval, i);
        return;
      }
      ghost var b := ArithGrammar.Assignment(s, i + 2);
      var first := Yylex();
      r := Assignment(first, noeval, i + 2);
      if r.Err? || noeval {
        AssignAgrees(val.name, op, b, noeval, old(env), r, env);
        return;
      }
      r := Assign(val.name, op, old(env), b, r);
    }

    /** The end of assignment: combine with the variable's value if the operator says so, then setvar. */
    method Assign(x: string, op: AssCode, ghost env0: Env, ghost b: Parse, rb: Res) returns (r: Res)
      requires b.Done? && rb.Ok? && Result(b, false, env0, rb)
      modifies this`env
      ensures Result(Done(ArithGrammar.Assign(x, op, b.e), b.next), false, env0, r)
    {
      hide Scan, Agrees, Eval, Lookup, DoBinop, Format;
      r := rb;
      if op != ASS {
        var current := Lookup(env, x);
        r := if current.Err? then current else DoBinop(op - 11, current.value, rb.value);
      }
      StoreAgrees(x, op, b, env0, rb, env, r);
      if r.Err? {
        return;
      }
      if x in env.readonly {
        return Err(ReadOnly);
      }
      env := env.(vars := env.vars[x := Format(r.value)]);
    }

    /** arith: the value of a text, or the error that ends its evaluation.  The outcome is that
        of the only tree the text can be read as; a text without one is an error. */
    method Evaluate() returns (r: Res)
      requires Valid() && k == 0
      modifies this
      ensures match ParseAll(s)
              case Done(e, _) =>
                (match Eval(e, old(env))
                 case Value(v, env1) => r == Ok(v) && env == env1
                 case Raised(err, env1) => r == Err(err) && env == env1)
              case Fail => r.Err?
    {
      hide Valid, Scan, Eval, ArithGrammar.Assignment;
      var first := Yylex();
      r := Assignment(first, false, 0);
      if r.Ok? && lastToken != EOF {
        r := Err(Syntax);
      }
    }
  }
}
