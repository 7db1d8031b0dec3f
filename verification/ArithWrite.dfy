/** Every arithmetic syntax tree can be written as text, and evaluating the text evaluates the tree. */
module ArithWrite {
  import opened ArithValue
  import opened ArithGrammar
  import opened ArithLex
  import opened ArithEval

  function Fit(e: Expr, limit: int): Expr { if Level(e) <= limit then e else Paren(e) }

  /** The tree with parentheses added wherever its shape needs them. */
  function Parenthesize(e: Expr): (r: Expr)
    ensures Level(r) == Level(e) && WellFormed(r)
  {
    match e
    case Num(_) => e
    case Var(_) => e
    case Paren(x) => Paren(Parenthesize(x))
    case Unary(u, x) => Unary(u, Fit(Parenthesize(x), -1))
    case Infix(op, l, r) =>
      if IsBinop(op) then Infix(op, Fit(Parenthesize(l), Level(e)), Fit(Parenthesize(r), Level(e) - 1))
      else Infix(op, Fit(Parenthesize(l), Level(e) - 1), Fit(Parenthesize(r), Level(e)))
    case Cond(c, t, f) => Cond(Fit(Parenthesize(c), 9), Parenthesize(t), Fit(Parenthesize(f), 10))
    case Assign(x, aop, y) => Assign(x, aop, Parenthesize(y))
  }

  lemma {:induction false} ParenthesizeKeepsMeaning(e: Expr, env: Env)
    ensures Eval(Parenthesize(e), env) == Eval(e, env)
    decreases e
  {
    match e
    case Num(_) =>
    case Var(_) =>
    case Paren(x) => ParenthesizeKeepsMeaning(x, env);
    case Unary(u, x) => ParenthesizeKeepsMeaning(x, env);
    case Infix(op, l, r) =>
      ParenthesizeKeepsMeaning(l, env);
      ParenthesizeKeepsMeaning(r, Eval(l, env).env);
    case Cond(c, t, f) =>
      ParenthesizeKeepsMeaning(c, env);
      ParenthesizeKeepsMeaning(t, Eval(c, env).env);
      ParenthesizeKeepsMeaning(f, Eval(c, env).env);
    case Assign(x, aop, y) => ParenthesizeKeepsMeaning(y, env);
  }

  /** Numbers are not negative and names are names, so every token has a written form. */
  predicate Printable(e: Expr) {
    match e
    case Num(v) => v >= 0
    case Var(x) => IsName(x)
    case Paren(x) => Printable(x)
    case Unary(_, x) => Printable(x)
    case Infix(_, l, r) => Printable(l) && Printable(r)
    case Cond(c, t, f) => Printable(c) && Printable(t) && Printable(f)
    case Assign(x, _, y) => IsName(x) && Printable(y)
  }

  lemma {:induction false} ParenthesizePrintable(e: Expr)
    requires Printable(e)
    ensures Printable(Parenthesize(e))
    decreases e
  {
    match e
    case Num(_) =>
    case Var(_) =>
    case Paren(x) => ParenthesizePrintable(x);
    case Unary(_, x) => ParenthesizePrintable(x);
    case Infix(_, l, r) => ParenthesizePrintable(l); ParenthesizePrintable(r);
    case Cond(c, t, f) => ParenthesizePrintable(c); ParenthesizePrintable(t); ParenthesizePrintable(f);
    case Assign(_, _, y) => ParenthesizePrintable(y);
  }

  lemma {:induction false} AllWritableConcat(a: seq<Token>, b: seq<Token>)
    requires AllWritable(a) && AllWritable(b)
    ensures AllWritable(a + b)
    decreases |a|
  {
    hide Writable;
    if a == [] {
      assert a + b == b;
    } else {
      assert (a + b)[1..] == a[1..] + b;
      AllWritableConcat(a[1..], b);
    }
  }

  lemma PlainWritable(code: int)
    requires IsBinop(code) || IsAssop(code) || IsUnop(code) || (AND >= code >= OR) || LPAREN <= code <= COLON
    ensures AllWritable([Plain(code)])
  {
    assert [Plain(code)][1..] == [];
  }

  lemma {:induction false} YieldWritable(e: Expr)
    requires Printable(e)
    ensures AllWritable(Yield(e))
    decreases e, 0
  {
    hide AllWritable;
    match e
    case Num(v) => LeafWritable(Token(NUM, Val(v)));
    case Var(x) => LeafWritable(Token(VAR, Name(x)));
    case Paren(x) =>
      YieldWritable(x);
      PlainWritable(LPAREN);
      PlainWritable(RPAREN);
      AllWritableConcat(Yield(x), [Plain(RPAREN)]);
      AllWritableConcat([Plain(LPAREN)], Yield(x) + [Plain(RPAREN)]);
    case Unary(u, x) =>
      YieldWritable(x);
      PlainWritable(u);
      AllWritableConcat([Plain(u)], Yield(x));
    case Infix(op, l, r) =>
      YieldWritable(l);
      TailWritable(op, r);
      AllWritableConcat(Yield(l), [Plain(op)] + Yield(r));
    case Cond(c, t, f) =>
      YieldWritable(c);
      YieldWritable(t);
      TailWritable(COLON, f);
      AllWritableConcat(Yield(t), [Plain(COLON)] + Yield(f));
      PlainWritable(QMARK);
      AllWritableConcat([Plain(QMARK)], Yield(t) + ([Plain(COLON)] + Yield(f)));
      AllWritableConcat(Yield(c), [Plain(QMARK)] + (Yield(t) + ([Plain(COLON)] + Yield(f))));
    case Assign(x, aop, y) =>
      LeafWritable(Token(VAR, Name(x)));
      TailWritable(aop, y);
      AllWritableConcat([Token(VAR, Name(x))], [Plain(aop)] + Yield(y));
  }

  lemma LeafWritable(t: Token)
    requires Writable(t)
    ensures AllWritable([t])
  {
    assert [t][1..] == [];
  }

  lemma {:induction false} TailWritable(code: int, e: Expr)
    requires IsBinop(code) || IsAssop(code) || (AND >= code >= OR) || LPAREN <= code <= COLON
    requires Printable(e)
    ensures AllWritable([Plain(code)] + Yield(e))
    decreases e, 1
  {
    YieldWritable(e);
    PlainWritable(code);
    AllWritableConcat([Plain(code)], Yield(e));
  }

  /** Any tree, written out with the parentheses it needs and evaluated as text, gives the
      tree's value and effects, or its error. */
  method EvaluateWritten(e: Expr, env: Env) returns (r: Res, env': Env)
    requires Printable(e)
    ensures match Eval(e, env)
            case Value(v, env1) => r == Ok(v) && env' == env1
            case Raised(err, env1) => r == Err(err) && env' == env1
  {
    var w := Parenthesize(e);
    ParenthesizePrintable(e);
    ParenthesizeKeepsMeaning(e, env);
    YieldWritable(w);
    var text := Write(Yield(w));
    assert Scan(text, 0) == Tokens(Yield(w), EOF) by {
      assert text[0..] == text;
      ScanUndoesWrite(text, 0, Yield(w));
    }
    WrittenParses(w);
    hide Scan, Eval, ParseAll, Yield, Write;
    var arith := new Arith(text, env);
    r := arith.Evaluate();
    env' := arith.env;
  }
}
