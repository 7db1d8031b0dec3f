/** The arithmetic scanner (sh/arith_yylex.c): yylex against a maximal-munch token rule. */
module ArithLex {
  import opened Wrappers
  import opened ArithValue
  import opened ArithGrammar

  // ---------------------------------------------------------------- reference rule

  predicate IsBlank(c: char) { c == ' ' || c == '\t' || c == '\n' }

  predicate IsNameStart(c: char) { 'A' <= c <= 'Z' || 'a' <= c <= 'z' || c == '_' }

  predicate IsInName(c: char) { IsNameStart(c) || IsDigit(c) }

  function SkipBlanks(s: string, i: nat): (j: nat)
    requires i <= |s|
    ensures i <= j <= |s|
    ensures j < |s| ==> !IsBlank(s[j])
    decreases |s| - i
  {
    if i < |s| && IsBlank(s[i]) then SkipBlanks(s, i + 1) else i
  }

  function NameEnd(s: string, i: nat): (j: nat)
    requires i <= |s|
    ensures i <= j <= |s|
    decreases |s| - i
  {
    if i < |s| && IsInName(s[i]) then NameEnd(s, i + 1) else i
  }

  /** One-, two- and three-character operators; 0 where there is none. */
  function Op1(c: char): int {
    if c == '=' then ASS else if c == '<' then LT else if c == '>' then GT else if c == '|' then BOR
    else if c == '&' then BAND else if c == '!' then NOT else if c == '*' then MUL else if c == '/' then DIV
    else if c == '%' then REM else if c == '+' then ADD else if c == '-' then SUB else if c == '^' then BXOR
    else if c == '~' then BNOT else if c == '?' then QMARK else if c == ':' then COLON
    else if c == '(' then LPAREN else if c == ')' then RPAREN else 0
  }

  function Op2(c: char, d: char): int {
    if d == '=' then
      if c == '=' then EQ else if c == '!' then NE else if c == '<' then LE else if c == '>' then GE
      else if c == '%' then 24 else if c == '&' then 25 else if c == '*' then 28 else if c == '+' then 29
      else if c == '|' then 30 else if c == '-' then 31 else if c == '^' then 32 else if c == '/' then 33 else 0
    else if c != d then 0
    else if c == '|' then OR else if c == '&' then AND else if c == '<' then LSHIFT else if c == '>' then RSHIFT else 0
  }

  function Op3(c: char, d: char, e: char): int {
    if c == d == '<' && e == '=' then 26 else if c == d == '>' && e == '=' then 27 else 0
  }

  /** The longest operator at i: its code and length; code 0 when no operator starts there. */
  function Operator(s: string, i: nat): (r: (int, nat))
    requires i < |s|
    ensures r.0 != 0 ==> 0 < r.1 && i + r.1 <= |s|
    ensures r.0 != BAD && r.0 != NUM && r.0 != VAR
  {
    if i + 2 < |s| && Op3(s[i], s[i + 1], s[i + 2]) != 0 then (Op3(s[i], s[i + 1], s[i + 2]), 3)
    else if i + 1 < |s| && Op2(s[i], s[i + 1]) != 0 then (Op2(s[i], s[i + 1]), 2)
    else (Op1(s[i]), 1)
  }

  predicate DoubledSign(s: string, i: nat)
    requires i < |s|
  {
    (s[i] == '+' || s[i] == '-') && i + 1 < |s| && s[i + 1] == s[i]
  }

  datatype Lexeme = Lexeme(code: int, yy: Option<YyVal>, next: nat)

  /** The token that starts at or after i.  Rejected text is not consumed. */
  function Lex(s: string, i: nat): (r: Lexeme)
    requires i <= |s|
    ensures r.next <= |s| && i <= r.next
    ensures r.code != EOF && r.code != BAD ==> i < r.next
    ensures r.code == NUM ==> r.yy.Some? && r.yy.value.Val?
    ensures r.code == VAR ==> r.yy.Some? && r.yy.value.Name?
  {
    var j := SkipBlanks(s, i);
    if j == |s| then Lexeme(EOF, None, j)
    else if IsDigit(s[j]) then Lexeme(NUM, Some(Val(StrToArith(s, j).value)), StrToArith(s, j).end)
    else if IsNameStart(s[j]) then Lexeme(VAR, Some(Name(s[j..NameEnd(s, j + 1)])), NameEnd(s, j + 1))
    else if DoubledSign(s, j) || Operator(s, j).0 == 0 then Lexeme(BAD, None, i)
    else Lexeme(Operator(s, j).0, None, j + Operator(s, j).1)
  }

  /** The whole token stream of a text. */
  function Scan(s: string, i: nat): (r: Stream)
    requires i <= |s|
    decreases |s| - i
  {
    var t := Lex(s, i);
    if t.code == EOF || t.code == BAD then Tokens([], t.code)
    else
      var rest := Scan(s, t.next);
      Tokens([Token(t.code, if t.yy.Some? then t.yy.value else Val(0))] + rest.toks, rest.last)
  }

  /** Scanning on after the end of the text, or after rejected text, gives the same again. */
  lemma ScanPastEnd(s: string, i: nat)
    requires i <= |s| && (Lex(s, i).code == EOF || Lex(s, i).code == BAD)
    ensures Scan(s, Lex(s, i).next) == Scan(s, i) == Tokens([], Lex(s, i).code)
  {
  }

  // ---------------------------------------------------------------- the scanner

  /** yylex; arith_buf and yylval are passed in and returned. */
  method Yylex(s: string, arithBuf: nat, yylval: YyVal) returns (code: int, arithBuf': nat, yylval': YyVal)
    requires arithBuf <= |s|
    ensures code == Lex(s, arithBuf).code && arithBuf' == Lex(s, arithBuf).next
    ensures yylval' == match Lex(s, arithBuf).yy case Some(y) => y case None => yylval
  {
    yylval' := yylval;
    var buf := arithBuf;
    while buf < |s| && (s[buf] == ' ' || s[buf] == '\t' || s[buf] == '\n')
      invariant arithBuf <= buf <= |s| && SkipBlanks(s, buf) == SkipBlanks(s, arithBuf)
    {
      buf := buf + 1;
    }
    if buf == |s| {
      return EOF, buf, yylval';
    }
    var c := s[buf];
    if '0' <= c <= '9' {
      var n := StrToArith(s, buf);
      return NUM, n.end, Val(n.value);
    }
    if IsNameStart(c) {
      var p := buf;
      buf := buf + 1;
      while buf < |s| && IsInName(s[buf])
        invariant p < buf <= |s| && NameEnd(s, buf) == NameEnd(s, p + 1)
      {
        buf := buf + 1;
      }
      return VAR, buf, Name(s[p..buf]);
    }
    var value, checkEq, at := ScanOperator(s, buf);
    if value == BAD {
      return BAD, arithBuf, yylval';
    }
    if checkEq && at < |s| && s[at] == '=' {
      value, at := value + 11, at + 1;
    }
    return value, at, yylval';
  }

  /** The operator cases of yylex's switch, up to a jump to checkeq or checkeqcur. */
  method ScanOperator(s: string, buf: nat) returns (value: int, checkEq: bool, at: nat)
    requires buf < |s|
    ensures value == BAD <==> DoubledSign(s, buf) || Operator(s, buf).0 == 0
    ensures value != BAD ==> buf < at <= |s|
    ensures value != BAD ==>
      Operator(s, buf) == if checkEq && at < |s| && s[at] == '=' then (value + 11, at + 1 - buf) else (value, at - buf)
  {
    var c := s[buf];
    var d := if buf + 1 < |s| then s[buf + 1] else '\0';
    value, checkEq, at := BAD, false, buf + 1;
    if c == '=' {
      value, checkEq := ASS, true;
    } else if c == '>' {
      if d == '=' {
        value, at := GE, buf + 2;
      } else if d == '>' {
        value, checkEq, at := RSHIFT, true, buf + 2;
      } else {
        value := GT;
      }
    } else if c == '<' {
      if d == '=' {
        value, at := LE, buf + 2;
      } else if d == '<' {
        value, checkEq, at := LSHIFT, true, buf + 2;
      } else {
        value := LT;
      }
    } else if c == '|' {
      if d != '|' {
        value, checkEq := BOR, true;
      } else {
        value, at := OR, buf + 2;
      }
    } else if c == '&' {
      if d != '&' {
        value, checkEq := BAND, true;
      } else {
        value, at := AND, buf + 2;
      }
    } else if c == '!' {
      if d != '=' {
        value := NOT;
      } else {
        value, at := NE, buf + 2;
      }
    } else if c == '(' {
      value := LPAREN;
    } else if c == ')' {
      value := RPAREN;
    } else if c == '*' {
      value, checkEq := MUL, true;
    } else if c == '/' {
      value, checkEq := DIV, true;
    } else if c == '%' {
      value, checkEq := REM, true;
    } else if c == '+' {
      if d != '+' {
        value, checkEq := ADD, true;
      }
    } else if c == '-' {
      if d != '-' {
        value, checkEq := SUB, true;
      }
    } else if c == '~' {
      value := BNOT;
    } else if c == '^' {
      value, checkEq := BXOR, true;
    } else if c == '?' {
      value := QMARK;
    } else if c == ':' {
      value := COLON;
    }
  }

  // ---------------------------------------------------------------- written tokens scan back

  function PlainText(code: int): (x: string)
    ensures |x| <= 2
  {
    if code == ASS then "=" else if code == OR then "||" else if code == AND then "&&" else if code == NOT then "!"
    else if code == LE then "<=" else if code == GE then ">=" else if code == LT then "<" else if code == GT then ">"
    else if code == EQ then "==" else if code == REM then "%" else if code == BAND then "&" else if code == LSHIFT
        then "<<"
    else if code == RSHIFT then ">>" else if code == MUL then "*" else if code == ADD then "+" else if code == BOR
        then "|"
    else if code == SUB then "-" else if code == BXOR then "^" else if code == DIV then "/" else if code == NE then "!="
    else if code == LPAREN then "(" else if code == RPAREN then ")" else if code == BNOT then "~"
    else if code == QMARK then "?" else if code == COLON then ":" else ""
  }

  function OpText(code: int): string {
    if ASS_MIN <= code < ASS_MAX then PlainText(code - 11) + ['='] else PlainText(code)
  }

  predicate IsName(x: string) {
    x != "" && IsNameStart(x[0]) && forall k :: 0 <= k < |x| ==> IsInName(x[k])
  }

  /** Tokens with a written form: non-negative numbers, names and operators. */
  predicate Writable(t: Token) {
    if t.code == NUM then t.yy.Val? && t.yy.val >= 0
    else if t.code == VAR then t.yy.Name? && IsName(t.yy.name)
    else t.yy == Val(0) && OpText(t.code) != ""
  }

  function Text(t: Token): string
    requires Writable(t)
  {
    if t.code == NUM then Format(t.yy.val) else if t.code == VAR then t.yy.name else OpText(t.code)
  }

  lemma {:induction false} NameScan(s: string, i: nat, j: nat)
    requires i <= j < |s| && !IsInName(s[j]) && forall k :: i <= k < j ==> IsInName(s[k])
    ensures NameEnd(s, i) == j
    decreases j - i
  {
    if i < j { NameScan(s, i + 1, j); }
  }

  /** The longest operator that starts the text x followed by a blank. */
  function Munch(x: string): int
    requires 1 <= |x| <= 3
  {
    if |x| == 3 then Op3(x[0], x[1], x[2]) else if |x| == 2 then Op2(x[0], x[1]) else Op1(x[0])
  }

  predicate StartsOperator(x: string) {
    x != "" && !IsBlank(x[0]) && !IsDigit(x[0]) && !IsNameStart(x[0])
        && (|x| > 1 ==> x[0] !in ['+', '-'] || x[1] == '=')
  }

  lemma PlainTextMunch(code: int)
    requires PlainText(code) != ""
    ensures Munch(PlainText(code)) == code && code !in [EOF, BAD, NUM, VAR] && StartsOperator(PlainText(code))
  {
  }

  lemma AssignTextMunch(code: int)
    requires ASS_MIN <= code < ASS_MAX
    ensures Munch(OpText(code)) == code && StartsOperator(OpText(code))
  {
  }

  lemma OpTextMunch(code: int)
    requires OpText(code) != ""
    ensures 1 <= |OpText(code)| <= 3 && Munch(OpText(code)) == code && code !in [EOF, BAD, NUM, VAR]
    ensures StartsOperator(OpText(code))
  {
    if ASS_MIN <= code < ASS_MAX {
      AssignTextMunch(code);
    } else {
      PlainTextMunch(code);
    }
  }

  lemma OperatorScan(s: string, i: nat, code: int)
    requires OpText(code) != "" && i + |OpText(code)| < |s|
    requires s[i..i + |OpText(code)|] == OpText(code) && s[i + |OpText(code)|] == ' '
    ensures Operator(s, i) == (code, |OpText(code)|) && !DoubledSign(s, i)
  {
    var x := OpText(code);
    OpTextMunch(code);
    assert s[i] == s[i..i + |x|][0];
    if |x| > 1 { assert s[i + 1] == s[i..i + |x|][1]; }
    if |x| > 2 { assert s[i + 2] == s[i..i + |x|][2]; }
  }

  lemma NumberLex(s: string, i: nat, v: Int64)
    requires v >= 0 && i + |Format(v)| < |s| && s[i..i + |Format(v)|] == Format(v) && s[i + |Format(v)|] == ' '
    ensures Lex(s, i) == Lexeme(NUM, Some(Val(v)), i + |Format(v)|)
  {
    FormattedNumber(Magnitude(v), s, i);
    assert s[i] == s[i..i + |Format(v)|][0];
  }

  lemma NameLex(s: string, i: nat, x: string)
    requires IsName(x) && i + |x| < |s| && s[i..i + |x|] == x && s[i + |x|] == ' '
    ensures Lex(s, i) == Lexeme(VAR, Some(Name(x)), i + |x|)
  {
    forall k | i <= k < i + |x|
      ensures s[k] == x[k - i]
    {
      assert s[k] == s[i..i + |x|][k - i];
    }
    NameScan(s, i + 1, i + |x|);
  }

  lemma OperatorLex(s: string, i: nat, code: int)
    requires OpText(code) != "" && i + |OpText(code)| < |s|
    requires s[i..i + |OpText(code)|] == OpText(code) && s[i + |OpText(code)|] == ' '
    ensures Lex(s, i) == Lexeme(code, None, i + |OpText(code)|)
  {
    OperatorScan(s, i, code);
    OpTextMunch(code);
    assert s[i] == s[i..i + |OpText(code)|][0];
  }

  lemma TokenScan(s: string, i: nat, t: Token)
    requires Writable(t) && i + |Text(t)| < |s| && s[i..i + |Text(t)|] == Text(t) && s[i + |Text(t)|] == ' '
    ensures Scan(s, i) == Tokens([t] + Scan(s, i + |Text(t)|).toks, Scan(s, i + |Text(t)|).last)
  {
    if t.code == NUM {
      NumberLex(s, i, t.yy.val);
    } else if t.code == VAR {
      NameLex(s, i, t.yy.name);
    } else {
      OperatorLex(s, i, t.code);
      OpTextMunch(t.code);
    }
  }

  lemma LeadingBlank(s: string, i: nat)
    requires i < |s| && IsBlank(s[i])
    ensures Scan(s, i) == Scan(s, i + 1)
  {
    var a, b := Lex(s, i), Lex(s, i + 1);
    assert a == b || (a.code == BAD && b.code == BAD);
  }

  lemma Cut(s: string, i: nat, x: string, rest: string)
    requires i <= |s| && s[i..] == x + [' '] + rest
    ensures i + |x| < |s| && s[i..i + |x|] == x && s[i + |x|] == ' ' && s[i + |x| + 1..] == rest
  {
    var u := s[i..];
    assert s[i..i + |x|] == u[..|x|];
    assert s[i + |x|] == u[|x|];
    assert s[i + |x| + 1..] == u[|x| + 1..];
  }

  predicate AllWritable(ts: seq<Token>) { ts == [] || (Writable(ts[0]) && AllWritable(ts[1..])) }

  /** Every token followed by a blank. */
  function Write(ts: seq<Token>): string
    requires AllWritable(ts)
  {
    if ts == [] then "" else Text(ts[0]) + [' '] + Write(ts[1..])
  }

  lemma TokenAndBlank(s: string, i: nat, t: Token, rest: Stream)
    requires Writable(t) && i + |Text(t)| < |s| && s[i..i + |Text(t)|] == Text(t) && s[i + |Text(t)|] == ' '
    requires Scan(s, i + |Text(t)| + 1) == rest
    ensures Scan(s, i) == Tokens([t] + rest.toks, rest.last)
  {
    hide *;
    LeadingBlank(s, i + |Text(t)|);
    TokenScan(s, i, t);
  }

  lemma ScanAtEnd(s: string)
    ensures Scan(s, |s|) == Tokens([], EOF)
  {
  }

  /** Writing tokens with blanks between them and scanning the text gives the tokens back. */
  lemma {:induction false} ScanUndoesWrite(s: string, i: nat, ts: seq<Token>)
    requires AllWritable(ts) && i <= |s| && s[i..] == Write(ts)
    ensures Scan(s, i) == Tokens(ts, EOF)
    decreases |ts|
  {
    hide Scan, Text, Writable;
    if ts == [] {
      ScanAtEnd(s);
    } else {
      Cut(s, i, Text(ts[0]), Write(ts[1..]));
      ScanUndoesWrite(s, i + |Text(ts[0])| + 1, ts[1..]);
      TokenAndBlank(s, i, ts[0], Tokens(ts[1..], EOF));
      assert [ts[0]] + ts[1..] == ts;
    }
  }
}
