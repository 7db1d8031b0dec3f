/** 64-bit shell arithmetic values: operators, numerals and their decimal form
    (sh/arith_yacc.c, sh/arith_yylex.c). */
module ArithValue {

  const ARITH_MIN: int := -0x8000_0000_0000_0000
  const ARITH_MAX: int := 0x7FFF_FFFF_FFFF_FFFF
  const UMAX: int := 0xFFFF_FFFF_FFFF_FFFF
  const TWO64: int := 0x1_0000_0000_0000_0000

  type Int64 = v: int | ARITH_MIN <= v <= ARITH_MAX

  datatype Error = Syntax | DivisionByZero | DivideError | NotSet | Conversion | ReadOnly

  /** A value or the message given to yyerror, which never returns. */
  datatype Res = Ok(value: Int64) | Err(error: Error) {
    predicate IsFailure() { Err? }
    function PropagateFailure(): Res requires Err? { this }
    function Extract(): Int64 requires Ok? { value }
  }

  /** Conversion of an unsigned result back to intmax_t. */
  function Wrap(x: int): (r: Int64)
    ensures (r - x) % TWO64 == 0
  {
    var m := x % TWO64;
    if m > ARITH_MAX then m - TWO64 else m
  }

  // Token codes of the binary operators (sh/arith_yacc.h).
  const LE := 8
  const GE := 9
  const LT := 10
  const GT := 11
  const EQ := 12
  const REM := 13
  const BAND := 14
  const LSHIFT := 15
  const RSHIFT := 16
  const MUL := 17
  const ADD := 18
  const BOR := 19
  const SUB := 20
  const BXOR := 21
  const DIV := 22
  const NE := 23
  const BINOP_MIN := 8
  const BINOP_MAX := 24

  type BinCode = c: int | BINOP_MIN <= c < BINOP_MAX witness BINOP_MIN

  function Magnitude(x: int): nat { if x < 0 then -x else x }

  /** C division: the quotient is truncated toward zero. */
  function Quot(a: int, b: int): int
    requires b != 0
  {
    if a >= 0 then a / b else -(Magnitude(a) / b)
  }

  /** C remainder. */
  function Rest(a: int, b: int): int
    requires b != 0
  {
    a - b * Quot(a, b)
  }

  function Pow2(k: nat): (r: int)
    ensures r > 0
  {
    if k == 0 then 1 else 2 * Pow2(k - 1)
  }

  /** Bit i of a two's complement number. */
  function Bit(x: nat, i: nat): nat {
    if i == 0 then x % 2 else Bit(x / 2, i - 1)
  }

  function BitOp(op: BinCode, p: nat, q: nat): (r: nat)
    requires p < 2 && q < 2
    ensures r < 2
  {
    if op == BAND then p * q else if op == BXOR then (p + q) % 2 else if p + q > 0 then 1 else 0
  }

  /** The low n bits of x and y combined bit by bit. */
  function Combine(op: BinCode, x: nat, y: nat, n: nat): (r: nat)
    ensures r < Pow2(n)
  {
    if n == 0 then 0 else BitOp(op, x % 2, y % 2) + 2 * Combine(op, x / 2, y / 2, n - 1)
  }

  function FromBool(b: bool): Int64 { if b then 1 else 0 }

  /** A quotient in range is a 64-bit value, and so is every remainder. */
  lemma QuotRange(a: Int64, b: Int64)
    requires b != 0 && !(a == ARITH_MIN && b == -1)
    ensures ARITH_MIN <= Quot(a, b) <= ARITH_MAX && ARITH_MIN <= Rest(a, b) <= ARITH_MAX
  {
    DivisionLaw(a, b);
    if b == 1 || b == -1 {
      assert Magnitude(a) / b == if b == 1 then Magnitude(a) else 0 - Magnitude(a);
    } else {
      HalvesAtLeast(Magnitude(a), b);
    }
  }

  lemma HalvesAtLeast(m: int, b: int)
    requires m >= 0 && (b >= 2 || b <= -2)
    ensures -m <= 2 * (m / b) <= m
  {
    var q, r := m / b, m % b;
    assert m == b * q + r;
    if q >= 1 && b >= 2 {
      assert b * q >= 2 * q;
    } else if q <= -1 && b <= -2 {
      assert b * q >= -2 * q by { assert (-b) * (-q) >= 2 * (-q); }
    }
  }

  /** Section 6.5.5 of ISO C: the remainder is what the truncated quotient leaves, is smaller
      than the divisor and has the dividend's sign. */
  lemma DivisionLaw(a: int, b: int)
    requires b != 0
    ensures Quot(a, b) * b + Rest(a, b) == a
    ensures Magnitude(Rest(a, b)) < Magnitude(b)
    ensures Rest(a, b) != 0 ==> (Rest(a, b) < 0 <==> a < 0)
  {
    var m := Magnitude(a);
    assert m == b * (m / b) + m % b;
    if a < 0 {
      assert b * -(m / b) == -(b * (m / b));
    }
  }

  function Bitwise(op: BinCode, a: Int64, b: Int64): Int64 {
    Wrap(Combine(op, a % TWO64, b % TWO64, 64))
  }

  function Shift(op: BinCode, a: Int64, count: Int64): Int64 {
    var p := Pow2(count % 64);
    if op == LSHIFT then Wrap(a * p) else Wrap(a / p)
  }

  /** do_binop */
  function DoBinop(op: BinCode, a: Int64, b: Int64): (r: Res)
    ensures r.Err? <==> (op == REM || op == DIV) && (b == 0 || (a == ARITH_MIN && b == -1))
  {
    if op == REM || op == DIV then
      if b == 0 then Err(DivisionByZero)
      else if a == ARITH_MIN && b == -1 then Err(DivideError)
      else
        QuotRange(a, b);
        Ok(if op == REM then Rest(a, b) else Quot(a, b))
    else Ok(
      if op == MUL then Wrap(a * b)
      else if op == ADD then Wrap(a + b)
      else if op == SUB then Wrap(a - b)
      else if op == LSHIFT || op == RSHIFT then Shift(op, a, b)
      else if op == LT then FromBool(a < b)
      else if op == LE then FromBool(a <= b)
      else if op == GT then FromBool(a > b)
      else if op == GE then FromBool(a >= b)
      else if op == EQ then FromBool(a == b)
      else if op == NE then FromBool(a != b)
      else Bitwise(op, a, b))
  }

  lemma {:induction false} CombineBits(op: BinCode, x: nat, y: nat, n: nat, i: nat)
    requires i < n
    ensures Bit(x, i) < 2 && Bit(y, i) < 2
    ensures Bit(Combine(op, x, y, n), i) == BitOp(op, Bit(x, i), Bit(y, i))
    decreases n
  {
    if i > 0 {
      CombineBits(op, x / 2, y / 2, n - 1, i - 1);
    }
  }

  lemma {:induction false} Pow2Sum(a: nat, b: nat)
    ensures Pow2(a + b) == Pow2(a) * Pow2(b)
    decreases a
  {
    if a > 0 {
      Pow2Sum(a - 1, b);
      assert Pow2(a + b) == 2 * Pow2(a + b - 1) == 2 * (Pow2(a - 1) * Pow2(b));
    }
  }

  lemma Pow2Is64()
    ensures Pow2(64) == TWO64
  {
    assert Pow2(4) == 16;
    Pow2Sum(4, 4);
    Pow2Sum(8, 8);
    Pow2Sum(16, 16);
    Pow2Sum(32, 32);
  }

  /** What each operator computes, said without do_binop's case analysis: wrapping sums,
      differences and products; truncating division; bit-by-bit logic; comparisons as 0 or 1. */
  lemma BinopMeaning(op: BinCode, a: Int64, b: Int64)
    requires DoBinop(op, a, b).Ok?
    ensures var r := DoBinop(op, a, b).value;
            && (op == ADD ==> (r - (a + b)) % TWO64 == 0)
            && (op == SUB ==> (r - (a - b)) % TWO64 == 0)
            && (op == MUL ==> (r - a * b) % TWO64 == 0)
            && (op == DIV ==> Magnitude(a - r * b) < Magnitude(b) && (a - r * b != 0 ==> (a - r * b < 0 <==> a < 0)))
            && (op == REM ==> exists q :: q * b + r == a && Magnitude(r) < Magnitude(b)
                                          && (r != 0 ==> (r < 0 <==> a < 0)))
    ensures var r := DoBinop(op, a, b).value;
            && (op in [LT, LE, GT, GE, EQ, NE] ==> r == 0 || r == 1)
            && (op == LT ==> (r == 1 <==> a < b)) && (op == GE ==> (r == 1 <==> !(a < b)))
            && (op == GT ==> (r == 1 <==> b < a)) && (op == LE ==> (r == 1 <==> !(b < a)))
            && (op == EQ ==> (r == 1 <==> a == b)) && (op == NE ==> (r == 1 <==> a != b))
  {
    if op == DIV || op == REM {
      DivisionLaw(a, b);
      assert Quot(a, b) * b + Rest(a, b) == a;
    }
  }

  lemma ProductAtLeast(p: int, n: nat)
    requires p > 0
    ensures p * n >= n
  {
  }

  /** Dividing by a positive number rounds down and moves toward zero. */
  lemma FloorShift(a: int, p: int)
    requires p > 0
    ensures (a / p) * p <= a < (a / p + 1) * p
    ensures if a >= 0 then 0 <= a / p <= a else a <= a / p < 0
  {
    var q, r := a / p, a % p;
    assert a == p * q + r;
    if q >= 0 {
      ProductAtLeast(p, q);
    } else {
      ProductAtLeast(p, 0 - (q + 1));
      assert p * (0 - (q + 1)) == 0 - (p * q + p);
    }
  }

  lemma ShiftMeaning(a: Int64, b: Int64)
    ensures (Shift(LSHIFT, a, b) - a * Pow2(b % 64)) % TWO64 == 0 && DoBinop(LSHIFT, a, b) == Ok(Shift(LSHIFT, a, b))
    ensures var r := Shift(RSHIFT, a, b); DoBinop(RSHIFT, a, b) == Ok(r)
                                          && r * Pow2(b % 64) <= a < (r + 1) * Pow2(b % 64)
  {
    hide Pow2;
    FloorShift(a, Pow2(b % 64));
  }

  lemma WrapLow(c: nat)
    requires c < TWO64
    ensures Wrap(c) % TWO64 == c
  {
  }

  lemma BitwiseMeaning(op: BinCode, a: Int64, b: Int64, i: nat)
    requires op in [BAND, BOR, BXOR] && i < 64
    ensures DoBinop(op, a, b) == Ok(Bitwise(op, a, b))
    ensures var x, y := a % TWO64, b % TWO64;
            Bit(x, i) < 2 && Bit(y, i) < 2 && Bit(Bitwise(op, a, b) % TWO64, i) == BitOp(op, Bit(x, i), Bit(y, i))
  {
    var x, y := a % TWO64, b % TWO64;
    Pow2Is64();
    CombineBits(op, x, y, 64, i);
    WrapLow(Combine(op, x, y, 64));
  }

  // ---------------------------------------------------------------- numerals

  predicate IsSpace(c: char) { c == ' ' || '\t' <= c <= '\r' }

  predicate IsDigit(c: char) { '0' <= c <= '9' }

  function DigitVal(c: char): nat {
    if '0' <= c <= '9' then (c - '0') as int
    else if 'a' <= c <= 'z' then (c - 'a') as int + 10
    else if 'A' <= c <= 'Z' then (c - 'A') as int + 10
    else 99
  }

  function SkipSpaces(s: string, i: nat): (j: nat)
    requires i <= |s|
    ensures i <= j <= |s|
    decreases |s| - i
  {
    if i < |s| && IsSpace(s[i]) then SkipSpaces(s, i + 1) else i
  }

  /** Digits of the given base from i on: the accumulated number and where they end. */
  function ScanDigits(s: string, i: nat, base: nat, acc: nat): (r: (nat, nat))
    requires i <= |s|
    ensures i <= r.1 <= |s|
    decreases |s| - i
  {
    if i < |s| && DigitVal(s[i]) < base then ScanDigits(s, i + 1, base, acc * base + DigitVal(s[i]))
    else (acc, i)
  }

  /** A C integer constant with base 0 and no sign; it ends where it starts when there are no digits. */
  function ScanNumber(s: string, i: nat): (r: (nat, nat))
    requires i <= |s|
    ensures i <= r.1 <= |s|
    ensures i < |s| && IsDigit(s[i]) ==> i < r.1
  {
    if i + 2 < |s| && s[i] == '0' && (s[i + 1] == 'x' || s[i + 1] == 'X') && DigitVal(s[i + 2]) < 16 then
      ScanDigits(s, i + 2, 16, 0)
    else if i < |s| && s[i] == '0' then ScanDigits(s, i + 1, 8, 0)
    else ScanDigits(s, i, 10, 0)
  }

  datatype Numeral = Numeral(value: Int64, end: nat, range: bool)

  /** strtoarith_t: the value, where the numeral ends and whether errno became ERANGE. */
  function StrToArith(s: string, start: nat): (r: Numeral)
    requires start <= |s|
    ensures start <= r.end <= |s|
    ensures start < |s| && IsDigit(s[start]) ==> start < r.end
  {
    var i := SkipSpaces(s, start);
    if i < |s| && s[i] == '-' then
      var (m, end) := ScanNumber(s, i + 1);
      if end == i + 1 then Numeral(0, i, false)
      else if m > -ARITH_MIN then Numeral(ARITH_MIN, end, true)
      else Numeral(0 - m, end, false)
    else
      var j := if i < |s| && s[i] == '+' then i + 1 else i;
      var (m, end) := ScanNumber(s, j);
      var u := if m > UMAX then UMAX else m;
      var v := Wrap(u);
      if end == j then Numeral(0, i, false)
      else if s[i] == '0' || v >= 0 then Numeral(v, end, m > UMAX)
      else if v == ARITH_MIN then Numeral(ARITH_MIN, end, true)
      else Numeral(ARITH_MAX, end, true)
  }

  // ---------------------------------------------------------------- decimal form

  function Digits(n: nat): (s: string)
    ensures s != "" && (forall k :: 0 <= k < |s| ==> IsDigit(s[k]))
    ensures s[0] == '0' ==> n == 0 && s == "0"
  {
    if n < 10 then [('0' as int + n) as char] else Digits(n / 10) + Digits(n % 10)
  }

  /** ARITH_FORMAT_STR */
  function Format(v: Int64): string {
    if v < 0 then "-" + Digits(Magnitude(v)) else Digits(Magnitude(v))
  }

  /** The scanner reads back the digits the formatter wrote. */
  lemma {:induction false} DigitsScan(n: nat, s: string, i: nat)
    requires i + |Digits(n)| <= |s| && s[i..i + |Digits(n)|] == Digits(n)
    ensures ScanDigits(s, i, 10, 0) == ScanDigits(s, i + |Digits(n)|, 10, n)
    decreases n
  {
    var len := |Digits(n)|;
    assert s[i..i + len][len - 1] == s[i + len - 1];
    if n < 10 {
      assert s[i] == Digits(n)[0];
    } else {
      assert Digits(n) == Digits(n / 10) + Digits(n % 10);
      assert s[i..i + len - 1] == s[i..i + len][..len - 1] == Digits(n / 10);
      DigitsScan(n / 10, s, i);
      assert s[i + len - 1] == Digits(n % 10)[0];
    }
  }

  lemma FormattedNumber(n: nat, s: string, i: nat)
    requires i + |Digits(n)| <= |s| && s[i..i + |Digits(n)|] == Digits(n)
    requires i + |Digits(n)| == |s| || !(IsDigit(s[i + |Digits(n)|]) || s[i + |Digits(n)|] in ['x', 'X'])
    ensures ScanNumber(s, i) == (n, i + |Digits(n)|)
  {
    DigitsScan(n, s, i);
    assert s[i] == s[i..i + |Digits(n)|][0];
  }

  /** A value stored in a variable by an assignment is read back unchanged. */
  lemma FormatRoundTrip(v: Int64)
    ensures StrToArith(Format(v), 0) == Numeral(v, |Format(v)|, false)
  {
    var s := Format(v);
    var n := Magnitude(v);
    if v < 0 {
      assert s[1..1 + |Digits(n)|] == Digits(n);
      FormattedNumber(n, s, 1);
    } else {
      assert s[0..|s|] == s;
      FormattedNumber(n, s, 0);
    }
  }
}
