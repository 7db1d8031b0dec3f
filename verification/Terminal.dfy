/** What the console of kernel/video_console.c shows: a VT100 terminal (section 5.4 of ECMA-48
    for the form of control sequences) drawn into scanlines of pixels.  Nothing here knows about
    shadow buffers or batches. */
module Terminal {

  type Pixel = bv32
  type Line = seq<Pixel>
  type Lines = seq<Line>
  type Word = n: int | 0 <= n < 0x1_0000_0000
  type Byte = b: int | 0 <= b < 256

  const MAXPARS: nat := 16
  const WHITE: Pixel := 0x00FFFFFF
  const BLACK: Pixel := 0x00000000
  const BOLD_BITS: Pixel := 0x00555555
  const ANSI: seq<Pixel> := [
    0x00000000, 0x00AA0000, 0x0000AA00, 0x00AA5500, 0x000000AA, 0x00AA00AA, 0x0000AAAA, 0x00AAAAAA,
    0x00555555, 0x00FF5555, 0x0055FF55, 0x00FFFF55, 0x005555FF, 0x00FF55FF, 0x0055FFFF, 0x00FFFFFF]

  /** 256 glyphs of 16 rows each. */
  type Font = f: seq<bv8> | |f| == 4096 witness seq(4096, _ => 0)

  /** Screen size in pixels; stride is the length of a scanline in memory. */
  datatype Geometry = Geometry(width: nat, height: nat, stride: nat) {
    function Columns(): nat { width / 8 }
    function Rows(): nat { height / 16 }
    predicate Fits() { 0 < Columns() && 0 < Rows() < 999999 && width <= stride && width < 0x1_0000_0000
                   && height < 0x1_0000_0000 }
  }

  datatype State = Normal | Esc | Square | GetPars | GotPars | Ask | CharSize | SetG0 | SetG1

  datatype Attr = Attr(bold: bool, underline: bool, reverse: bool)

  const PLAIN := Attr(false, false, false)

  /** The escape-sequence parser. */
  datatype Parser = Parser(state: State, par: seq<Word>, numpars: nat) {
    predicate Fits() {
      |par| == MAXPARS && numpars < MAXPARS && (state == Square || state == Ask ==> numpars == 0)
    }
  }

  /** How characters are drawn. */
  datatype Pen = Pen(attr: Attr, fg: Pixel, bg: Pixel) {
    function Ink(): Pixel {
      var c := if attr.reverse then bg else fg;
      if attr.bold then c | BOLD_BITS else c
    }

    function Paper(): Pixel { if attr.reverse then fg else bg }
  }

  const DEFAULT_PEN := Pen(PLAIN, WHITE, BLACK)

  datatype Term = Term(lines: Lines, x: nat, y: nat, parser: Parser, pen: Pen, wrap: bool, origin: bool)

  predicate LinesFit(g: Geometry, lines: Lines) {
    |lines| == g.height && forall i :: 0 <= i < |lines| ==> |lines[i]| == g.stride
  }

  /** The cursor is on the grid and the parameter index in range. */
  predicate InGrid(g: Geometry, t: Term) {
    g.Fits() && LinesFit(g, t.lines) && CursorFits(g, t) && t.parser.Fits()
  }

  predicate CursorFits(g: Geometry, t: Term) {
    t.x < g.Columns() && t.y < g.Rows()
  }

  // ---------------------------------------------------------------- drawing

  predicate Bit(bits: bv8, col: nat)
    requires col < 8
  {
    (bits >> col) & 1 == 1
  }

  /** One row of a glyph. */
  function GlyphBits(font: Font, ch: Byte, row: nat, attr: Attr): bv8
    requires row < 16
  {
    if attr.underline && row == 14 then 0xFF else font[ch * 16 + row]
  }

  function LineErased(line: Line, a: nat, b: nat, color: Pixel): (r: Line)
    ensures |r| == |line|
  {
    seq(|line|, c requires 0 <= c < |line| => if a <= c < b then color else line[c])
  }

  function LinePainted(line: Line, px: nat, bits: bv8, ink: Pixel, paper: Pixel): (r: Line)
    ensures |r| == |line|
  {
    seq(|line|, c requires 0 <= c < |line| => if px <= c < px + 8 then (if Bit(bits, c - px) then ink else paper)
        else line[c])
  }

  /** Scanline i when the first n rows of the glyph are drawn at the cursor. */
  function PaintedLine(font: Font, t: Term, ch: Byte, i: nat, n: nat): (r: Line)
    requires i < |t.lines| && n <= 16
    ensures |r| == |t.lines[i]|
  {
    if t.y * 16 <= i < t.y * 16 + n then LinePainted(t.lines[i], t.x * 8, GlyphBits(font, ch, i - t.y * 16, t.pen.attr),
        t.pen.Ink(), t.pen.Paper())
    else t.lines[i]
  }

  /** Character cell (x, y) drawn. */
  function Painted(font: Font, t: Term, ch: Byte): (r: Lines)
    ensures |r| == |t.lines| && forall i :: 0 <= i < |r| ==> |r[i]| == |t.lines[i]|
  {
    seq(|t.lines|, i requires 0 <= i < |t.lines| => PaintedLine(font, t, ch, i, 16))
  }

  /** Text rows r0 to r1 - 1 erased between pixel columns a and b. */
  function Erased(lines: Lines, r0: nat, r1: nat, a: nat, b: nat, color: Pixel): (r: Lines)
    ensures |r| == |lines| && forall i :: 0 <= i < |r| ==> |r[i]| == |lines[i]|
  {
    seq(|lines|, i requires 0 <= i < |lines| => if r0 * 16 <= i < r1 * 16 then LineErased(lines[i], a, b, color)
        else lines[i])
  }

  function Blank(g: Geometry, color: Pixel): (r: Line)
    ensures |r| == g.stride
  {
    seq(g.stride, c => color)
  }

  function AllCleared(g: Geometry, color: Pixel): (r: Lines)
    ensures LinesFit(g, r)
  {
    seq(g.height, i => Blank(g, color))
  }

  /** The text area moved up by n rows; what is below is erased. */
  function ScrolledUp(g: Geometry, lines: Lines, n: nat, color: Pixel): (r: Lines)
    requires n <= g.Rows() && LinesFit(g, lines)
    ensures LinesFit(g, r)
  {
    seq(|lines|, i requires 0 <= i < |lines| =>
      if i < (g.Rows() - n) * 16 then lines[i + n * 16] else LineErased(lines[i], 0, g.width, color))
  }

  /** The text area moved down by n rows; the top is erased. */
  function ScrolledDown(g: Geometry, lines: Lines, n: nat, color: Pixel): (r: Lines)
    requires n <= g.Rows() && LinesFit(g, lines)
    ensures LinesFit(g, r)
  {
    seq(|lines|, i requires 0 <= i < |lines| =>
      if i < n * 16 then LineErased(lines[i], 0, g.width, color) else if i < g.Rows() * 16 then lines[i - n * 16]
          else lines[i])
  }

  // ---------------------------------------------------------------- one byte

  function ClearScreen(g: Geometry, t: Term): (r: Term)
    requires InGrid(g, t)
    ensures InGrid(g, r)
  {
    t.(lines := AllCleared(g, t.pen.bg), x := 0, y := 0)
  }

  function ScrollUp(g: Geometry, t: Term, n: nat): (r: Term)
    requires InGrid(g, t)
    ensures InGrid(g, r)
  {
    if n == 0 then t else if n >= g.Rows() then ClearScreen(g, t) else t.(lines := ScrolledUp(g, t.lines, n, t.pen.bg))
  }

  function ScrollDown(g: Geometry, t: Term, n: nat): (r: Term)
    requires InGrid(g, t)
    ensures InGrid(g, r)
  {
    if n == 0 then t else if n >= g.Rows() then ClearScreen(g, t)
        else t.(lines := ScrolledDown(g, t.lines, n, t.pen.bg))
  }

  function LineFeed(g: Geometry, t: Term): (r: Term)
    requires InGrid(g, t)
    ensures InGrid(g, r)
  {
    if t.y + 1 < g.Rows() then t.(y := t.y + 1) else ScrollUp(g, t, 1)
  }

  /** One step right of a column, wrapping to the next line or staying in the last column. */
  function Advance(g: Geometry, t: Term): (r: Term)
    requires InGrid(g, t)
    ensures InGrid(g, r)
  {
    if t.x + 1 < g.Columns() then t.(x := t.x + 1)
    else if t.wrap then LineFeed(g, t.(x := 0))
    else t.(x := g.Columns() - 1)
  }

  function Tab(g: Geometry, t: Term): (r: Term)
    requires InGrid(g, t)
    ensures InGrid(g, r)
  {
    var x := (t.x + 8) / 8 * 8;
    if x >= g.Columns() then LineFeed(g, t.(x := 0)) else t.(x := x)
  }

  function PutNormal(g: Geometry, font: Font, t: Term, ch: Byte): (r: Term)
    requires InGrid(g, t)
    ensures InGrid(g, r)
  {
    if ch == 8 then t.(x := if t.x > 0 then t.x - 1 else 0)
    else if ch == 9 then Tab(g, t)
    else if ch == 10 then LineFeed(g, t.(x := 0))
    else if ch == 13 then t.(x := 0)
    else if ch == 27 then t.(parser := t.parser.(state := Esc))
    else if ch >= 32 then Advance(g, t.(lines := Painted(font, t, ch)))
    else t
  }

  function NoPars(): (p: seq<Word>)
    ensures |p| == MAXPARS
  {
    seq(MAXPARS, i => 0)
  }

  function In(t: Term, s: State): Term { t.(parser := t.parser.(state := s)) }

  function PutEsc(g: Geometry, s: Term, ch: Byte): (r: Term)
    requires InGrid(g, s)
    ensures InGrid(g, r)
  {
    var t := In(s, Normal);
    if ch == '[' as int then t.(parser := Parser(Square, NoPars(), 0))
    else if ch == 'c' as int then ClearScreen(g, t.(pen := DEFAULT_PEN))
    else if ch == 'D' as int then LineFeed(g, t)
    else if ch == 'M' as int then ReverseIndex(g, t)
    else if ch == 'E' as int then LineFeed(g, t.(x := 0))
    else if ch == '#' as int then In(t, CharSize)
    else if ch == '(' as int then In(t, SetG0)
    else if ch == ')' as int then In(t, SetG1)
    else t
  }

  function ReverseIndex(g: Geometry, t: Term): (r: Term)
    requires InGrid(g, t)
    ensures InGrid(g, r)
  {
    if t.y > 0 then t.(y := t.y - 1) else ScrollDown(g, t, 1)
  }

  predicate IsDigit(ch: Byte) { '0' as int <= ch <= '9' as int }

  /** A decimal digit appended to a 32-bit parameter. */
  function Shifted(p: Word, ch: Byte): Word
    requires IsDigit(ch)
  {
    (10 * p + (ch - '0' as int)) % 0x1_0000_0000
  }

  function DigitRead(p: Parser, ch: Byte): (r: Parser)
    requires p.Fits() && IsDigit(ch)
    ensures r.Fits() && r.state == p.state
  {
    p.(par := p.par[p.numpars := Shifted(p.par[p.numpars], ch)])
  }

  function PutSquare(g: Geometry, t: Term, ch: Byte): (r: Term)
    requires InGrid(g, t) && t.parser.state == Square
    ensures InGrid(g, r)
  {
    var p := t.parser;
    if IsDigit(ch) then t.(parser := Parser(GetPars, p.par[p.numpars := ch - '0' as int], p.numpars))
    else if ch == ';' as int then t.(parser := Parser(GetPars, p.par, p.numpars + 1))
    else if ch == '?' as int then In(t, Ask)
    else PutGotPars(g, t, ch)
  }

  function PutGetPars(g: Geometry, t: Term, ch: Byte): (r: Term)
    requires InGrid(g, t) && t.parser.state == GetPars
    ensures InGrid(g, r)
  {
    var p := t.parser;
    if IsDigit(ch) then t.(parser := DigitRead(p, ch))
    else if ch == ';' as int
        then t.(parser := p.(numpars := if p.numpars < MAXPARS - 1 then p.numpars + 1 else p.numpars))
    else PutGotPars(g, t, ch)
  }

  function Min(a: int, b: int): int { if a < b then a else b }

  function OrOne(p: Word): (r: Word)
    ensures r > 0
  {
    if p == 0 then 1 else p
  }

  function Back(a: nat, p: Word): (r: nat)
    ensures r <= a
  {
    if a >= p then a - p else 0
  }

  function Forth(a: nat, p: Word, size: nat): (r: nat)
    requires size > 0
    ensures r < size
  {
    Min((a + p) % 0x1_0000_0000, size - 1)
  }

  /** The final byte of a control sequence. */
  function PutGotPars(g: Geometry, s: Term, ch: Byte): (r: Term)
    requires InGrid(g, s)
    ensures InGrid(g, r)
  {
    var t := In(s, Normal);
    var p0 := t.parser.par[0];
    var p1, p2 := OrOne(p0), OrOne(t.parser.par[1]);
    if ch == 'J' as int then EraseDisplay(g, t, p0)
    else if ch == 'K' as int then t.(lines := EraseLine(g, t, p0))
    else if ch == 'm' as int then t.(pen := Graphics(t.pen, t.parser.par, 0, t.parser.numpars))
    else
      var (x, y) := Moved(g, t.x, t.y, p1, p2, ch);
      t.(x := x, y := y)
  }

  /** Where a cursor movement leads. */
  function Moved(g: Geometry, x: nat, y: nat, p1: Word, p2: Word, ch: Byte): (r: (nat, nat))
    requires x < g.Columns() && y < g.Rows() && p1 > 0 && p2 > 0
    ensures r.0 < g.Columns() && r.1 < g.Rows()
  {
    if ch == 'A' as int then (x, Back(y, p1))
    else if ch == 'B' as int then (x, Forth(y, p1, g.Rows()))
    else if ch == 'C' as int then (Forth(x, p1, g.Columns()), y)
    else if ch == 'D' as int then (Back(x, p1), y)
    else if ch == 'H' as int || ch == 'f' as int then (Min(p2 - 1, g.Columns() - 1), Min(p1 - 1, g.Rows() - 1))
    else (x, y)
  }

  function EraseDisplay(g: Geometry, t: Term, mode: Word): (r: Term)
    requires InGrid(g, t)
    ensures InGrid(g, r)
  {
    if mode == 0 then
      t.(lines := Erased(EraseLine(g, t, 0), t.y + 1, g.Rows(), 0, g.Columns() * 8, t.pen.bg))
    else if mode == 1 then
      var above := t.(lines := Erased(t.lines, 0, t.y, 0, g.Columns() * 8, t.pen.bg));
      above.(lines := EraseLine(g, above, 1))
    else if mode == 2 then ClearScreen(g, t)
    else t
  }

  function EraseLine(g: Geometry, t: Term, mode: Word): (r: Lines)
    ensures |r| == |t.lines| && forall i :: 0 <= i < |r| ==> |r[i]| == |t.lines[i]|
  {
    if mode == 0 then Erased(t.lines, t.y, t.y + 1, t.x * 8, g.Columns() * 8, t.pen.bg)
    else if mode == 1 then Erased(t.lines, t.y, t.y + 1, 0, (t.x + 1) * 8, t.pen.bg)
    else if mode == 2 then Erased(t.lines, t.y, t.y + 1, 0, g.Columns() * 8, t.pen.bg)
    else t.lines
  }

  /** Parameters i to last of a graphics sequence, in order. */
  function Graphics(pen: Pen, par: seq<Word>, i: nat, last: nat): Pen
    requires i <= last + 1 <= |par|
    decreases last + 1 - i
  {
    if i > last then pen else Graphics(Graphic(pen, par[i]), par, i + 1, last)
  }

  function Graphic(pen: Pen, p: Word): Pen {
    if p == 0 then DEFAULT_PEN
    else if p == 1 then pen.(attr := pen.attr.(bold := true))
    else if p == 4 then pen.(attr := pen.attr.(underline := true))
    else if p == 7 then pen.(attr := pen.attr.(reverse := true))
    else if p == 22 then pen.(attr := pen.attr.(bold := false))
    else if p == 24 then pen.(attr := pen.attr.(underline := false))
    else if p == 27 then pen.(attr := pen.attr.(reverse := false))
    else if 30 <= p <= 37 then pen.(fg := ANSI[p - 30])
    else if p == 39 then pen.(fg := WHITE)
    else if 40 <= p <= 47 then pen.(bg := ANSI[p - 40])
    else if p == 49 then pen.(bg := BLACK)
    else if 90 <= p <= 97 then pen.(fg := ANSI[p - 90 + 8])
    else if 100 <= p <= 107 then pen.(bg := ANSI[p - 100 + 8])
    else pen
  }

  function PutAsk(g: Geometry, t: Term, ch: Byte): (r: Term)
    requires InGrid(g, t) && t.parser.state == Ask
    ensures InGrid(g, r)
  {
    if IsDigit(ch) then t.(parser := DigitRead(t.parser, ch))
    else
      var n := In(t, Normal);
      if t.parser.par[0] == 6 then n.(origin := ch == 'h' as int)
      else if t.parser.par[0] == 7 then n.(wrap := ch == 'h' as int)
      else n
  }

  /** The terminal after one byte: the cursor stays on the grid and the parameter index in range. */
  function PutChar(g: Geometry, font: Font, t: Term, ch: Byte): (r: Term)
    requires InGrid(g, t)
    ensures InGrid(g, r)
  {
    match t.parser.state
    case Normal => PutNormal(g, font, t, ch)
    case Esc => PutEsc(g, t, ch)
    case Square => PutSquare(g, t, ch)
    case GetPars => PutGetPars(g, t, ch)
    case GotPars => PutGotPars(g, t, ch)
    case Ask => PutAsk(g, t, ch)
    case CharSize => In(t, Normal)
    case SetG0 => In(t, Normal)
    case SetG1 => In(t, Normal)
  }

  /** The terminal after a string of bytes. */
  function PutAll(g: Geometry, font: Font, t: Term, s: seq<Byte>, i: nat): (r: Term)
    requires InGrid(g, t) && i <= |s|
    ensures InGrid(g, r)
  {
    if i == 0 then t else PutChar(g, font, PutAll(g, font, t, s, i - 1), s[i - 1])
  }

  // ---------------------------------------------------------------- control sequences

  const ESC: Byte := 27
  const SEMICOLON: Byte := 59

  predicate AllDigits(ds: seq<Byte>) { forall i :: 0 <= i < |ds| ==> IsDigit(ds[i]) }

  predicate Numbers(ps: seq<seq<Byte>>) { forall i :: 0 <= i < |ps| ==> AllDigits(ps[i]) }

  /** The number that the first n decimal digits spell; none spell 0. */
  function Value(ds: seq<Byte>, n: nat): nat
    requires n <= |ds| && AllDigits(ds)
  {
    if n == 0 then 0 else 10 * Value(ds, n - 1) + (ds[n - 1] - '0' as int)
  }

  /** A parameter string: k numbers separated by semicolons. */
  function ParamText(ps: seq<seq<Byte>>, k: nat): seq<Byte>
    requires 1 <= k <= |ps|
  {
    if k == 1 then ps[0] else ParamText(ps, k - 1) + [SEMICOLON] + ps[k - 1]
  }

  /** What the parser should make of k parameters, the last one read up to its n-th digit. */
  function Collected(ps: seq<seq<Byte>>, k: nat, n: nat): (r: seq<Word>)
    requires 1 <= k <= |ps| && k <= MAXPARS && n <= |ps[k - 1]| && Numbers(ps)
    ensures |r| == MAXPARS
  {
    seq(MAXPARS, i => if 0 <= i < k - 1 then Value(ps[i], |ps[i]|) % 0x1_0000_0000 else if i == k - 1
        then Value(ps[i], n) % 0x1_0000_0000 else 0)
  }

  lemma {:induction false} PutAllSplit(g: Geometry, font: Font, t: Term, a: seq<Byte>, b: seq<Byte>, n: nat)
    requires InGrid(g, t) && n <= |b|
    ensures PutAll(g, font, t, a + b, |a| + n) == PutAll(g, font, PutAll(g, font, t, a, |a|), b, n)
  {
    hide PutChar, InGrid;
    if n == 0 {
      PutAllPrefix(g, font, t, a, b, |a|);
    } else {
      PutAllSplit(g, font, t, a, b, n - 1);
    }
  }

  lemma {:induction false} PutAllPrefix(g: Geometry, font: Font, t: Term, a: seq<Byte>, b: seq<Byte>, n: nat)
    requires InGrid(g, t) && n <= |a|
    ensures PutAll(g, font, t, a + b, n) == PutAll(g, font, t, a, n)
  {
    hide PutChar, InGrid;
    if n > 0 { PutAllPrefix(g, font, t, a, b, n - 1); }
  }

  lemma ShiftedValue(v: nat, d: nat)
    requires d < 10
    ensures (10 * (v % 0x1_0000_0000) + d) % 0x1_0000_0000 == (10 * v + d) % 0x1_0000_0000
  {
    var q := v / 0x1_0000_0000;
    assert 10 * v + d == 10 * (v % 0x1_0000_0000) + d + 0x1_0000_0000 * (10 * q);
  }

  /** Digits of parameter k, after the k - 1 before it. */
  lemma {:induction false} DigitsCollected(g: Geometry, font: Font, t: Term, ps: seq<seq<Byte>>, k: nat, n: nat)
    requires InGrid(g, t) && 1 <= k <= |ps| && k <= MAXPARS && n <= |ps[k - 1]| && Numbers(ps)
    requires t.parser == Parser(if k == 1 then Square else GetPars, Collected(ps, k, 0), k - 1)
    ensures PutAll(g, font, t, ps[k - 1], n)
            == t.(parser := Parser(if k == 1 && n == 0 then Square else GetPars, Collected(ps, k, n), k - 1))
  {
    hide Collected, PutChar, LinesFit;
    if n > 0 {
      DigitsCollected(g, font, t, ps, k, n - 1);
      var u := t.(parser := Parser(if k == 1 && n == 1 then Square else GetPars, Collected(ps, k, n - 1), k - 1));
      DigitCollected(g, font, u, ps, k, n);
    }
  }

  lemma DigitCollected(g: Geometry, font: Font, u: Term, ps: seq<seq<Byte>>, k: nat, n: nat)
    requires InGrid(g, u) && 1 <= k <= |ps| && k <= MAXPARS && 1 <= n <= |ps[k - 1]| && Numbers(ps)
    requires u.parser == Parser(if k == 1 && n == 1 then Square else GetPars, Collected(ps, k, n - 1), k - 1)
    ensures PutChar(g, font, u, ps[k - 1][n - 1]) == u.(parser := Parser(GetPars, Collected(ps, k, n), k - 1))
  {
    var ch := ps[k - 1][n - 1];
    ShiftedValue(Value(ps[k - 1], n - 1), ch - '0' as int);
    assert u.parser.par[k - 1 := Value(ps[k - 1], n) % 0x1_0000_0000] == Collected(ps, k, n);
  }

  /** The parser when k whole parameters have been read. */
  function AllRead(ps: seq<seq<Byte>>, k: nat): Parser
    requires 1 <= k <= |ps| && k <= MAXPARS && Numbers(ps)
  {
    Parser(if k == 1 && |ps[0]| == 0 then Square else GetPars, Collected(ps, k, |ps[k - 1]|), k - 1)
  }

  lemma NoneCollected(ps: seq<seq<Byte>>)
    requires 1 <= |ps| && Numbers(ps)
    ensures Collected(ps, 1, 0) == NoPars()
  {
  }

  lemma NextCollected(ps: seq<seq<Byte>>, k: nat)
    requires 1 <= k < |ps| && k < MAXPARS && Numbers(ps)
    ensures Collected(ps, k, |ps[k - 1]|) == Collected(ps, k + 1, 0)
  {
  }

  /** Whatever the numbers, a parameter string of up to 16 of them leaves each in its place. */
  lemma {:induction false} ParamsCollected(g: Geometry, font: Font, t: Term, ps: seq<seq<Byte>>, k: nat)
    requires InGrid(g, t) && 1 <= k <= |ps| && k <= MAXPARS && Numbers(ps)
    requires t.parser == Parser(Square, NoPars(), 0)
    ensures PutAll(g, font, t, ParamText(ps, k), |ParamText(ps, k)|) == t.(parser := AllRead(ps, k))
  {
    hide InGrid, PutAll, Collected, Value, Numbers, NoPars;
    if k == 1 {
      NoneCollected(ps);
      DigitsCollected(g, font, t, ps, 1, |ps[0]|);
    } else {
      ParamsCollected(g, font, t, ps, k - 1);
      NextCollected(ps, k - 1);
      NextParam(g, font, t, ps, k, ParamText(ps, k - 1));
    }
  }

  lemma NextParam(g: Geometry, font: Font, t: Term, ps: seq<seq<Byte>>, k: nat, a: seq<Byte>)
    requires InGrid(g, t) && 2 <= k <= |ps| && k <= MAXPARS && Numbers(ps)
    requires var p := PutAll(g, font, t, a, |a|).parser; p == Parser(p.state, Collected(ps, k, 0), k - 2)
                                                         && (p.state == GetPars || p.state == Square)
    ensures var s := a + [SEMICOLON] + ps[k - 1];
            PutAll(g, font, t, s, |s|) == PutAll(g, font, t, a,
                |a|).(parser := Parser(GetPars, Collected(ps, k, |ps[k - 1]|), k - 1))
  {
    hide *;
    var u, v := PutAll(g, font, t, a, |a|), PutAll(g, font, t, a + [SEMICOLON], |a| + 1);
    PutAllSplit(g, font, t, a, [SEMICOLON], 1);
    SemicolonRead(g, font, u, Collected(ps, k, 0), k);
    PutAllSplit(g, font, t, a + [SEMICOLON], ps[k - 1], |ps[k - 1]|);
    DigitsCollected(g, font, v, ps, k, |ps[k - 1]|);
  }

  lemma SemicolonRead(g: Geometry, font: Font, u: Term, par: seq<Word>, k: nat)
    requires InGrid(g, u) && 2 <= k <= MAXPARS && |par| == MAXPARS
    requires u.parser == Parser(u.parser.state, par, k - 2) && (u.parser.state == GetPars || u.parser.state == Square)
    ensures PutAll(g, font, u, [SEMICOLON], 1) == u.(parser := Parser(GetPars, par, k - 1))
  {
    assert PutAll(g, font, u, [SEMICOLON], 1) == PutChar(g, font, PutAll(g, font, u, [SEMICOLON], 0), SEMICOLON);
  }

  /** Section 5.4 of ECMA-48: ESC [, parameters, final byte.  The final byte acts on exactly the
      numbers that were written. */
  lemma ControlSequence(g: Geometry, font: Font, t: Term, ps: seq<seq<Byte>>, k: nat, final: Byte)
    requires InGrid(g, t) && t.parser.state == Normal
    requires 1 <= k <= |ps| && k <= MAXPARS && Numbers(ps)
    requires !IsDigit(final) && final != SEMICOLON && final != '?' as int
    ensures var s := [ESC, '[' as int] + ParamText(ps, k) + [final];
            PutAll(g, font, t, s, |s|) == PutGotPars(g,
                t.(parser := Parser(Normal, Collected(ps, k, |ps[k - 1]|), k - 1)), final)
  {
    hide PutChar, PutAll, InGrid, ParamText, Collected, Numbers, NoPars, PutGotPars, Value;
    var text := ParamText(ps, k);
    IntroducerRead(g, font, t);
    var u := PutAll(g, font, t, [ESC, '[' as int], 2);
    assert u == t.(parser := Parser(Square, NoPars(), 0));
    PutAllSplit(g, font, t, [ESC, '[' as int], text, |text|);
    ParamsCollected(g, font, u, ps, k);
    var v := PutAll(g, font, u, text, |text|);
    PutAllSplit(g, font, t, [ESC, '[' as int] + text, [final], 1);
    FinalRead(g, font, v, final);
  }

  lemma IntroducerRead(g: Geometry, font: Font, t: Term)
    requires InGrid(g, t) && t.parser.state == Normal
    ensures PutAll(g, font, t, [ESC, '[' as int], 2) == t.(parser := Parser(Square, NoPars(), 0))
  {
    var s := [ESC, '[' as int];
    assert PutAll(g, font, t, s, 0) == t;
    assert PutAll(g, font, t, s, 1) == PutChar(g, font, t, ESC) == In(t, Esc);
  }

  lemma FinalRead(g: Geometry, font: Font, v: Term, final: Byte)
    requires InGrid(g, v) && (v.parser.state == GetPars || v.parser.state == Square)
    requires !IsDigit(final) && final != SEMICOLON && final != '?' as int
    ensures PutAll(g, font, v, [final], 1) == PutGotPars(g, v.(parser := v.parser.(state := Normal)), final)
  {
    assert PutAll(g, font, v, [final], 0) == v;
    hide EraseDisplay, EraseLine, Graphics, Moved;
  }

  /** ESC [ r ; c H puts the cursor on row r, column c, counting from 1 and clipped to the grid. */
  lemma CursorAddressed(g: Geometry, font: Font, t: Term, r: seq<Byte>, c: seq<Byte>)
    requires InGrid(g, t) && t.parser.state == Normal && AllDigits(r) && AllDigits(c)
    requires 0 < Value(r, |r|) < 0x1_0000_0000 && 0 < Value(c, |c|) < 0x1_0000_0000
    ensures var s := [ESC, '[' as int] + r + [SEMICOLON] + c + ['H' as int];
            var u := PutAll(g, font, t, s, |s|);
            u.x == Min(Value(c, |c|), g.Columns()) - 1 && u.y == Min(Value(r, |r|), g.Rows()) - 1 && u.lines == t.lines
                && u.pen == t.pen
  {
    var ps := [r, c];
    assert ParamText(ps, 2) == r + [SEMICOLON] + c;
    assert [ESC, '[' as int] + (r + [SEMICOLON] + c)
           + ['H' as int] == [ESC, '[' as int] + r + [SEMICOLON] + c + ['H' as int];
    var par := Collected(ps, 2, |c|);
    assert par[0] == Value(r, |r|) && par[1] == Value(c, |c|);
    hide *;
    ControlSequence(g, font, t, ps, 2, 'H' as int);
    PositionTaken(g, t.(parser := Parser(Normal, par, 1)));
  }

  lemma PositionTaken(g: Geometry, t: Term)
    requires InGrid(g, t) && t.parser.par[0] > 0 && t.parser.par[1] > 0
    ensures var u := PutGotPars(g, t, 'H' as int);
            u.x == Min(t.parser.par[1], g.Columns()) - 1 && u.y == Min(t.parser.par[0], g.Rows()) - 1
                && u.lines == t.lines && u.pen == t.pen
  {
  }
}
