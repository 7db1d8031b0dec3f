/** What strings of bytes do to the terminal, pixel by pixel: characters, control characters and
    the control sequences of section 8.3 of ECMA-48 that the console knows. */
module TerminalLaws {
  import opened Terminal

  /** The terminal after a whole string. */
  function After(g: Geometry, font: Font, t: Term, s: seq<Byte>): (r: Term)
    requires InGrid(g, t)
    ensures InGrid(g, r)
  {
    PutAll(g, font, t, s, |s|)
  }

  /** ESC [, a parameter string and a final byte. */
  function Csi(text: seq<Byte>, final: char): seq<Byte>
    requires final as int < 256
  {
    [ESC, '[' as int] + text + [final as int]
  }

  /** The grid: as many cells of 8 by 16 pixels as fit on the screen. */
  lemma GridSize(g: Geometry)
    ensures 8 * g.Columns() <= g.width < 8 * g.Columns() + 8
    ensures 16 * g.Rows() <= g.height < 16 * g.Rows() + 16
  {
  }

  /** Only the pen may have changed. */
  predicate PenOnly(t: Term, u: Term) {
    u.lines == t.lines && u.x == t.x && u.y == t.y && u.wrap == t.wrap && u.origin == t.origin
    && u.parser.state == Normal
  }

  /** Only the cursor may have moved. */
  predicate CursorOnly(t: Term, u: Term) {
    u.lines == t.lines && u.pen == t.pen && u.wrap == t.wrap && u.origin == t.origin && u.parser.state == Normal
  }

  /** Only pixels may have changed. */
  predicate PixelsOnly(t: Term, u: Term) {
    u.pen == t.pen && u.x == t.x && u.y == t.y && u.wrap == t.wrap && u.origin == t.origin && u.parser.state == Normal
  }

  // ---------------------------------------------------------------- one sequence

  lemma Sequence(g: Geometry, font: Font, t: Term, ps: seq<seq<Byte>>, k: nat, final: char)
    requires InGrid(g, t) && t.parser.state == Normal && 1 <= k <= |ps| && k <= MAXPARS && Numbers(ps)
    requires 'A' <= final <= 'z'
    ensures After(g, font, t, Csi(ParamText(ps, k), final)) ==
            PutGotPars(g, t.(parser := Parser(Normal, Collected(ps, k, |ps[k - 1]|), k - 1)), final as int)
  {
    hide PutGotPars, Collected, ParamText, PutAll, InGrid, Numbers;
    ControlSequence(g, font, t, ps, k, final as int);
  }

  /** The parser when the one parameter p has been read. */
  predicate HasRead(parser: Parser, p: Word) {
    parser.Fits() && parser.state == Normal && parser.numpars == 0 && parser.par[0] == p && parser.par[1] == 0
  }

  lemma OneNumber(g: Geometry, font: Font, t: Term, ds: seq<Byte>, final: char) returns (parser: Parser)
    requires InGrid(g, t) && t.parser.state == Normal && AllDigits(ds) && 'A' <= final <= 'z'
    ensures HasRead(parser, Value(ds, |ds|) % 0x1_0000_0000)
    ensures InGrid(g, t.(parser := parser))
    ensures Value(ds, |ds|) < 0x1_0000_0000 ==> parser.par[0] == Value(ds, |ds|)
    ensures After(g, font, t, Csi(ds, final)) == PutGotPars(g, t.(parser := parser), final as int)
  {
    var ps := [ds];
    parser := Parser(Normal, Collected(ps, 1, |ds|), 0);
    assert HasRead(parser, Value(ds, |ds|) % 0x1_0000_0000);
    assert InGrid(g, t.(parser := parser));
    hide *;
    assert ParamText(ps, 1) == ds by { OneText(ds); }
    Sequence(g, font, t, ps, 1, final);
  }

  lemma OneText(ds: seq<Byte>)
    ensures ParamText([ds], 1) == ds
  {
  }

  // ---------------------------------------------------------------- graphics

  /** Black, red, green, yellow (brown), blue, magenta, cyan and white (grey). */
  const NORMAL_COLOURS: seq<Pixel> := [
    0x000000, 0xAA0000, 0x00AA00, 0xAA5500, 0x0000AA, 0xAA00AA, 0x00AAAA, 0xAAAAAA]

  /** The same, bright. */
  const BRIGHT_COLOURS: seq<Pixel> := [
    0x555555, 0xFF5555, 0x55FF55, 0xFFFF55, 0x5555FF, 0xFF55FF, 0x55FFFF, 0xFFFFFF]

  lemma GraphicsFinal(g: Geometry, t: Term)
    requires InGrid(g, t) && t.parser.numpars == 0
    ensures var u := PutGotPars(g, t, 'm' as int);
            PenOnly(t, u) && u.pen == Graphic(t.pen, t.parser.par[0])
  {
    assert Graphics(t.pen, t.parser.par, 0, 0) == Graphic(t.pen, t.parser.par[0]);
    hide EraseDisplay, EraseLine, Moved, Graphic;
  }

  lemma OneGraphic(g: Geometry, font: Font, t: Term, ds: seq<Byte>)
    requires InGrid(g, t) && t.parser.state == Normal && AllDigits(ds) && Value(ds, |ds|) < 0x1_0000_0000
    ensures var u := After(g, font, t, Csi(ds, 'm'));
            PenOnly(t, u) && u.pen == Graphic(t.pen, Value(ds, |ds|))
  {
    hide PutGotPars, Graphic, Value, PutAll, LinesFit;
    var parser := OneNumber(g, font, t, ds, 'm');
    GraphicsFinal(g, t.(parser := parser));
  }

  /** ESC [ 0 m, or without a number, puts the pen back to white on black without attributes. */
  lemma GraphicsReset(g: Geometry, font: Font, t: Term, ds: seq<Byte>)
    requires InGrid(g, t) && t.parser.state == Normal && AllDigits(ds) && Value(ds, |ds|) == 0
    ensures var u := After(g, font, t, Csi(ds, 'm'));
            PenOnly(t, u) && u.pen.fg == 0xFFFFFF && u.pen.bg == 0x000000
            && !u.pen.attr.bold && !u.pen.attr.underline && !u.pen.attr.reverse
  {
    hide After, Value;
    OneGraphic(g, font, t, ds);
  }

  /** 1, 4 and 7 set bold, underline and reverse, and 22, 24 and 27 clear them; each touches its
      own attribute and no colour. */
  lemma GraphicsAttributes(g: Geometry, font: Font, t: Term, ds: seq<Byte>)
    requires InGrid(g, t) && t.parser.state == Normal && AllDigits(ds)
    requires Value(ds, |ds|) in {1, 4, 7, 22, 24, 27}
    ensures var u, p, a := After(g, font, t, Csi(ds, 'm')), Value(ds, |ds|), t.pen.attr;
            && PenOnly(t, u) && u.pen.fg == t.pen.fg && u.pen.bg == t.pen.bg
            && (u.pen.attr.bold <==> p == 1 || (a.bold && p != 22))
            && (u.pen.attr.underline <==> p == 4 || (a.underline && p != 24))
            && (u.pen.attr.reverse <==> p == 7 || (a.reverse && p != 27))
  {
    hide After, Value;
    OneGraphic(g, font, t, ds);
  }

  lemma InkChosen(pen: Pen, p: nat)
    requires 30 <= p <= 37 || p == 39 || 90 <= p <= 97
    ensures Graphic(pen, p).attr == pen.attr && Graphic(pen, p).bg == pen.bg
    ensures Graphic(pen, p).fg ==
            if p == 39 then 0xFFFFFF else if p < 39 then NORMAL_COLOURS[p - 30] else BRIGHT_COLOURS[p - 90]
  {
  }

  lemma PaperChosen(pen: Pen, p: nat)
    requires 40 <= p <= 47 || p == 49 || 100 <= p <= 107
    ensures Graphic(pen, p).attr == pen.attr && Graphic(pen, p).fg == pen.fg
    ensures Graphic(pen, p).bg ==
            if p == 49 then 0x000000 else if p < 49 then NORMAL_COLOURS[p - 40] else BRIGHT_COLOURS[p - 100]
  {
  }

  /** 30 to 37 and 90 to 97 choose the colour of the ink, 39 the default; nothing else changes. */
  lemma GraphicsInk(g: Geometry, font: Font, t: Term, ds: seq<Byte>)
    requires InGrid(g, t) && t.parser.state == Normal && AllDigits(ds)
    requires var p := Value(ds, |ds|); 30 <= p <= 37 || p == 39 || 90 <= p <= 97
    ensures var u, p := After(g, font, t, Csi(ds, 'm')), Value(ds, |ds|);
            && PenOnly(t, u) && u.pen.attr == t.pen.attr && u.pen.bg == t.pen.bg
            && u.pen.fg ==
               if p == 39 then 0xFFFFFF else if p < 39 then NORMAL_COLOURS[p - 30] else BRIGHT_COLOURS[p - 90]
  {
    hide After, Value, Graphic;
    OneGraphic(g, font, t, ds);
    InkChosen(t.pen, Value(ds, |ds|));
  }

  /** 40 to 47 and 100 to 107 choose the colour of the paper, 49 the default. */
  lemma GraphicsPaper(g: Geometry, font: Font, t: Term, ds: seq<Byte>)
    requires InGrid(g, t) && t.parser.state == Normal && AllDigits(ds)
    requires var p := Value(ds, |ds|); 40 <= p <= 47 || p == 49 || 100 <= p <= 107
    ensures var u, p := After(g, font, t, Csi(ds, 'm')), Value(ds, |ds|);
            && PenOnly(t, u) && u.pen.attr == t.pen.attr && u.pen.fg == t.pen.fg
            && u.pen.bg ==
               if p == 49 then 0x000000 else if p < 49 then NORMAL_COLOURS[p - 40] else BRIGHT_COLOURS[p - 100]
  {
    hide After, Value, Graphic;
    OneGraphic(g, font, t, ds);
    PaperChosen(t.pen, Value(ds, |ds|));
  }

  /** Every other number leaves the pen as it was. */
  lemma GraphicsOther(g: Geometry, font: Font, t: Term, ds: seq<Byte>)
    requires InGrid(g, t) && t.parser.state == Normal && AllDigits(ds) && Value(ds, |ds|) < 0x1_0000_0000
    requires var p := Value(ds, |ds|);
             p !in {0, 1, 4, 7, 22, 24, 27, 39, 49} && !(30 <= p <= 37) && !(40 <= p <= 47)
             && !(90 <= p <= 97) && !(100 <= p <= 107)
    ensures var u := After(g, font, t, Csi(ds, 'm')); PenOnly(t, u) && u.pen == t.pen
  {
    hide After, Value;
    OneGraphic(g, font, t, ds);
  }

  lemma {:induction false} GraphicsLast(pen: Pen, par: seq<Word>, other: seq<Word>, i: nat, last: nat)
    requires i <= last < |par| && last <= |other| && forall j :: i <= j < last ==> par[j] == other[j]
    ensures Graphics(pen, par, i, last) ==
            Graphic(if i == last then pen else Graphics(pen, other, i, last - 1), par[last])
    decreases last - i
  {
    hide Graphic;
    if i < last {
      GraphicsLast(Graphic(pen, par[i]), par, other, i + 1, last);
    }
  }

  /** Several parameters do what they would do in sequences of their own, one after the other. */
  lemma GraphicsInOrder(g: Geometry, font: Font, t: Term, ps: seq<seq<Byte>>, k: nat)
    requires InGrid(g, t) && t.parser.state == Normal && 2 <= k <= |ps| && k <= MAXPARS && Numbers(ps)
    ensures var u := After(g, font, t, Csi(ParamText(ps, k - 1), 'm'));
            PenOnly(t, u) && After(g, font, t, Csi(ParamText(ps, k), 'm')).pen ==
                             After(g, font, u, Csi(ps[k - 1], 'm')).pen
            && PenOnly(t, After(g, font, t, Csi(ParamText(ps, k), 'm')))
  {
    hide PutGotPars, Graphic, Graphics, Value, PutAll, LinesFit, ParamText, Numbers, After;
    var par, other := Collected(ps, k, |ps[k - 1]|), Collected(ps, k - 1, |ps[k - 2]|);
    var u := After(g, font, t, Csi(ParamText(ps, k - 1), 'm'));
    Sequence(g, font, t, ps, k, 'm');
    Sequence(g, font, t, ps, k - 1, 'm');
    ManyGraphics(g, t.(parser := Parser(Normal, par, k - 1)));
    ManyGraphics(g, t.(parser := Parser(Normal, other, k - 2)));
    GraphicsLast(t.pen, par, other, 0, k - 1);
    assert AllDigits(ps[k - 1]) by { OneOf(ps, k - 1); }
    var parser := OneNumber(g, font, u, ps[k - 1], 'm');
    OneMore(g, u, parser);
  }

  lemma OneOf(ps: seq<seq<Byte>>, i: nat)
    requires Numbers(ps) && i < |ps|
    ensures AllDigits(ps[i])
  {
  }

  lemma OneMore(g: Geometry, u: Term, parser: Parser)
    requires InGrid(g, u) && parser.Fits() && parser.numpars == 0
    ensures PutGotPars(g, u.(parser := parser), 'm' as int).pen == Graphic(u.pen, parser.par[0])
  {
    hide Graphic;
    GraphicsFinal(g, u.(parser := parser));
  }

  lemma ManyGraphics(g: Geometry, t: Term)
    requires InGrid(g, t)
    ensures var u := PutGotPars(g, t, 'm' as int);
            PenOnly(t, u) && u.pen == Graphics(t.pen, t.parser.par, 0, t.parser.numpars)
  {
    hide EraseDisplay, EraseLine, Moved, Graphics;
  }

  // ---------------------------------------------------------------- cursor

  /** A number of steps: none written, or 0, is one. */
  function Steps(ds: seq<Byte>): (n: nat)
    requires AllDigits(ds)
    ensures n >= 1
  {
    if Value(ds, |ds|) == 0 then 1 else Value(ds, |ds|)
  }

  /** n steps from a, as far as the last of size places; the sum is computed in 32 bits. */
  function Reach(a: nat, n: nat, size: nat): int {
    if a + n < size then a + n else if a + n < 0x1_0000_0000 then size - 1 else a + n - 0x1_0000_0000
  }

  lemma ForthReaches(a: nat, p: Word, size: nat)
    requires a < size < 0x1_0000_0000
    ensures Forth(a, p, size) == Reach(a, p, size)
  {
  }

  lemma CursorUpFinal(g: Geometry, t: Term, n: nat)
    requires InGrid(g, t) && n == OrOne(t.parser.par[0])
    ensures var u := PutGotPars(g, t, 'A' as int);
            CursorOnly(t, u) && u.x == t.x && u.y == (if n <= t.y then t.y - n else 0)
  {
    hide EraseDisplay, EraseLine, Graphics;
  }

  /** ESC [ n A moves the cursor up n rows, as far as the first. */
  lemma CursorUp(g: Geometry, font: Font, t: Term, ds: seq<Byte>)
    requires InGrid(g, t) && t.parser.state == Normal && AllDigits(ds) && Value(ds, |ds|) < 0x1_0000_0000
    ensures var u, n := After(g, font, t, Csi(ds, 'A')), Steps(ds);
            CursorOnly(t, u) && u.x == t.x && u.y == (if n <= t.y then t.y - n else 0)
  {
    hide PutGotPars, Value, PutAll, InGrid, After, Csi, AllDigits, Reach;
    var a := OneNumber(g, font, t, ds, 'A');
    CursorUpFinal(g, t.(parser := a), Steps(ds));
  }

  lemma CursorDownFinal(g: Geometry, t: Term, n: nat)
    requires InGrid(g, t) && n == OrOne(t.parser.par[0])
    ensures var u := PutGotPars(g, t, 'B' as int);
            CursorOnly(t, u) && u.x == t.x && u.y == Reach(t.y, n, g.Rows())
  {
    hide EraseDisplay, EraseLine, Graphics, Forth;
    ForthReaches(t.y, n, g.Rows());
  }

  /** ESC [ n B moves it down n rows, as far as the last. */
  lemma CursorDown(g: Geometry, font: Font, t: Term, ds: seq<Byte>)
    requires InGrid(g, t) && t.parser.state == Normal && AllDigits(ds) && Value(ds, |ds|) < 0x1_0000_0000
    ensures var u, n := After(g, font, t, Csi(ds, 'B')), Steps(ds);
            CursorOnly(t, u) && u.x == t.x && u.y == Reach(t.y, n, g.Rows())
  {
    hide PutGotPars, Value, PutAll, InGrid, After, Csi, AllDigits, Reach;
    var a := OneNumber(g, font, t, ds, 'B');
    CursorDownFinal(g, t.(parser := a), Steps(ds));
  }

  lemma CursorRightFinal(g: Geometry, t: Term, n: nat)
    requires InGrid(g, t) && n == OrOne(t.parser.par[0])
    ensures var u := PutGotPars(g, t, 'C' as int);
            CursorOnly(t, u) && u.y == t.y && u.x == Reach(t.x, n, g.Columns())
  {
    hide EraseDisplay, EraseLine, Graphics, Forth;
    ForthReaches(t.x, n, g.Columns());
  }

  /** ESC [ n C moves it right n columns, as far as the last. */
  lemma CursorRight(g: Geometry, font: Font, t: Term, ds: seq<Byte>)
    requires InGrid(g, t) && t.parser.state == Normal && AllDigits(ds) && Value(ds, |ds|) < 0x1_0000_0000
    ensures var u, n := After(g, font, t, Csi(ds, 'C')), Steps(ds);
            CursorOnly(t, u) && u.y == t.y && u.x == Reach(t.x, n, g.Columns())
  {
    hide PutGotPars, Value, PutAll, InGrid, After, Csi, AllDigits, Reach;
    var a := OneNumber(g, font, t, ds, 'C');
    CursorRightFinal(g, t.(parser := a), Steps(ds));
  }

  lemma CursorLeftFinal(g: Geometry, t: Term, n: nat)
    requires InGrid(g, t) && n == OrOne(t.parser.par[0])
    ensures var u := PutGotPars(g, t, 'D' as int);
            CursorOnly(t, u) && u.y == t.y && u.x == (if n <= t.x then t.x - n else 0)
  {
    hide EraseDisplay, EraseLine, Graphics;
  }

  /** ESC [ n D moves it left n columns, as far as the first. */
  lemma CursorLeft(g: Geometry, font: Font, t: Term, ds: seq<Byte>)
    requires InGrid(g, t) && t.parser.state == Normal && AllDigits(ds) && Value(ds, |ds|) < 0x1_0000_0000
    ensures var u, n := After(g, font, t, Csi(ds, 'D')), Steps(ds);
            CursorOnly(t, u) && u.y == t.y && u.x == (if n <= t.x then t.x - n else 0)
  {
    hide PutGotPars, Value, PutAll, InGrid, After, Csi, AllDigits, Reach;
    var a := OneNumber(g, font, t, ds, 'D');
    CursorLeftFinal(g, t.(parser := a), Steps(ds));
  }

  lemma PlaceFinal(g: Geometry, t: Term, final: char)
    requires InGrid(g, t) && final in {'H', 'f'}
    ensures var u := PutGotPars(g, t, final as int);
            CursorOnly(t, u) && u.y == Min(OrOne(t.parser.par[0]), g.Rows()) - 1
            && u.x == Min(OrOne(t.parser.par[1]), g.Columns()) - 1
  {
    hide EraseDisplay, EraseLine, Graphics;
  }

  /** ESC [ r ; c H, or f, puts the cursor on row r and column c, counted from 1, at most the last;
      a number left out, or 0, is 1. */
  lemma CursorPlaced(g: Geometry, font: Font, t: Term, r: seq<Byte>, c: seq<Byte>, final: char)
    requires InGrid(g, t) && t.parser.state == Normal && AllDigits(r) && AllDigits(c) && final in {'H', 'f'}
    requires Value(r, |r|) < 0x1_0000_0000 && Value(c, |c|) < 0x1_0000_0000
    ensures var u := After(g, font, t, Csi(r + [SEMICOLON] + c, final));
            CursorOnly(t, u) && u.y == Min(Steps(r), g.Rows()) - 1 && u.x == Min(Steps(c), g.Columns()) - 1
    ensures var u := After(g, font, t, Csi(r, final));
            CursorOnly(t, u) && u.y == Min(Steps(r), g.Rows()) - 1 && u.x == 0
  {
    hide PutGotPars, Value, PutAll, LinesFit, After, Csi, AllDigits, ParamText;
    var ps := [r, c];
    assert ParamText(ps, 2) == r + [SEMICOLON] + c by { TwoTexts(r, c); }
    Sequence(g, font, t, ps, 2, final);
    PlaceFinal(g, t.(parser := Parser(Normal, Collected(ps, 2, |c|), 1)), final);
    var a := OneNumber(g, font, t, r, final);
    PlaceFinal(g, t.(parser := a), final);
  }

  lemma TwoTexts(r: seq<Byte>, c: seq<Byte>)
    ensures ParamText([r, c], 2) == r + [SEMICOLON] + c
  {
  }

  // ---------------------------------------------------------------- erasing

  /** The screen is as before but for the pixels where the predicate holds, which are paper. */
  ghost predicate ErasedWhere(g: Geometry, t: Term, u: Term, where: (nat, nat) -> bool) {
    LinesFit(g, t.lines) && LinesFit(g, u.lines) &&
    forall i, c :: 0 <= i < g.height && 0 <= c < g.stride ==>
      u.lines[i][c] == if where(i, c) then t.pen.bg else t.lines[i][c]
  }

  lemma EraseLineFinal(g: Geometry, t: Term, p: Word)
    requires InGrid(g, t) && t.parser.par[0] == p
    ensures var u := PutGotPars(g, t, 'K' as int);
            PixelsOnly(t, u) && ErasedWhere(g, t, u, (i, c) =>
              i / 16 == t.y && ((p == 0 && t.x * 8 <= c < g.Columns() * 8) || (p == 1 && c < (t.x + 1) * 8) ||
                                (p == 2 && c < g.Columns() * 8)))
  {
    hide EraseDisplay, Moved, Graphics;
  }

  /** ESC [ K erases in the row of the cursor: 0 from the cursor on, 1 up to and including it, 2
      all of it, anything else nothing. */
  lemma LineErasing(g: Geometry, font: Font, t: Term, ds: seq<Byte>)
    requires InGrid(g, t) && t.parser.state == Normal && AllDigits(ds) && Value(ds, |ds|) < 0x1_0000_0000
    ensures var u, p := After(g, font, t, Csi(ds, 'K')), Value(ds, |ds|);
            PixelsOnly(t, u) && ErasedWhere(g, t, u, (i, c) =>
              i / 16 == t.y && ((p == 0 && t.x * 8 <= c < g.Columns() * 8) || (p == 1 && c < (t.x + 1) * 8) ||
                                (p == 2 && c < g.Columns() * 8)))
  {
    hide PutGotPars, Value, PutAll, InGrid, After, Csi, AllDigits;
    var p := Value(ds, |ds|);
    var a := OneNumber(g, font, t, ds, 'K');
    EraseLineFinal(g, t.(parser := a), p);
  }

  lemma EraseDisplayFinal(g: Geometry, t: Term, p: Word)
    requires InGrid(g, t) && t.parser.par[0] == p && p != 2
    ensures var u := PutGotPars(g, t, 'J' as int);
            PixelsOnly(t, u) && ErasedWhere(g, t, u, (i, c) =>
              || (p == 0 && i / 16 == t.y && t.x * 8 <= c < g.Columns() * 8)
              || (p == 0 && t.y < i / 16 < g.Rows() && c < g.Columns() * 8)
              || (p == 1 && i / 16 < t.y && c < g.Columns() * 8)
              || (p == 1 && i / 16 == t.y && c < (t.x + 1) * 8))
  {
    hide Moved, Graphics;
  }

  /** ESC [ J erases on the screen: 0 from the cursor on, 1 up to and including it, row by row;
      anything above 2 erases nothing. */
  lemma DisplayErasing(g: Geometry, font: Font, t: Term, ds: seq<Byte>)
    requires InGrid(g, t) && t.parser.state == Normal && AllDigits(ds) && Value(ds, |ds|) < 0x1_0000_0000
    requires Value(ds, |ds|) != 2
    ensures var u, p := After(g, font, t, Csi(ds, 'J')), Value(ds, |ds|);
            PixelsOnly(t, u) && ErasedWhere(g, t, u, (i, c) =>
              || (p == 0 && i / 16 == t.y && t.x * 8 <= c < g.Columns() * 8)
              || (p == 0 && t.y < i / 16 < g.Rows() && c < g.Columns() * 8)
              || (p == 1 && i / 16 < t.y && c < g.Columns() * 8)
              || (p == 1 && i / 16 == t.y && c < (t.x + 1) * 8))
  {
    hide PutGotPars, Value, PutAll, InGrid, After, Csi, AllDigits;
    var a := OneNumber(g, font, t, ds, 'J');
    EraseDisplayFinal(g, t.(parser := a), Value(ds, |ds|));
  }

  lemma ClearFinal(g: Geometry, t: Term)
    requires InGrid(g, t) && t.parser.par[0] == 2
    ensures var u := PutGotPars(g, t, 'J' as int);
            ErasedWhere(g, t, u, (i, c) => true) && u.x == 0 && u.y == 0 && u.pen == t.pen && u.parser.state == Normal
  {
    hide Moved, Graphics, EraseLine;
  }

  /** ESC [ 2 J erases every pixel and puts the cursor in the top left corner. */
  lemma DisplayCleared(g: Geometry, font: Font, t: Term, ds: seq<Byte>)
    requires InGrid(g, t) && t.parser.state == Normal && AllDigits(ds) && Value(ds, |ds|) == 2
    ensures var u := After(g, font, t, Csi(ds, 'J'));
            ErasedWhere(g, t, u, (i, c) => true) && u.x == 0 && u.y == 0 && u.pen == t.pen && u.parser.state == Normal
  {
    hide PutGotPars, Value, PutAll, InGrid, After, Csi, AllDigits;
    var a := OneNumber(g, font, t, ds, 'J');
    ClearFinal(g, t.(parser := a));
  }

  // ---------------------------------------------------------------- characters

  /** Pixel (i, c) once ch has been drawn at the cursor: in its cell the font's row, or the
      underline in row 14, in the ink, reversed and brightened as the attributes say. */
  function CellPixel(font: Font, t: Term, ch: Byte, i: nat, c: nat): Pixel
    requires i < |t.lines| && c < |t.lines[i]|
  {
    if i / 16 != t.y || c / 8 != t.x then t.lines[i][c]
    else
      var a := t.pen.attr;
      var front, back := if a.reverse then t.pen.bg else t.pen.fg, if a.reverse then t.pen.fg else t.pen.bg;
      if Bit(font[16 * ch + i % 16], c % 8) || (a.underline && i % 16 == 14) then
        if a.bold then front | 0x555555 else front
      else back
  }

  /** The screen with ch drawn at the cursor. */
  ghost predicate Drawn(g: Geometry, font: Font, t: Term, ch: Byte, lines: Lines) {
    LinesFit(g, t.lines) && LinesFit(g, lines) &&
    forall i, c :: 0 <= i < g.height && 0 <= c < g.stride ==> lines[i][c] == CellPixel(font, t, ch, i, c)
  }

  /** The screen moved up by one row, the last row erased. */
  ghost predicate MovedUp(g: Geometry, from: Lines, to: Lines, paper: Pixel) {
    g.Rows() > 0 && LinesFit(g, from) && LinesFit(g, to) &&
    forall i, c :: 0 <= i < g.height && 0 <= c < g.stride ==>
      to[i][c] == if i / 16 < g.Rows() - 1 then from[i + 16][c] else if c < g.width then paper else from[i][c]
  }

  /** The screen moved down by one row, the first row erased. */
  ghost predicate MovedDown(g: Geometry, from: Lines, to: Lines, paper: Pixel) {
    LinesFit(g, from) && LinesFit(g, to) &&
    forall i, c :: 0 <= i < g.height && 0 <= c < g.stride ==>
      to[i][c] == if i < 16 then (if c < g.width then paper else from[i][c])
                  else if i / 16 < g.Rows() then from[i - 16][c] else from[i][c]
  }

  /** All but lines and cursor. */
  predicate SameModes(t: Term, u: Term) {
    u.pen == t.pen && u.wrap == t.wrap && u.origin == t.origin && u.parser.state == Normal
  }

  /** The next row at column x: one down, or the screen moves up below the cursor; a screen of one
      row is cleared instead. */
  ghost predicate NextRow(g: Geometry, t: Term, x: nat, u: Term) {
    && SameModes(t, u)
    && (t.y + 1 < g.Rows() ==> u.lines == t.lines && u.x == x && u.y == t.y + 1)
    && (t.y + 1 == g.Rows() > 1 ==> MovedUp(g, t.lines, u.lines, t.pen.bg) && u.x == x && u.y == t.y)
    && (g.Rows() == 1 ==> ErasedWhere(g, t, u, (i, c) => true) && u.x == 0 && u.y == 0)
  }

  lemma FeedIsNextRow(g: Geometry, t: Term)
    requires InGrid(g, t) && t.parser.state == Normal
    ensures NextRow(g, t, t.x, LineFeed(g, t))
  {
    if t.y + 1 == g.Rows() > 1 {
      UpIsMovedUp(g, t.lines, t.pen.bg);
    }
  }

  lemma UpIsMovedUp(g: Geometry, lines: Lines, paper: Pixel)
    requires g.Fits() && g.Rows() > 1 && LinesFit(g, lines)
    ensures MovedUp(g, lines, ScrolledUp(g, lines, 1, paper), paper)
  {
  }

  lemma DownIsMovedDown(g: Geometry, lines: Lines, paper: Pixel)
    requires g.Fits() && g.Rows() > 1 && LinesFit(g, lines)
    ensures MovedDown(g, lines, ScrolledDown(g, lines, 1, paper), paper)
  {
  }

  lemma UnderlineBits(col: nat)
    requires col < 8
    ensures Bit(0xFF, col)
  {
    if col == 0 {} else if col == 1 {} else if col == 2 {} else if col == 3 {} else if col == 4 {}
    else if col == 5 {} else if col == 6 {} else {}
  }

  lemma PaintedIsDrawn(g: Geometry, font: Font, t: Term, ch: Byte)
    requires InGrid(g, t)
    ensures Drawn(g, font, t, ch, Painted(font, t, ch))
  {
    hide Bit, Pen.Ink, Pen.Paper;
    forall i, c | 0 <= i < g.height && 0 <= c < g.stride
      ensures Painted(font, t, ch)[i][c] == CellPixel(font, t, ch, i, c)
    {
      PaintedPixel(font, t, ch, i, c);
    }
  }

  lemma PaintedPixel(font: Font, t: Term, ch: Byte, i: nat, c: nat)
    requires i < |t.lines| && c < |t.lines[i]|
    ensures Painted(font, t, ch)[i][c] == CellPixel(font, t, ch, i, c)
  {
    hide Bit;
    UnderlineBits(c % 8);
  }

  lemma OneByte(g: Geometry, font: Font, t: Term, ch: Byte)
    requires InGrid(g, t)
    ensures After(g, font, t, [ch]) == PutChar(g, font, t, ch)
  {
    hide PutChar;
    assert PutAll(g, font, t, [ch], 0) == t;
  }

  /** A character is drawn in its cell and nowhere else, and the cursor goes one to the right; from
      the last column it goes to the next row when the terminal wraps, and stays when it does not. */
  lemma Character(g: Geometry, font: Font, t: Term, ch: Byte) returns (d: Term)
    requires InGrid(g, t) && t.parser.state == Normal && ch >= 32
    ensures d == t.(lines := d.lines) && Drawn(g, font, t, ch, d.lines)
    ensures var u := After(g, font, t, [ch]);
            if t.x + 1 < g.Columns() then u == d.(x := t.x + 1)
            else if t.wrap then NextRow(g, d, 0, u)
            else u == d
  {
    hide Painted, LineFeed, Drawn;
    d := t.(lines := Painted(font, t, ch));
    PaintedIsDrawn(g, font, t, ch);
    OneByte(g, font, t, ch);
    FeedIsNextRow(g, d.(x := 0));
  }

  /** Line feed, and ESC E, go to the start of the next row, ESC D to the next row. */
  lemma NextRows(g: Geometry, font: Font, t: Term)
    requires InGrid(g, t) && t.parser.state == Normal
    ensures NextRow(g, t, 0, After(g, font, t, [10]))
    ensures NextRow(g, t, 0, After(g, font, t, [ESC, 'E' as int]))
    ensures NextRow(g, t, t.x, After(g, font, t, [ESC, 'D' as int]))
  {
    hide LineFeed, After, InGrid;
    OneByte(g, font, t, 10);
    EscByte(g, font, t, 'E' as int);
    EscByte(g, font, t, 'D' as int);
    Fed(g, font, t);
  }

  lemma Fed(g: Geometry, font: Font, t: Term)
    requires InGrid(g, t) && t.parser.state == Normal
    ensures NextRow(g, t, 0, PutChar(g, font, t, 10))
    ensures NextRow(g, t, 0, PutEsc(g, t, 'E' as int)) && NextRow(g, t, t.x, PutEsc(g, t, 'D' as int))
  {
    hide LineFeed, LinesFit;
    FeedIsNextRow(g, t.(x := 0));
    FeedIsNextRow(g, t);
    assert In(t, Normal) == t;
  }

  lemma EscByte(g: Geometry, font: Font, t: Term, ch: Byte)
    requires InGrid(g, t) && t.parser.state == Normal
    ensures After(g, font, t, [ESC, ch]) == PutEsc(g, t, ch)
  {
    hide PutEsc, LinesFit;
    var s := [ESC, ch];
    assert PutAll(g, font, t, s, 0) == t;
    assert PutAll(g, font, t, s, 1) == In(t, Esc);
    assert PutAll(g, font, t, s, 2) == PutEsc(g, In(t, Esc), ch);
    EscForgets(g, t, ch);
  }

  lemma EscForgets(g: Geometry, t: Term, ch: Byte)
    requires InGrid(g, t) && t.parser.state == Normal
    ensures InGrid(g, In(t, Esc)) && PutEsc(g, In(t, Esc), ch) == PutEsc(g, t, ch)
  {
    assert In(In(t, Esc), Normal) == In(t, Normal);
  }

  /** ESC M goes to the row above; in the first row the screen moves down instead. */
  lemma RowAbove(g: Geometry, font: Font, t: Term)
    requires InGrid(g, t) && t.parser.state == Normal
    ensures var u := After(g, font, t, [ESC, 'M' as int]);
            && SameModes(t, u)
            && (t.y > 0 ==> u == t.(y := t.y - 1))
            && (t.y == 0 && g.Rows() > 1 ==> MovedDown(g, t.lines, u.lines, t.pen.bg) && u.x == t.x && u.y == 0)
            && (g.Rows() == 1 ==> ErasedWhere(g, t, u, (i, c) => true) && u.x == 0 && u.y == 0)
  {
    hide After;
    EscByte(g, font, t, 'M' as int);
    if g.Rows() > 1 { DownIsMovedDown(g, t.lines, t.pen.bg); }
  }

  /** ESC c puts the pen back to white on black without attributes and clears the screen. */
  lemma Reset(g: Geometry, font: Font, t: Term)
    requires InGrid(g, t) && t.parser.state == Normal
    ensures var u := After(g, font, t, [ESC, 'c' as int]);
            && u.pen == Pen(Attr(false, false, false), 0xFFFFFF, 0x000000) && u.x == 0 && u.y == 0
            && u.wrap == t.wrap && u.origin == t.origin && u.parser.state == Normal
            && LinesFit(g, u.lines)
            && forall i, c :: 0 <= i < g.height && 0 <= c < g.stride ==> u.lines[i][c] == 0x000000
  {
    hide After;
    EscByte(g, font, t, 'c' as int);
  }

  /** Carriage return, backspace and tab move the cursor in its row, a tab to the next multiple of
      8 or, past the last column, to the next row; other control characters do nothing. */
  lemma ControlCharacters(g: Geometry, font: Font, t: Term, ch: Byte)
    requires InGrid(g, t) && t.parser.state == Normal
    ensures After(g, font, t, [13]) == t.(x := 0)
    ensures After(g, font, t, [8]) == if t.x == 0 then t else t.(x := t.x - 1)
    ensures ch < 32 && ch !in {8, 9, 10, 13, 27} ==> After(g, font, t, [ch]) == t
  {
    hide After;
    OneByte(g, font, t, 13);
    OneByte(g, font, t, 8);
    OneByte(g, font, t, ch);
  }

  lemma TabStop(g: Geometry, font: Font, t: Term)
    requires InGrid(g, t) && t.parser.state == Normal
    ensures var u, x := After(g, font, t, [9]), 8 * (t.x / 8 + 1);
            if x < g.Columns() then u == t.(x := x) else NextRow(g, t, 0, u)
  {
    hide After, LineFeed;
    OneByte(g, font, t, 9);
    FeedIsNextRow(g, t.(x := 0));
  }

  /** ESC (, ESC ) and ESC # take one more byte and do nothing, as does ESC before any byte without
      a meaning. */
  lemma Ignored(g: Geometry, font: Font, t: Term, ch: Byte, next: Byte)
    requires InGrid(g, t) && t.parser.state == Normal
    ensures ch in {'(' as int, ')' as int, '#' as int} ==> After(g, font, t, [ESC, ch, next]) == t
    ensures ch !in {'(' as int, ')' as int, '#' as int, '[' as int, 'c' as int, 'D' as int, 'M' as int, 'E' as int} ==>
            After(g, font, t, [ESC, ch]) == t
  {
    hide After, InGrid, PutChar, PutEsc;
    EscByte(g, font, t, ch);
    EscIgnored(g, font, t, ch, next);
    var a := [ESC, ch];
    assert a + [next] == [ESC, ch, next];
    AfterTwo(g, font, t, a, [next]);
    OneByte(g, font, After(g, font, t, a), next);
  }

  lemma AfterTwo(g: Geometry, font: Font, t: Term, a: seq<Byte>, b: seq<Byte>)
    requires InGrid(g, t)
    ensures After(g, font, t, a + b) == After(g, font, After(g, font, t, a), b)
  {
    hide InGrid, PutAll;
    PutAllSplit(g, font, t, a, b, |b|);
  }

  lemma EscIgnored(g: Geometry, font: Font, t: Term, ch: Byte, next: Byte)
    requires InGrid(g, t) && t.parser.state == Normal
    ensures ch in {'(' as int, ')' as int, '#' as int} ==> PutChar(g, font, PutEsc(g, t, ch), next) == t
    ensures ch !in {'(' as int, ')' as int, '#' as int, '[' as int, 'c' as int, 'D' as int, 'M' as int, 'E' as int} ==>
            PutEsc(g, t, ch) == t
  {
    hide LinesFit, ClearScreen, LineFeed, ReverseIndex;
  }

  // ---------------------------------------------------------------- private modes

  lemma {:induction false} AskDigits(g: Geometry, font: Font, t: Term, ds: seq<Byte>, n: nat)
    requires InGrid(g, t) && t.parser == Parser(Ask, NoPars(), 0) && AllDigits(ds) && n <= |ds|
    ensures var u := PutAll(g, font, t, ds, n);
            u == t.(parser := u.parser) && u.parser.state == Ask && u.parser.numpars == 0
            && u.parser.par[0] == Value(ds, n) % 0x1_0000_0000
    decreases n
  {
    hide InGrid, PutChar;
    if n > 0 {
      AskDigits(g, font, t, ds, n - 1);
      AskDigit(g, font, PutAll(g, font, t, ds, n - 1), ds[n - 1], Value(ds, n - 1));
    }
  }

  lemma AskDigit(g: Geometry, font: Font, u: Term, ch: Byte, v: nat)
    requires InGrid(g, u) && u.parser.state == Ask && u.parser.par[0] == v % 0x1_0000_0000 && IsDigit(ch)
    ensures var w := PutChar(g, font, u, ch);
            w == u.(parser := w.parser) && w.parser.state == Ask && w.parser.numpars == 0
            && w.parser.par[0] == (10 * v + (ch - '0' as int)) % 0x1_0000_0000
  {
    hide LinesFit;
    ShiftedValue(v, ch - '0' as int);
  }

  /** ESC [ ? 7 h makes the terminal wrap and any other final byte makes it stop, 6 does the same
      for the origin, and other numbers do nothing. */
  lemma PrivateMode(g: Geometry, font: Font, t: Term, ds: seq<Byte>, final: Byte)
    requires InGrid(g, t) && t.parser.state == Normal && AllDigits(ds) && Value(ds, |ds|) < 0x1_0000_0000
    requires !IsDigit(final)
    ensures var u, p := After(g, font, t, [ESC, '[' as int, '?' as int] + ds + [final]), Value(ds, |ds|);
            && CursorOnly(t.(wrap := u.wrap, origin := u.origin), u) && u.x == t.x && u.y == t.y
            && u.wrap == (if p == 7 then final == 'h' as int else t.wrap)
            && u.origin == (if p == 6 then final == 'h' as int else t.origin)
  {
    hide PutAll, LinesFit, Value, AllDigits;
    var intro := [ESC, '[' as int, '?' as int];
    AskIntroducer(g, font, t);
    var u := PutAll(g, font, t, intro, 3);
    PutAllSplit(g, font, t, intro, ds, |ds|);
    AskDigits(g, font, u, ds, |ds|);
    PutAllSplit(g, font, t, intro + ds, [final], 1);
    var v := PutAll(g, font, u, ds, |ds|);
    OneByte(g, font, v, final);
    assert After(g, font, v, [final]) == PutAll(g, font, v, [final], 1);
  }

  lemma AskIntroducer(g: Geometry, font: Font, t: Term)
    requires InGrid(g, t) && t.parser.state == Normal
    ensures PutAll(g, font, t, [ESC, '[' as int, '?' as int], 3) == t.(parser := Parser(Ask, NoPars(), 0))
  {
    hide PutAll, LinesFit, NoPars;
    var a := [ESC, '[' as int];
    IntroducerRead(g, font, t);
    assert a + ['?' as int] == [ESC, '[' as int, '?' as int];
    PutAllSplit(g, font, t, a, ['?' as int], 1);
    var u := PutAll(g, font, t, a, 2);
    OneByte(g, font, u, '?' as int);
    assert After(g, font, u, ['?' as int]) == PutAll(g, font, u, ['?' as int], 1);
  }
}
