/** The drawing side of kernel/video_console.c: a shadow buffer that is copied to the framebuffer
    at once, or, while a string is being written, only when the batch is flushed. */
module Console {
  import opened Terminal

  const CLEAN_MIN: int := 999999
  const CLEAN_MAX: int := -1

  /** Text scanlines that a flush would copy. */
  predicate Pending(batch: bool, scrolled: bool, lo: int, hi: int, i: int) {
    batch && (scrolled || lo * 16 <= i < hi * 16 + 16)
  }

  /** Shadow and framebuffer agree on the text area, except where a flush is due. */
  ghost predicate Agree(g: Geometry, shadow: Lines, fb: Lines, batch: bool, scrolled: bool, lo: int, hi: int) {
    && |shadow| == |fb| == g.height
    && forall i :: 0 <= i < g.Rows() * 16 && i < g.height && !Pending(batch, scrolled, lo, hi, i) ==> fb[i] == shadow[i]
  }

  /** The framebuffer when the text area shows these lines. */
  function Shown(g: Geometry, lines: Lines, fb: Lines): Lines
    requires |lines| == |fb| == g.height
  {
    lines[..g.Rows() * 16] + fb[g.Rows() * 16..]
  }

  class Screen {
    const g: Geometry
    const font: Font
    const shadow: array<Line>
    const fb: array<Line>
    var x: nat
    var y: nat
    var state: State
    var par: seq<Word>
    var numpars: nat
    var pen: Pen
    var wrap: bool
    var origin: bool
    var batch: bool
    var scrolled: bool
    var dirtyMin: int
    var dirtyMax: int

    /** The terminal as the shadow buffer has it. */
    ghost function View(): Term
      reads this, shadow
    {
      Term(shadow[..], x, y, Parser(state, par, numpars), pen, wrap, origin)
    }

    ghost predicate Valid()
      reads this, shadow, fb
    {
      && Buffers() && InGrid(g, View()) && DirtyFits()
      && Agree(g, shadow[..], fb[..], batch, scrolled, dirtyMin, dirtyMax)
    }

    /** video_console_init: a blank screen with the cursor at home. */
    constructor (g: Geometry, font: Font)
      requires g.Fits()
      ensures Valid() && fresh(shadow) && fresh(fb) && this.g == g && this.font == font && !batch
      ensures View() == Term(AllCleared(g, BLACK), 0, 0, Parser(Normal, seq(MAXPARS, _ => 0), 0), DEFAULT_PEN, true,
              false)
    {
      this.g, this.font := g, font;
      shadow := new Line[g.height](_ => Blank(g, BLACK));
      fb := new Line[g.height](_ => Blank(g, BLACK));
      x, y, state, par, numpars := 0, 0, Normal, seq(MAXPARS, _ => 0), 0;
      pen, wrap, origin := DEFAULT_PEN, true, false;
      batch, scrolled, dirtyMin, dirtyMax := false, false, CLEAN_MIN, CLEAN_MAX;
    }

    // -------------------------------------------------------------- shadow to framebuffer

    predicate Clean()
      reads `scrolled, `dirtyMin, `dirtyMax
    {
      !scrolled && dirtyMin == CLEAN_MIN && dirtyMax == CLEAN_MAX
    }

    /** The dirty rows are none or a range of text rows; outside a batch there are none. */
    predicate DirtyFits()
      reads `scrolled, `dirtyMin, `dirtyMax, `batch
    {
      ((dirtyMin == CLEAN_MIN && dirtyMax == CLEAN_MAX) || 0 <= dirtyMin <= dirtyMax < g.Rows()) && (!batch ==> Clean())
    }

    ghost predicate Buffers()
      reads shadow, fb
    {
      shadow != fb && g.Fits() && shadow.Length == fb.Length == g.height
    }

    /** Whatever the framebuffer holds below the text area. */
    ghost function Margin(): Lines
      reads fb
    {
      if g.Rows() * 16 <= fb.Length then fb[g.Rows() * 16..] else []
    }

    method MarkRowDirty(row: int)
      requires g.Fits() && DirtyFits() && batch
      modifies `dirtyMin, `dirtyMax
      ensures 0 <= row < g.Rows() ==> dirtyMin <= row <= dirtyMax && dirtyMin <= old(dirtyMin)
                                      && dirtyMax >= old(dirtyMax)
      ensures DirtyFits()
      ensures !(0 <= row < g.Rows()) ==> dirtyMin == old(dirtyMin) && dirtyMax == old(dirtyMax)
    {
      if row < 0 || row >= g.Rows() {
        return;
      }
      if row < dirtyMin { dirtyMin := row; }
      if row > dirtyMax { dirtyMax := row; }
    }

    /** vc_sync_scanlines: copy whole scanlines. */
    method SyncScanlines(start: nat, count: nat)
      requires Buffers()
      modifies fb
      ensures forall i :: 0 <= i < g.height ==> fb[i] == if start <= i < start + count then shadow[i] else old(fb[i])
    {
      if count == 0 || start >= g.height {
        return;
      }
      var n := if start + count > g.height then g.height - start else count;
      for k := 0 to n
        invariant forall i :: 0 <= i < g.height ==> fb[i] == if start <= i < start + k then shadow[i] else old(fb[i])
      {
        fb[start + k] := shadow[start + k];
      }
    }

    method SyncFull()
      requires Buffers()
      modifies fb
      ensures forall i :: 0 <= i < g.height ==> fb[i] == if i < g.Rows() * 16 then shadow[i] else old(fb[i])
    {
      var active := g.Rows() * 16;
      if active > g.height { active := g.height; }
      SyncScanlines(0, active);
    }

    /** After the scanlines of one row have been redrawn. */
    method RowChanged(row: nat, ghost before: Lines)
      requires Buffers() && DirtyFits() && row < g.Rows() && |before| == g.height
               && Agree(g, before, fb[..], batch, scrolled, dirtyMin, dirtyMax)
      requires forall i :: 0 <= i < g.height && !(row * 16 <= i < row * 16 + 16) ==> shadow[i] == before[i]
      modifies `dirtyMin, `dirtyMax, fb
      ensures DirtyFits() && Agree(g, shadow[..], fb[..], batch, scrolled, dirtyMin, dirtyMax)
      ensures Margin() == old(Margin())
    {
      if batch {
        MarkRowDirty(row);
      } else {
        SyncScanlines(row * 16, 16);
      }
    }

    /** After any scanlines have been redrawn. */
    method AllChanged()
      requires Buffers() && DirtyFits()
      modifies `scrolled, fb
      ensures DirtyFits() && Agree(g, shadow[..], fb[..], batch, scrolled, dirtyMin, dirtyMax)
      ensures Margin() == old(Margin())
    {
      if batch {
        scrolled := true;
      } else {
        SyncFull();
      }
    }

    /** vc_flush_batch: afterwards nothing is due. */
    method FlushBatch()
      requires Buffers() && DirtyFits() && batch && Agree(g, shadow[..], fb[..], batch, scrolled, dirtyMin, dirtyMax)
      modifies `scrolled, `dirtyMin, `dirtyMax, fb
      ensures Clean() && Agree(g, shadow[..], fb[..], false, false, dirtyMin, dirtyMax)
      ensures Margin() == old(Margin())
    {
      if scrolled {
        SyncFull();
        scrolled := false;
        dirtyMin, dirtyMax := CLEAN_MIN, CLEAN_MAX;
      } else if dirtyMax >= dirtyMin {
        SyncScanlines(dirtyMin * 16, (dirtyMax - dirtyMin + 1) * 16);
        dirtyMin, dirtyMax := CLEAN_MIN, CLEAN_MAX;
      }
    }

    // -------------------------------------------------------------- drawing

    method RenderGlyph(ch: Byte)
      requires Valid()
      modifies shadow
      ensures shadow[..] == Painted(font, old(View()), ch)
    {
      ghost var v := View();
      var px, py := x * 8, y * 16;
      assert px + 8 <= g.width && py + 16 <= g.height;
      for row := 0 to 16
        invariant forall i :: 0 <= i < g.height ==> shadow[i] == PaintedLine(font, v, ch, i, row)
      {
        var bits := if pen.attr.underline && row == 14 then 0xFF else font[ch * 16 + row];
        var line := PaintLine(shadow[py + row], px, bits, pen.Ink(), pen.Paper());
        hide LinePainted;
        shadow[py + row] := line;
      }
    }

    method PaintChar(ch: Byte)
      requires Valid()
      modifies this, shadow, fb
      ensures Valid() && View() == old(View()).(lines := Painted(font, old(View()), ch)) && Margin() == old(Margin())
              && batch == old(batch)
    {
      ghost var before := shadow[..];
      RenderGlyph(ch);
      RowChanged(y, before);
    }

    /** vc_clear_line_rect: erase part of one text row. */
    method ClearLineRect(start: nat, end: nat, row: nat)
      requires Valid() && row < g.Rows() && end <= g.Columns()
      modifies this, shadow, fb
      ensures Valid()
              && View() == old(View()).(lines := Erased(old(View()).lines, row, row + 1, start * 8, end * 8, pen.bg))
      ensures Margin() == old(Margin()) && batch == old(batch)
    {
      ghost var before := shadow[..];
      EraseRow(start * 8, end * 8, row);
      RowChanged(row, before);
    }

    method EraseRow(a: nat, b: nat, row: nat)
      requires Valid() && row < g.Rows() && b <= g.width
      modifies shadow
      ensures shadow[..] == Erased(old(shadow[..]), row, row + 1, a, b, pen.bg)
    {
      var py := row * 16;
      for r := 0 to 16
        invariant forall i :: 0 <= i < g.height ==> shadow[i] == if py <= i < py + r
                  then LineErased(old(shadow[i]), a, b, pen.bg) else old(shadow[i])
      {
        var line := ClearPixels(shadow[py + r], a, b, pen.bg);
        hide LineErased;
        shadow[py + r] := line;
      }
    }

    /** vc_clear_screen */
    method Clear()
      requires Valid()
      modifies this, shadow, fb
      ensures Valid() && View() == ClearScreen(g, old(View())) && Margin() == old(Margin()) && batch == old(batch)
    {
      ClearLines();
      AllChanged();
      x, y := 0, 0;
    }

    method ClearLines()
      requires Valid()
      modifies shadow
      ensures shadow[..] == AllCleared(g, pen.bg)
    {
      for i := 0 to g.height
        invariant forall k :: 0 <= k < i ==> shadow[k] == Blank(g, pen.bg)
      {
        shadow[i] := Blank(g, pen.bg);
      }
    }

    /** Erase scanlines from to to - 1, leaving any padding beyond the screen's width. */
    method EraseScanlines(from: nat, to: nat)
      requires Buffers() && LinesFit(g, shadow[..]) && from <= to <= g.height
      modifies shadow
      ensures forall i :: 0 <= i < g.height ==> shadow[i] == if from <= i < to
              then LineErased(old(shadow[i]), 0, g.width, pen.bg) else old(shadow[i])
    {
      for r := from to to
        invariant forall i :: 0 <= i < g.height ==> shadow[i] == if from <= i < r
                  then LineErased(old(shadow[i]), 0, g.width, pen.bg) else old(shadow[i])
      {
        assert |shadow[..][r]| == g.stride;
        var line := ClearPixels(shadow[r], 0, g.width, pen.bg);
        hide LineErased;
        shadow[r] := line;
      }
    }

    /** vc_scroll_up */
    method ScrollTextUp(n: nat)
      requires Valid()
      modifies this, shadow, fb
      ensures Valid() && View() == ScrollUp(g, old(View()), n) && Margin() == old(Margin()) && batch == old(batch)
    {
      if n == 0 { return; }
      if n >= g.Rows() {
        Clear();
        return;
      }
      MoveUp(n);
      AllChanged();
    }

    method MoveUp(n: nat)
      requires Valid() && 0 < n < g.Rows()
      modifies shadow
      ensures shadow[..] == ScrolledUp(g, old(shadow[..]), n, pen.bg)
    {
      hide LineErased, LinesFit, ScrolledUp, Agree;
      ghost var before := shadow[..];
      var kept := (g.Rows() - n) * 16;
      assert kept + n * 16 <= g.height;
      Memmove(0, n * 16, kept);
      EraseScanlines(kept, g.height);
      UpIsScrolled(g, before, n, pen.bg, shadow[..]);
    }

    /** Move count scanlines, which may overlap, from src to dst. */
    method Memmove(dst: nat, src: nat, count: nat)
      requires Buffers() && LinesFit(g, shadow[..]) && dst + count <= g.height && src + count <= g.height
      modifies shadow
      ensures LinesFit(g, shadow[..])
      ensures forall i :: 0 <= i < g.height ==> shadow[i] == if dst <= i < dst + count then old(shadow[i - dst + src])
              else old(shadow[i])
    {
      assert forall i :: 0 <= i < g.height ==> |shadow[..][i]| == |shadow[i]|;
      forall i | dst <= i < dst + count {
        shadow[i] := shadow[i - dst + src];
      }
    }

    /** vc_scroll_down */
    method ScrollTextDown(n: nat)
      requires Valid()
      modifies this, shadow, fb
      ensures Valid() && View() == ScrollDown(g, old(View()), n) && Margin() == old(Margin()) && batch == old(batch)
    {
      if n == 0 { return; }
      if n >= g.Rows() {
        Clear();
        return;
      }
      MoveDown(n);
      AllChanged();
    }

    method MoveDown(n: nat)
      requires Valid() && 0 < n < g.Rows()
      modifies shadow
      ensures shadow[..] == ScrolledDown(g, old(shadow[..]), n, pen.bg)
    {
      Memmove(n * 16, 0, (g.Rows() - n) * 16);
      EraseScanlines(0, n * 16);
    }

    // -------------------------------------------------------------- the state machine

    method LineFeedHere()
      requires Valid()
      modifies this, shadow, fb
      ensures Valid() && View() == LineFeed(g, old(View())) && Margin() == old(Margin()) && batch == old(batch)
    {
      if y + 1 < g.Rows() {
        y := y + 1;
      } else {
        ScrollTextUp(1);
      }
    }

    method PutcNormal(ch: Byte)
      requires Valid()
      modifies this, shadow, fb
      ensures Valid() && View() == PutNormal(g, font, old(View()), ch) && Margin() == old(Margin())
              && batch == old(batch)
    {
      hide Agree, LinesFit, Painted, Advance, LineFeed, Tab, Screen.Margin, Screen.DirtyFits;
      if ch == 8 {
        if x > 0 { x := x - 1; }
      } else if ch == 9 {
        TabHere();
      } else if ch == 10 {
        x := 0;
        LineFeedHere();
      } else if ch == 13 {
        x := 0;
      } else if ch == 27 {
        state := Esc;
      } else if ch >= 32 {
        PaintChar(ch);
        AdvanceHere();
      }
    }

    method TabHere()
      requires Valid()
      modifies this, shadow, fb
      ensures Valid() && View() == Tab(g, old(View())) && Margin() == old(Margin()) && batch == old(batch)
    {
      hide Agree, LinesFit, LineFeed;
      x := (x + 8) / 8 * 8;
      if x >= g.Columns() {
        x := 0;
        LineFeedHere();
      }
    }

    method AdvanceHere()
      requires Valid()
      modifies this, shadow, fb
      ensures Valid() && View() == Advance(g, old(View())) && Margin() == old(Margin()) && batch == old(batch)
    {
      x := x + 1;
      if x >= g.Columns() {
        if wrap {
          x := 0;
          LineFeedHere();
        } else {
          x := g.Columns() - 1;
        }
      }
    }

    method PutcEsc(ch: Byte)
      requires Valid()
      modifies this, shadow, fb
      ensures Valid() && View() == PutEsc(g, old(View()), ch) && Margin() == old(Margin()) && batch == old(batch)
    {
      hide Agree, LinesFit, LineFeed, ReverseIndex, ClearScreen, NoPars, Screen.Margin, Screen.DirtyFits;
      if ch == '[' as int {
        state, numpars, par := Square, 0, NoPars();
      } else if ch == '#' as int {
        state := CharSize;
      } else if ch == '(' as int {
        state := SetG0;
      } else if ch == ')' as int {
        state := SetG1;
      } else {
        state := Normal;
        if ch == 'c' as int {
          pen := DEFAULT_PEN;
          Clear();
        } else {
          EscMove(ch);
        }
      }
    }

    method EscMove(ch: Byte)
      requires Valid() && state == Normal && ch != '[' as int && ch != '#' as int
               && ch != '(' as int && ch != ')' as int && ch != 'c' as int
      modifies this, shadow, fb
      ensures Valid() && View() == PutEsc(g, old(View()), ch) && Margin() == old(Margin()) && batch == old(batch)
    {
      hide Agree, LinesFit, LineFeed, ScrollDown, ClearScreen, NoPars, Screen.Margin;
      if ch == 'D' as int {
        LineFeedHere();
      } else if ch == 'M' as int {
        if y > 0 {
          y := y - 1;
        } else {
          ScrollTextDown(1);
        }
      } else if ch == 'E' as int {
        x := 0;
        LineFeedHere();
      }
    }

    method PutcSquare(ch: Byte)
      requires Valid() && state == Square
      modifies this, shadow, fb
      ensures Valid() && View() == PutSquare(g, old(View()), ch) && Margin() == old(Margin()) && batch == old(batch)
    {
      hide Agree, LinesFit, PutGotPars;
      if IsDigit(ch) {
        par := par[numpars := ch - '0' as int];
        state := GetPars;
      } else if ch == ';' as int {
        numpars := numpars + 1;
        state := GetPars;
      } else if ch == '?' as int {
        state := Ask;
      } else {
        PutcGotPars(ch);
      }
    }

    method PutcGetPars(ch: Byte)
      requires Valid() && state == GetPars
      modifies this, shadow, fb
      ensures Valid() && View() == PutGetPars(g, old(View()), ch) && Margin() == old(Margin()) && batch == old(batch)
    {
      hide Agree, LinesFit, PutGotPars;
      if IsDigit(ch) {
        par := par[numpars := (10 * par[numpars] + (ch - '0' as int)) % 0x1_0000_0000];
      } else if ch == ';' as int {
        if numpars < MAXPARS - 1 { numpars := numpars + 1; }
      } else {
        PutcGotPars(ch);
      }
    }

    method PutcGotPars(ch: Byte)
      requires Valid()
      modifies this, shadow, fb
      ensures Valid() && View() == PutGotPars(g, old(View()), ch) && Margin() == old(Margin()) && batch == old(batch)
    {
      hide Agree, LinesFit, EraseDisplay, EraseLine, Graphics, Moved;
      state := Normal;
      var p1: Word := if par[0] == 0 then 1 else par[0];
      var p2: Word := if par[1] == 0 then 1 else par[1];
      if ch == 'J' as int {
        EraseInDisplay(par[0]);
      } else if ch == 'K' as int {
        EraseInLine(par[0]);
      } else if ch == 'm' as int {
        SelectGraphics();
      } else {
        x, y := MoveCursor(g, x, y, p1, p2, ch);
      }
    }

    method EraseInLine(mode: Word)
      requires Valid()
      modifies this, shadow, fb
      ensures Valid() && View() == old(View()).(lines := EraseLine(g, old(View()), mode)) && Margin() == old(Margin())
              && batch == old(batch)
    {
      hide Agree, LinesFit, Erased;
      if mode == 0 {
        ClearLineRect(x, g.Columns(), y);
      } else if mode == 1 {
        ClearLineRect(0, x + 1, y);
      } else if mode == 2 {
        ClearLineRect(0, g.Columns(), y);
      }
    }

    method EraseInDisplay(mode: Word)
      requires Valid()
      modifies this, shadow, fb
      ensures Valid() && View() == EraseDisplay(g, old(View()), mode) && Margin() == old(Margin())
              && batch == old(batch)
    {
      hide Agree, LinesFit, Erased, ClearScreen;
      if mode == 0 {
        EraseInLine(0);
        ClearRows(y + 1, g.Rows());
      } else if mode == 1 {
        ClearRows(0, y);
        EraseInLine(1);
      } else if mode == 2 {
        Clear();
      }
    }

    /** Erase text rows r0 to r1 - 1. */
    method ClearRows(r0: nat, r1: nat)
      requires Valid() && r0 <= r1 <= g.Rows()
      modifies this, shadow, fb
      ensures Valid() && View() == old(View()).(lines := Erased(old(View()).lines, r0, r1, 0, g.Columns() * 8, pen.bg))
      ensures Margin() == old(Margin()) && batch == old(batch)
    {
      ghost var v, color := View(), pen.bg;
      ErasedNone(v.lines, r0, g.Columns() * 8, color);
      hide Screen.Valid, Screen.Margin, Erased;
      for r := r0 to r1
        invariant Valid() && View() == v.(lines := Erased(v.lines, r0, r, 0, g.Columns() * 8, color))
        invariant pen.bg == color && Margin() == old(Margin()) && batch == old(batch)
      {
        ErasedOneMore(v.lines, r0, r, g.Columns() * 8, color);
        ClearLineRect(0, g.Columns(), r);
      }
    }

    method SelectGraphics()
      requires Valid()
      modifies `pen
      ensures Valid() && View() == old(View()).(pen := Graphics(old(pen), par, 0, numpars))
    {
      hide Agree, LinesFit;
      for i := 0 to numpars + 1
        invariant Graphics(pen, par, i, numpars) == Graphics(old(pen), par, 0, numpars)
      {
        hide Graphic;
        pen := Graphic(pen, par[i]);
      }
    }

    method PutcAsk(ch: Byte)
      requires Valid() && state == Ask
      modifies this
      ensures Valid() && View() == PutAsk(g, old(View()), ch) && batch == old(batch)
    {
      hide Agree, LinesFit;
      if IsDigit(ch) {
        par := par[numpars := (10 * par[numpars] + (ch - '0' as int)) % 0x1_0000_0000];
        return;
      }
      state := Normal;
      if par[0] == 6 {
        origin := ch == 'h' as int;
      } else if par[0] == 7 {
        wrap := ch == 'h' as int;
      }
    }

    /** gc_putc_char */
    method PutcChar(ch: Byte)
      requires Valid()
      modifies this, shadow, fb
      ensures Valid() && View() == PutChar(g, font, old(View()), ch) && Margin() == old(Margin()) && batch == old(batch)
    {
      hide Agree, LinesFit, PutNormal, PutEsc, PutSquare, PutGetPars, PutGotPars, PutAsk;
      match state {
        case Normal => PutcNormal(ch);
        case Esc => PutcEsc(ch);
        case Square => PutcSquare(ch);
        case GetPars => PutcGetPars(ch);
        case GotPars => PutcGotPars(ch);
        case Ask => PutcAsk(ch);
        case CharSize => state := Normal;
        case SetG0 => state := Normal;
        case SetG1 => state := Normal;
      }
    }

    /** vc_write: one batch.  The terminal is what its bytes make of it, the framebuffer shows it
        and nothing is left to flush. */
    method Write(s: seq<Byte>)
      requires Valid() && !batch
      modifies this, shadow, fb
      ensures Valid() && !batch && View() == PutAll(g, font, old(View()), s, |s|)
      ensures fb[..] == Shown(g, shadow[..], old(fb[..]))
    {
      if s == [] {
        ShownAlready(g, shadow[..], fb[..]);
        return;
      }
      batch := true;
      for i := 0 to |s|
        invariant Valid() && batch && View() == PutAll(g, font, old(View()), s, i) && Margin() == old(Margin())
      {
        hide Agree, LinesFit, PutChar, Screen.Margin, Screen.DirtyFits;
        PutcChar(s[i]);
      }
      EndBatch();
    }

    method EndBatch()
      requires Valid() && batch
      modifies `scrolled, `dirtyMin, `dirtyMax, `batch, fb
      ensures Valid() && !batch && fb[..] == Shown(g, shadow[..], old(fb[..]))
    {
      FlushBatch();
      batch := false;
      hide InGrid;
      ShownAlready(g, shadow[..], fb[..]);
    }

    /** vc_putchar, byte by byte: each is drawn at once. */
    method PutEach(s: seq<Byte>)
      requires Valid() && !batch
      modifies this, shadow, fb
      ensures Valid() && !batch && View() == PutAll(g, font, old(View()), s, |s|)
      ensures fb[..] == Shown(g, shadow[..], old(fb[..]))
    {
      for i := 0 to |s|
        invariant Valid() && !batch && View() == PutAll(g, font, old(View()), s, i) && Margin() == old(Margin())
      {
        hide Agree, LinesFit, PutChar, Screen.Margin, Screen.DirtyFits;
        PutcChar(s[i]);
      }
      ShownAlready(g, shadow[..], fb[..]);
    }
  }

  lemma UpIsScrolled(g: Geometry, lines: Lines, n: nat, color: Pixel, r: Lines)
    requires n <= g.Rows() && LinesFit(g, lines) && |r| == g.height
    requires forall i :: 0 <= i < g.height ==> r[i] == if i < (g.Rows() - n) * 16 then lines[i + n * 16]
             else LineErased(lines[i], 0, g.width, color)
    ensures r == ScrolledUp(g, lines, n, color)
  {
    forall i | 0 <= i < g.height ensures r[i] == ScrolledUp(g, lines, n, color)[i] { }
  }

  lemma ShownAlready(g: Geometry, shadow: Lines, fb: Lines)
    requires g.Fits() && Agree(g, shadow, fb, false, false, CLEAN_MIN, CLEAN_MAX)
    ensures fb == Shown(g, shadow, fb)
  {
  }

  lemma ErasedNone(lines: Lines, r0: nat, b: nat, color: Pixel)
    ensures Erased(lines, r0, r0, 0, b, color) == lines
  {
  }

  lemma ErasedOneMore(lines: Lines, r0: nat, r: nat, b: nat, color: Pixel)
    requires r0 <= r
    ensures Erased(Erased(lines, r0, r, 0, b, color), r, r + 1, 0, b, color) == Erased(lines, r0, r + 1, 0, b, color)
  {
    hide LineErased;
  }

  method MoveCursor(g: Geometry, x: nat, y: nat, p1: Word, p2: Word, ch: Byte) returns (col: nat, row: nat)
    requires x < g.Columns() && y < g.Rows() && p1 > 0 && p2 > 0
    ensures (col, row) == Moved(g, x, y, p1, p2, ch)
  {
    col, row := x, y;
    if ch == 'A' as int {
      row := if row >= p1 then row - p1 else 0;
    } else if ch == 'B' as int {
      row := (row + p1) % 0x1_0000_0000;
      if row >= g.Rows() { row := g.Rows() - 1; }
    } else if ch == 'C' as int {
      col := (col + p1) % 0x1_0000_0000;
      if col >= g.Columns() { col := g.Columns() - 1; }
    } else if ch == 'D' as int {
      col := if col >= p1 then col - p1 else 0;
    } else if ch == 'H' as int || ch == 'f' as int {
      row, col := p1 - 1, p2 - 1;
      if row >= g.Rows() { row := g.Rows() - 1; }
      if col >= g.Columns() { col := g.Columns() - 1; }
    }
  }

  method PaintLine(line: Line, px: nat, bits: bv8, ink: Pixel, paper: Pixel) returns (r: Line)
    requires px + 8 <= |line|
    ensures r == LinePainted(line, px, bits, ink, paper)
  {
    r := line;
    for col := 0 to 8
      invariant |r| == |line|
      invariant forall c :: 0 <= c < |line| ==> r[c] == if px <= c < px + col
                then (if Bit(bits, c - px) then ink else paper) else line[c]
    {
      r := r[px + col := if Bit(bits, col) then ink else paper];
    }
  }

  method ClearPixels(line: Line, a: nat, b: nat, color: Pixel) returns (r: Line)
    requires b <= |line|
    ensures r == LineErased(line, a, b, color)
  {
    r := line;
    var c := a;
    while c < b
      invariant |r| == |line| && (a <= c <= b || b <= a == c)
      invariant forall i :: 0 <= i < |line| ==> r[i] == if a <= i < c then color else line[i]
    {
      r := r[c := color];
      c := c + 1;
    }
  }

  /** Two consoles in the same state, one given a string as a batch and the other byte by byte,
      end in the same state: cursor, parser, pen, shadow buffer, framebuffer and dirty rows. */
  method BatchMatchesImmediate(a: Screen, b: Screen, s: seq<Byte>)
    requires a.Valid() && b.Valid() && !a.batch && !b.batch && a.g == b.g && a.font == b.font
    requires a != b && {a.shadow, a.fb} !! {b.shadow, b.fb}
    requires a.View() == b.View() && a.fb[..] == b.fb[..]
    modifies a, a.shadow, a.fb, b, b.shadow, b.fb
    ensures a.View() == b.View() == PutAll(a.g, a.font, old(a.View()), s, |s|) && a.fb[..] == b.fb[..]
    ensures a.Clean() && b.Clean() && !a.batch && !b.batch
  {
    a.Write(s);
    b.PutEach(s);
  }
}
