/** The terminal window's 224-row ring (apps/terminal.c), proved against the
    unbounded transcript. */
module Terminal {
  import opened Bytes
  import opened Characters
  import opened Palette
  import opened Transcript

  /** The ring row that holds line `k`. */
  function Slot(k: int): (r: nat)
    ensures r < TOTAL
  {
    k % TOTAL
  }

  lemma SlotsApart(a: int, b: int)
    requires a < b < a + TOTAL
    ensures Slot(a) != Slot(b)
  {
  }

  predicate IsMove(c: char) {
    c in {'A', 'B', 'C', 'D', 'E', 'F', 'G', 'd', 'H', 'f'}
  }

  class Terminal {
    const grid: array2<Cell>
    var base: int           // line number of screen row 0
    var backCount: int
    var view: nat
    var cx: int
    var cy: int
    var pen: Pen
    var cursorOn: bool
    var savedX: int
    var savedY: int
    var inputRow: int
    var esc: Escape
    ghost var lines: seq<seq<Cell>>

    /** The ring holds the end of the transcript: the screen and as many lines
        above it as there are, up to 200. */
    ghost predicate Ring()
      reads this`base, this`backCount, this`lines, grid
    {
      && grid.Length0 == TOTAL && grid.Length1 == COLS
      && 0 <= base && |lines| == base + ROWS && backCount == (if base < SCROLLBACK then base else SCROLLBACK)
      && (forall k :: 0 <= k < |lines| ==> |lines[k]| == COLS)
      && forall k, c :: base - backCount <= k < base + ROWS && 0 <= c < COLS ==> grid[Slot(k), c] == lines[k][c]
    }

    ghost function Abs(): Term
      reads this
    {
      Term(lines, cx, cy, pen, cursorOn, savedX, savedY, view, inputRow, esc)
    }

    ghost predicate Valid()
      reads this, grid
    {
      Ring() && Abs().Valid()
    }

    constructor ()
      ensures Valid() && fresh(grid)
      ensures Abs() == Term(seq(ROWS, _ => BlankLine(0)), 0, 0, PLAIN, true, 0, 0, 0, -1, Text)
    {
      grid := new Cell[TOTAL, COLS]((i, j) => Blank(0));
      base, backCount, view, cx, cy := 0, 0, 0, 0, 0;
      pen, cursorOn, savedX, savedY, inputRow, esc := PLAIN, true, 0, 0, -1, Text;
      lines := seq(ROWS, _ => BlankLine(0));
    }

    /** What the window shows: the ring row behind screen row `r` of a view
        scrolled back by `offset`. */
    method ScreenRow(r: int, offset: int) returns (slot: nat)
      requires Valid() && 0 <= r < ROWS && 0 <= offset <= backCount
      ensures slot < TOTAL
      ensures offset == view ==> forall c :: 0 <= c < COLS ==> grid[slot, c] == Shown(Abs())[r][c]
      ensures forall c :: 0 <= c < COLS ==> grid[slot, c] == lines[Abs().Top() - offset + r][c]
    {
      slot := Slot(base - offset + r);
    }

    method SetCell(r: int, c: int, cell: Cell)
      requires Ring() && 0 <= r < ROWS && 0 <= c < COLS
      modifies grid, this`lines
      ensures Ring() && lines == old(lines)[base + r := old(lines)[base + r][c := cell]]
    {
      var k := base + r;
      grid[Slot(k), c] := cell;
      lines := lines[k := lines[k][c := cell]];
      forall j | base - backCount <= j < base + ROWS && j != k
        ensures Slot(j) != Slot(k)
      {
        if j < k { SlotsApart(j, k); } else { SlotsApart(k, j); }
      }
    }

    method ClearCells(r: int, from: int, to: int)
      requires Ring() && 0 <= r < ROWS && 0 <= from
      modifies grid, this`lines
      ensures Ring() && lines == old(lines)[base + r := ClearSpan(old(lines)[base + r], from, to, pen.bg)]
    {
      hide Slot;
      var i := from;
      assert ClearSpan(lines[base + r], from, i, pen.bg) == lines[base + r];
      while i < to && i < COLS
        invariant from <= i && (i <= to || i == from) && Ring()
        invariant lines == old(lines)[base + r := ClearSpan(old(lines)[base + r], from, i, pen.bg)]
      {
        SetCell(r, i, Blank(pen.bg));
        assert ClearSpan(old(lines)[base + r], from, i, pen.bg)[i := Blank(pen.bg)]
            == ClearSpan(old(lines)[base + r], from, i + 1, pen.bg);
        i := i + 1;
      }
      assert ClearSpan(old(lines)[base + r], from, i, pen.bg) == ClearSpan(old(lines)[base + r], from, to, pen.bg);
    }

    /** Whole screen rows. */
    method ClearWhole(from: int, to: int)
      requires Valid() && 0 <= from && to <= ROWS
      modifies grid, this`lines
      ensures Valid() && Abs() == ClearRows(old(Abs()), from, to)
    {
      hide Slot, ClearSpan;
      ghost var start := lines;
      var r := from;
      assert Blanked(lines, base + from, base + r, pen.bg) == lines;
      while r < to
        invariant from <= r && (r <= to || r == from) && Ring()
        invariant lines == Blanked(start, base + from, base + r, pen.bg)
      {
        ClearCells(r, 0, COLS);
        WholeRow(start[base + r], pen.bg);
        assert Blanked(start, base + from, base + r, pen.bg)[base + r := BlankLine(pen.bg)]
            == Blanked(start, base + from, base + r + 1, pen.bg);
        r := r + 1;
      }
      assert Blanked(start, base + from, base + r, pen.bg) == Blanked(start, base + from, base + to, pen.bg);
    }

    /** The ring turns by one: the row below the screen still holds an old line. */
    method Turn() returns (ghost stale: seq<Cell>)
      requires Ring()
      modifies this`base, this`backCount, this`lines
      ensures Ring() && base == old(base) + 1 && |stale| == COLS && lines == old(lines) + [stale]
    {
      stale := seq(COLS, c requires 0 <= c < COLS reads this, grid => grid[Slot(base + ROWS), c]);
      lines := lines + [stale];
      base := base + 1;
      if backCount < TOTAL - ROWS {
        backCount := backCount + 1;
      }
    }

    lemma RingSize()
      requires Ring()
      ensures 0 <= base && |lines| == base + ROWS && backCount == (if base < SCROLLBACK then base else SCROLLBACK)
      ensures forall k :: 0 <= k < |lines| ==> |lines[k]| == COLS
    {
    }

    /** One more line, blank, at the bottom. */
    method NewRow()
      requires Ring()
      modifies grid, this`base, this`backCount, this`lines
      ensures Ring() && base == old(base) + 1 && lines == old(lines) + [BlankLine(pen.bg)]
    {
      hide ClearSpan, Slot;
      ghost var stale := Turn();
      ClearCells(ROWS - 1, 0, COLS);
      WholeRow(stale, pen.bg);
    }

    method ScrollUpOne()
      requires Valid()
      modifies grid, this
      ensures Valid() && Abs() == ScrollUp(old(Abs()))
    {
      hide Ring, Follows, BlankLine;
      RingSize();
      NewRow();
      RingSize();
      if inputRow >= 0 {
        inputRow := inputRow - 1;
      }
      if view > 0 && view < backCount {
        view := view + 1;
      }
    }

    method LineDown()
      requires Valid()
      modifies grid, this
      ensures Valid() && Abs() == LineFeed(old(Abs()))
    {
      hide Ring, ScrollUp;
      cy := cy + 1;
      if cy >= ROWS {
        cy := ROWS - 1;
        ScrollUpOne();
      }
    }

    method PutGlyph(c: Byte)
      requires Valid()
      modifies grid, this
      ensures Valid() && Abs() == Glyph(old(Abs()), c)
    {
      hide Slot, LineFeed, Inked;
      if cx >= COLS {
        cx := 0;
        LineDown();
      }
      SetCell(cy, cx, Inked(pen, c));
      cx := cx + 1;
    }

    method EraseDisplay(mode: int)
      requires Valid()
      modifies grid, this`lines
      ensures Valid() && Abs() == EraseScreen(old(Abs()), mode)
    {
      hide Ring, ClearSpan, ClearRows, SetRow, Row, Follows;
      if mode == 2 {
        ClearWhole(0, ROWS);
      } else if mode == 1 {
        RowKept(Abs(), cy);
        ClearWhole(0, cy);
        ClearInRow(cy, 0, cx + 1);
      } else {
        ClearInRow(cy, cx, COLS);
        ClearWhole(cy + 1, ROWS);
      }
    }

    lemma RowKept(t: Term, r: int)
      requires t.Valid() && 0 <= r < ROWS
      ensures Row(ClearRows(t, 0, r), r) == Row(t, r)
    {
    }

    /** Blank part of one screen row. */
    method ClearInRow(r: int, from: int, to: int)
      requires Valid() && 0 <= r < ROWS && 0 <= from
      modifies grid, this`lines
      ensures Valid() && Abs() == SetRow(old(Abs()), r, ClearSpan(Row(old(Abs()), r), from, to, pen.bg))
    {
      hide Slot, ClearSpan;
      ClearCells(r, from, to);
    }

    method EraseRow(mode: int)
      requires Valid()
      modifies grid, this`lines
      ensures Valid() && Abs() == EraseLine(old(Abs()), mode)
    {
      hide Slot, ClearSpan;
      if mode == 1 {
        ClearCells(cy, 0, cx + 1);
      } else if mode == 2 {
        ClearCells(cy, 0, COLS);
      } else {
        ClearCells(cy, cx, COLS);
      }
    }

    method Sgr(ps: seq<nat>)
      requires Valid()
      modifies this`pen
      ensures Valid() && pen == SgrAll(old(pen), ps)
    {
      hide SgrOne, Ring;
      var i := 0;
      while i < |ps|
        invariant 0 <= i <= |ps| && pen == SgrAll(old(pen), ps[..i])
      {
        pen := SgrOne(pen, ps[i]);
        assert ps[..i + 1][..i] == ps[..i];
        i := i + 1;
      }
      assert ps[..i] == ps;
    }

    /** The parameter loop of do_csi. */
    method ParseParams(buf: seq<Byte>) returns (p: seq<nat>, priv: bool)
      ensures priv == Private(buf) && p == Params(buf)
    {
      hide IsDigitByte, Capped;
      priv := buf != [] && buf[0] == 63;
      ghost var s := if priv then buf[1..] else buf;
      var i := if priv then 1 else 0;
      var v: nat := 0;
      p := [];
      assert p + Fields(s, 0) == Fields(s, 0);
      while i < |buf| && (IsDigitByte(buf[i]) || buf[i] == 59)
        invariant 0 <= i <= |buf| && |p| <= 8
        invariant Capped(p + Fields(buf[i..], v)) == Capped(Fields(s, 0))
      {
        assert buf[i..][1..] == buf[i + 1..];
        if IsDigitByte(buf[i]) {
          v := v * 10 + DigitByteValue(buf[i]);
        } else {
          Push(p, v, Fields(buf[i + 1..], 0));
          p := if |p| < 8 then p + [v] else p;
          v := 0;
        }
        i := i + 1;
      }
      assert Fields(buf[i..], v) == [v];
      Push(p, v, []);
      p := if |p| < 8 then p + [v] else p;
      Full(p);
    }

    method ClampCursor()
      requires Ring() && Abs().Grid()
      modifies this`cx, this`cy
      ensures Valid() && Abs() == Clamped(old(Abs()))
    {
      hide Ring;
      if cx < 0 { cx := 0; }
      if cx > COLS - 1 { cx := COLS - 1; }
      if cy < 0 { cy := 0; }
      if cy > ROWS - 1 { cy := ROWS - 1; }
    }

    /** The control sequences that move the cursor. */
    method MoveCursor(final: Byte, ps: seq<nat>, ghost priv: bool)
      requires Valid() && IsMove(final as char)
      modifies this`cx, this`cy
      ensures Abs() == Act(old(Abs()), final, priv, ps)
    {
      hide Ring, EraseScreen, EraseLine, SgrAll, Arg, Follows;
      var n := Arg1(ps, 0);
      match final as char {
        case 'A' => cy := cy - n;
        case 'B' => cy := cy + n;
        case 'C' => cx := cx + n;
        case 'D' => cx := cx - n;
        case 'E' => cy, cx := cy + n, 0;
        case 'F' => cy, cx := cy - n, 0;
        case 'G' => cx := n - 1;
        case 'd' => cy := n - 1;
        case _ => cy, cx := n - 1, Arg1(ps, 1) - 1;
      }
    }

    /** ... and all others. */
    method Obey(final: Byte, ps: seq<nat>, priv: bool)
      requires Valid() && !IsMove(final as char)
      modifies grid, this
      ensures Ring() && Abs() == Act(old(Abs()), final, priv, ps) && base == old(base) && backCount == old(backCount)
    {
      hide Ring, EraseScreen, EraseLine, SgrAll, Arg, Follows;
      match final as char {
        case 'J' => EraseDisplay(Arg(ps, 0));
        case 'K' => EraseRow(Arg(ps, 0));
        case 'm' => Sgr(ps);
        case 'h' => if priv && Arg(ps, 0) == 25 { cursorOn := true; }
        case 'l' => if priv && Arg(ps, 0) == 25 { cursorOn := false; }
        case 's' => savedX, savedY := cx, cy;
        case 'u' => cx, cy := savedX, savedY;
        case _ =>
      }
    }

    method DoCsi(final: Byte, ps: seq<nat>, priv: bool)
      requires Valid()
      modifies grid, this
      ensures Valid() && Abs() == Clamped(Act(old(Abs()), final, priv, ps))
    {
      hide Ring, EraseScreen, EraseLine, SgrAll, Arg, Follows, Clamped;
      if IsMove(final as char) {
        MoveCursor(final, ps, priv);
      } else {
        Obey(final, ps, priv);
      }
      ClampCursor();
    }

    method PutPlain(c: Byte)
      requires Valid() && esc.Text?
      modifies grid, this
      ensures Valid() && Abs() == Plain(old(Abs()), c)
    {
      hide Slot, Ring, Glyph, LineFeed, Follows;
      if c == 27 {
        esc := GotEsc;
      } else if c == 10 {
        cx := 0;
        LineDown();
      } else if c == 13 {
        cx := 0;
      } else if c == 8 {
        if cx > 0 { cx := cx - 1; }
      } else if c == 9 {
        var n, i := 8 - cx % 8, 0;
        while i < n
          invariant 0 <= i <= n && Valid() && Abs() == Spaces(old(Abs()), i)
        {
          PutGlyph(32);
          i := i + 1;
        }
      } else if c >= 32 {
        PutGlyph(c);
      }
    }

    method PutByte(c: Byte)
      requires Valid()
      modifies grid, this
      ensures Valid() && Abs() == Transcript.PutByte(old(Abs()), c)
    {
      hide Slot, Ring, Plain, Act, Clamped, Params;
      match esc
      case Text => PutPlain(c);
      case GotEsc => esc := if c == 91 then Csi([]) else if c == 93 then Osc else Text;
      case Csi(buf) =>
        if 0x40 <= c <= 0x7E {
          var ps, priv := ParseParams(buf);
          DoCsi(c, ps, priv);
          esc := Text;
        } else if |buf| < CSI_MAX {
          esc := Csi(buf + [c]);
        }
      case Osc =>
        if c == 7 { esc := Text; } else if c == 27 { esc := OscEsc; }
      case OscEsc => esc := Text;
    }

    /** Everything the window is told: the ring keeps showing the end of the
        transcript, and the view goes back to it. */
    method Feed(bytes: seq<Byte>)
      requires Valid()
      modifies grid, this
      ensures Valid() && Abs() == Run(old(Abs()), bytes).(view := if bytes == [] then old(view) else 0)
    {
      hide Ring, Transcript.PutByte, Follows;
      var i := 0;
      while i < |bytes|
        invariant 0 <= i <= |bytes| && Valid() && Abs() == Run(old(Abs()), bytes[..i])
      {
        PutByte(bytes[i]);
        assert bytes[..i + 1][..i] == bytes[..i];
        i := i + 1;
      }
      assert bytes[..i] == bytes;
      if |bytes| > 0 {
        view := 0;
      }
    }

    method PageUp()
      requires Valid()
      modifies this`view
      ensures Valid() && Abs() == Transcript.PageUp(old(Abs()))
    {
      view := view + ROWS / 2;
      if view > backCount {
        view := backCount;
      }
    }

    method PageDown()
      requires Valid()
      modifies this`view
      ensures Valid() && Abs() == Transcript.PageDown(old(Abs()))
    {
      var v := view - ROWS / 2;
      view := if v < 0 then 0 else v;
    }
  }

  lemma WholeRow(row: seq<Cell>, bg: Nibble)
    requires |row| == COLS
    ensures ClearSpan(row, 0, COLS, bg) == BlankLine(bg)
  {
  }

  /** Parameters after the eighth are dropped. */
  lemma Push(p: seq<nat>, v: nat, rest: seq<nat>)
    requires |p| <= 8
    ensures Capped(p + ([v] + rest)) == Capped((if |p| < 8 then p + [v] else p) + rest)
    ensures [v] + [] == [v]
  {
    if |p| < 8 {
      assert p + ([v] + rest) == (p + [v]) + rest;
    } else {
      assert Capped(p + ([v] + rest)) == p;
      assert Capped(p + rest) == p;
    }
  }

  lemma Full(p: seq<nat>)
    requires |p| <= 8
    ensures Capped(p + []) == p
  {
    assert p + [] == p;
  }
}
