/** The escape output of the shell's line editor (apps/sh.c) and what the
    console makes of it. A line wraps at 80 columns, so every statement is about
    `At`, the cells of an 80-column screen numbered row by row. */
module LineOutput {
  import opened Bytes
  import opened Screen
  import opened Sequences

  const TERM_COLS: nat := 80

  // ---- what the editor prints -------------------------------------------

  function CsiSeq(n: nat, final: Byte): seq<Byte> { Sequence([n], final) }

  const ERASE_LINE: seq<Byte> := [ESC, LBRACKET, 'K' as int]

  function UpBytes(n: int): seq<Byte> { if n > 0 then CsiSeq(n, 'A' as int) else [] }
  function DownBytes(n: int): seq<Byte> { if n > 0 then CsiSeq(n, 'B' as int) else [] }
  function RightBytes(n: int): seq<Byte> { if n > 0 then CsiSeq(n, 'C' as int) else [] }

  /** line_seek: go to offset `off` of the line when the caret is `lineRow` rows
      below the line's first row. */
  function SeekBytes(off: nat, lineRow: nat): seq<Byte> {
    var row := off / TERM_COLS;
    (if row < lineRow then UpBytes(lineRow - row) else DownBytes(row - lineRow))
    + [CR] + RightBytes(off % TERM_COLS)
  }

  /** A line feed and an erase for each of `n` rows. */
  function WipeBytes(n: nat): seq<Byte> {
    if n == 0 then [] else WipeBytes(n - 1) + [LF] + ERASE_LINE
  }

  /** The part of line_redraw before the final seek. */
  function PaintBytes(text: seq<Byte>, lineRow: nat, lineRows: nat): seq<Byte> {
    var end := |text| / TERM_COLS;
    UpBytes(lineRow) + [CR] + text + ERASE_LINE
    + (if end < lineRows then WipeBytes(lineRows - end) + UpBytes(lineRows - end) else [])
  }

  function RedrawBytes(text: seq<Byte>, off: nat, lineRow: nat, lineRows: nat): seq<Byte> {
    PaintBytes(text, lineRow, lineRows) + SeekBytes(off, |text| / TERM_COLS)
  }

  // ---- the screen, numbered row by row ----------------------------------

  /** An 80-column screen outside any escape sequence. */
  predicate Ready(s: Screen) {
    s.Valid() && s.w == TERM_COLS && s.h <= MAX_ROWS && s.esc == Plain
  }

  function At(s: Screen, i: int): Cell
    requires Ready(s) && 0 <= i < s.h * TERM_COLS
  {
    s.rows[i / TERM_COLS][i % TERM_COLS]
  }

  function Pos(s: Screen): int { s.row * TERM_COLS + s.col }

  predicate Printable(text: seq<Byte>) {
    forall i :: 0 <= i < |text| ==> text[i] >= SPACE
  }

  /** `text` is on screen in consecutive cells from column 0 of row `top`, and
      the caret is on its cell `off`. */
  predicate Shows(s: Screen, top: int, text: seq<Byte>, off: nat) {
    && Ready(s)
    && 0 <= top && top + |text| / TERM_COLS < s.h
    && s.row == top + off / TERM_COLS && s.col == off % TERM_COLS
    && forall k :: 0 <= k < |text| ==> At(s, top * TERM_COLS + k).ch == text[k]
  }

  /** Rows scrolled away by printing `n` characters from cell `p`. */
  function Scrolls(p: nat, n: nat, h: nat): nat {
    if p + n >= h * TERM_COLS then (p + n - h * TERM_COLS) / TERM_COLS + 1 else 0
  }

  /** Scrolling leaves room for the line and never scrolls its first row away. */
  lemma ScrollFits(top: nat, n: nat, off: nat, h: nat)
    requires top < h && n / TERM_COLS < h && off <= n
    ensures var k := Scrolls(top * TERM_COLS, n, h);
            k <= top && top - k + off / TERM_COLS <= top - k + n / TERM_COLS < h
  {
  }

  // ---- escape sequences -------------------------------------------------

  lemma RunEraseLine(s: Screen)
    requires Ready(s)
    ensures Run(s, ERASE_LINE) == s.(rows := s.rows[s.row := ErasedRow(s)])
  {
    hide Run, ErasedRow;
    RunSequence(s, [], 'K' as int);
    assert ERASE_LINE == Sequence([], 'K' as int);
  }

  lemma RunUp(s: Screen, n: int)
    requires Ready(s) && 0 <= n <= s.row
    ensures Run(s, UpBytes(n)) == s.(row := s.row - n)
  {
    if n > 0 {
      Moves(s, n);
    }
  }

  lemma RunDown(s: Screen, n: int)
    requires Ready(s) && 0 <= n && s.row + n < s.h
    ensures Run(s, DownBytes(n)) == s.(row := s.row + n)
  {
    if n > 0 {
      Moves(s, n);
    }
  }

  lemma RunRight(s: Screen, n: int)
    requires Ready(s) && s.col == 0 && 0 <= n < TERM_COLS
    ensures Run(s, RightBytes(n)) == s.(col := n)
  {
    if n > 0 {
      Moves(s, n);
    }
  }

  lemma RunVertical(s: Screen, row: nat, lineRow: nat)
    requires Ready(s) && lineRow <= s.row && s.row - lineRow + row < s.h
    ensures Run(s, if row < lineRow then UpBytes(lineRow - row) else DownBytes(row - lineRow))
         == s.(row := s.row - lineRow + row)
  {
    hide Run, UpBytes, DownBytes;
    if row < lineRow { RunUp(s, lineRow - row); } else { RunDown(s, row - lineRow); }
  }

  lemma RunReturn(s: Screen, up: seq<Byte>, a: Screen, right: seq<Byte>, c: Screen)
    requires Ready(s) && Ready(a) && Run(s, up) == a && Run(a.(col := 0), right) == c
    ensures Run(s, up + [CR] + right) == c
  {
    RunOne(a, CR);
    RunThen(s, up, a, [CR], a.(col := 0));
    RunThen(s, up + [CR], a.(col := 0), right, c);
  }

  /** line_seek moves the caret and nothing else. */
  lemma RunSeek(s: Screen, top: int, off: nat, lineRow: nat)
    requires Ready(s) && 0 <= top && s.row == top + lineRow && top + off / TERM_COLS < s.h
    ensures Run(s, SeekBytes(off, lineRow)) == s.(row := top + off / TERM_COLS, col := off % TERM_COLS)
  {
    hide Run, UpBytes, DownBytes, RightBytes;
    var row, col := off / TERM_COLS, off % TERM_COLS;
    var a := s.(row := top + row);
    RunVertical(s, row, lineRow);
    RunRight(a.(col := 0), col);
    RunReturn(s, if row < lineRow then UpBytes(lineRow - row) else DownBytes(row - lineRow), a,
              RightBytes(col), a.(col := col));
  }

  // ---- printing text ----------------------------------------------------

  /** Cell `i` after printing `text` from cell `p`. */
  function Printed(s: Screen, text: seq<Byte>, i: int): Cell
    requires Ready(s) && 0 <= i < s.h * TERM_COLS
  {
    var p := Pos(s);
    var v := i + TERM_COLS * Scrolls(p, |text|, s.h);
    if p <= v < p + |text| then Cell(text[v - p], s.color)
    else if v < s.h * TERM_COLS then At(s, v)
    else Cell(SPACE, s.color)
  }

  /** `t` is `s` with `text` printed at the caret. */
  predicate AfterText(s: Screen, text: seq<Byte>, t: Screen)
    requires Ready(s)
  {
    && Ready(t) && t.h == s.h && t.color == s.color && t.visible == s.visible
    && Pos(t) == Pos(s) + |text| - TERM_COLS * Scrolls(Pos(s), |text|, s.h)
    && forall i :: 0 <= i < s.h * TERM_COLS ==> At(t, i) == Printed(s, text, i)
  }

  lemma RunGlyph(s: Screen, c: Byte)
    requires Ready(s) && c >= SPACE
    ensures AfterText(s, [c], Putc(s, c)) && Ready(Putc(s, c))
  {
    var t := Putc(s, c);
    var p := s.(rows := SetCell(s.rows, s.row, s.col, Cell(c, s.color)));
    forall i | 0 <= i < s.h * TERM_COLS
      ensures At(t, i) == Printed(s, [c], i)
    {
      if Scrolls(Pos(s), 1, s.h) == 1 {
        assert t.rows == ScrolledRows(p.rows, s.w, s.color);
        if i / TERM_COLS == s.h - 1 {
          assert t.rows[i / TERM_COLS] == BlankRow(s.w, s.color);
        } else {
          assert t.rows[i / TERM_COLS] == p.rows[i / TERM_COLS + 1];
        }
      }
    }
  }

  lemma NoText(s: Screen)
    requires Ready(s)
    ensures AfterText(s, [], s)
  {
  }

  /** Printing text fills consecutive cells, scrolling as often as it must. */
  lemma {:induction false} RunText(s: Screen, text: seq<Byte>)
    requires Ready(s) && Printable(text)
    ensures AfterText(s, text, Run(s, text))
    decreases |text|
  {
    hide AfterText, Putc;
    if text == [] {
      NoText(s);
    } else {
      RunGlyph(s, text[0]);
      RunText(Putc(s, text[0]), text[1..]);
      TextStep(s, text, Putc(s, text[0]), Run(s, text));
    }
  }

  lemma ScrollStep(p: nat, n: nat, h: nat)
    requires p < h * TERM_COLS && n > 0
    ensures p + 1 >= TERM_COLS * Scrolls(p, 1, h)
    ensures Scrolls(p, n, h) == Scrolls(p, 1, h) + Scrolls(p + 1 - TERM_COLS * Scrolls(p, 1, h), n - 1, h)
  {
  }

  lemma CellStep(s: Screen, text: seq<Byte>, u: Screen, t: Screen, i: nat)
    requires Ready(s) && text != [] && AfterText(s, [text[0]], u) && AfterText(u, text[1..], t) && i < s.h * TERM_COLS
    ensures At(t, i) == Printed(s, text, i)
  {
    hide Scrolls, At;
    ScrollStep(Pos(s), |text|, s.h);
    assert At(t, i) == Printed(u, text[1..], i);
    var q := Pos(u);
    var v := i + TERM_COLS * Scrolls(q, |text| - 1, s.h);
    if !(q <= v < q + |text| - 1) && v < s.h * TERM_COLS {
      assert At(u, v) == Printed(s, [text[0]], v);
    }
  }

  lemma TextStep(s: Screen, text: seq<Byte>, u: Screen, t: Screen)
    requires Ready(s) && text != [] && AfterText(s, [text[0]], u) && AfterText(u, text[1..], t)
    ensures AfterText(s, text, t)
  {
    hide Printed, Scrolls;
    assert 0 <= Pos(s) < s.h * TERM_COLS && 0 <= Pos(u) < s.h * TERM_COLS;
    ScrollStep(Pos(s), |text|, s.h);
    forall i | 0 <= i < s.h * TERM_COLS
      ensures At(t, i) == Printed(s, text, i)
    {
      CellStep(s, text, u, t, i);
    }
  }

  // ---- erasing and the full repaint -------------------------------------

  /** `t` is `s` with the cells `from`..`to` erased, the caret aside. */
  predicate Blanked(s: Screen, from: int, to: int, t: Screen)
    requires Ready(s)
  {
    && Ready(t) && t.h == s.h && t.color == s.color && t.visible == s.visible
    && forall i :: 0 <= i < s.h * TERM_COLS ==>
         At(t, i) == if from <= i < to then Cell(SPACE, s.color) else At(s, i)
  }

  lemma EraseCells(s: Screen)
    requires Ready(s)
    ensures var t := Run(s, ERASE_LINE);
            t.row == s.row && t.col == s.col && Blanked(s, Pos(s), (s.row + 1) * TERM_COLS, t)
  {
    RunEraseLine(s);
  }

  lemma RunLineFeed(s: Screen)
    requires Ready(s) && s.row + 1 < s.h
    ensures Run(s, [LF]) == s.(row := s.row + 1, col := 0)
  {
    RunOne(s, LF);
  }

  lemma {:induction false} RunWipe(s: Screen, n: nat)
    requires Ready(s) && s.row + n < s.h
    ensures var t := Run(s, WipeBytes(n));
            && t.row == s.row + n && t.col == (if n == 0 then s.col else 0)
            && Blanked(s, (s.row + 1) * TERM_COLS, (s.row + n + 1) * TERM_COLS, t)
    decreases n
  {
    if n > 0 {
      RunWipe(s, n - 1);
      var a := Run(s, WipeBytes(n - 1));
      var b := a.(row := a.row + 1, col := 0);
      RunLineFeed(a);
      RunThen(s, WipeBytes(n - 1), a, [LF], b);
      EraseCells(b);
      assert forall i :: 0 <= i < s.h * TERM_COLS ==> At(b, i) == At(a, i);
      RunThen(s, WipeBytes(n - 1) + [LF], b, ERASE_LINE, Run(b, ERASE_LINE));
    }
  }

  /** Wipe `n` rows below the caret's and come back up. */
  lemma RunWipeUp(s: Screen, n: nat)
    requires Ready(s) && s.row + n < s.h && 0 < n
    ensures var t := Run(s, WipeBytes(n) + UpBytes(n));
            t.row == s.row && Blanked(s, (s.row + 1) * TERM_COLS, (s.row + n + 1) * TERM_COLS, t)
  {
    hide Run, WipeBytes, UpBytes;
    RunWipe(s, n);
    var a := Run(s, WipeBytes(n));
    RunUp(a, n);
    var t := a.(row := a.row - n);
    RunThen(s, WipeBytes(n), a, UpBytes(n), t);
    BlankedCaret(s, (s.row + 1) * TERM_COLS, (s.row + n + 1) * TERM_COLS, a, t);
  }

  lemma BlankedCaret(s: Screen, from: int, to: int, a: Screen, t: Screen)
    requires Ready(s) && Blanked(s, from, to, a)
    requires t == a.(row := t.row, col := t.col) && 0 <= t.row < a.h && 0 <= t.col < a.w
    ensures Blanked(s, from, to, t)
  {
    forall i | 0 <= i < s.h * TERM_COLS
      ensures At(t, i) == if from <= i < to then Cell(SPACE, s.color) else At(s, i)
    {
      assert At(t, i) == At(a, i);
    }
  }

  function Max(a: nat, b: nat): nat { if a < b then b else a }

  /** Cell `i` after repainting `text` at row `top`, where the old line reached
      `lineRows` rows below `top`. */
  function Redrawn(s: Screen, top: nat, text: seq<Byte>, lineRows: nat, i: int): Cell
    requires Ready(s) && 0 <= i < s.h * TERM_COLS
  {
    var p := top * TERM_COLS;
    var v := i + TERM_COLS * Scrolls(p, |text|, s.h);
    if p <= v < p + |text| then Cell(text[v - p], s.color)
    else if p + |text| <= v < (top + Max(|text| / TERM_COLS, lineRows) + 1) * TERM_COLS then
      Cell(SPACE, s.color)
    else if v < s.h * TERM_COLS then At(s, v)
    else Cell(SPACE, s.color)
  }

  /** `t` is `s` after a repaint, the caret aside. */
  predicate Repaint(s: Screen, top: nat, text: seq<Byte>, lineRows: nat, t: Screen)
    requires Ready(s)
  {
    && Ready(t) && t.h == s.h && t.color == s.color && t.visible == s.visible
    && forall i :: 0 <= i < s.h * TERM_COLS ==> At(t, i) == Redrawn(s, top, text, lineRows, i)
  }

  /** The first step of a repaint: prompt and buffer from the line's first row. */
  lemma PaintText(s: Screen, top: nat, text: seq<Byte>, lineRow: nat)
    requires Ready(s) && Printable(text) && s.row == top + lineRow
    ensures var t := Run(s, UpBytes(lineRow) + [CR] + text);
            AfterText(s.(row := top, col := 0), text, t)
  {
    var a := s.(row := top);
    RunUp(s, lineRow);
    RunText(a.(col := 0), text);
    RunReturn(s, UpBytes(lineRow), a, text, Run(a.(col := 0), text));
  }

  /** Blanking the tail of freshly printed text gives the repainted screen. */
  lemma PaintTail(s: Screen, top: nat, text: seq<Byte>, lineRows: nat, a: Screen, b: Screen)
    requires Ready(s) && top < s.h && top + lineRows < s.h && |text| / TERM_COLS < s.h
    requires AfterText(s.(row := top, col := 0), text, a)
    requires var end := |text| / TERM_COLS;
             Blanked(a, Pos(a), (a.row + 1 + if end < lineRows then lineRows - end else 0) * TERM_COLS, b)
    ensures Repaint(s, top, text, lineRows, b)
    ensures a.row == top - Scrolls(top * TERM_COLS, |text|, s.h) + |text| / TERM_COLS
    ensures Scrolls(top * TERM_COLS, |text|, s.h) <= top
  {
    var s1 := s.(row := top, col := 0);
    var k := Scrolls(top * TERM_COLS, |text|, s.h);
    assert Pos(a) == top * TERM_COLS + |text| - TERM_COLS * k;
    assert a.row == top - k + |text| / TERM_COLS;
    forall i | 0 <= i < s.h * TERM_COLS
      ensures At(b, i) == Redrawn(s, top, text, lineRows, i)
    {
      assert At(a, i) == Printed(s1, text, i);
      var v := i + TERM_COLS * k;
      if v < s.h * TERM_COLS {
        assert At(s1, v) == At(s, v);
      }
    }
  }

  lemma BlankedTwice(s: Screen, from: int, mid: int, to: int, a: Screen, b: Screen)
    requires Ready(s) && from <= mid <= to && Blanked(s, from, mid, a) && Blanked(a, mid, to, b)
    ensures Blanked(s, from, to, b)
  {
  }

  lemma RunPaint(s: Screen, top: nat, text: seq<Byte>, lineRow: nat, lineRows: nat)
    requires Ready(s) && Printable(text) && s.row == top + lineRow
    requires top + lineRows < s.h && |text| / TERM_COLS < s.h
    ensures var t := Run(s, PaintBytes(text, lineRow, lineRows));
            var k := Scrolls(top * TERM_COLS, |text|, s.h);
            && k <= top && t.row == top - k + |text| / TERM_COLS
            && Repaint(s, top, text, lineRows, t)
  {
    hide Run, UpBytes, WipeBytes, Redrawn;
    var end := |text| / TERM_COLS;
    var up := UpBytes(lineRow) + [CR] + text;
    PaintText(s, top, text, lineRow);
    var a := Run(s, up);
    EraseCells(a);
    var b := Run(a, ERASE_LINE);
    RunThen(s, up, a, ERASE_LINE, b);
    if end < lineRows {
      var n := lineRows - end;
      assert a.row + n < s.h;
      RunWipeUp(b, n);
      var c := Run(b, WipeBytes(n) + UpBytes(n));
      RunThen(s, up + ERASE_LINE, b, WipeBytes(n) + UpBytes(n), c);
      BlankedTwice(a, Pos(a), (a.row + 1) * TERM_COLS, (a.row + 1 + n) * TERM_COLS, b, c);
      PaintTail(s, top, text, lineRows, a, c);
    } else {
      PaintTail(s, top, text, lineRows, a, b);
      assert PaintBytes(text, lineRow, lineRows) == up + ERASE_LINE;
    }
  }

  /** line_redraw: whatever was on screen, the line ends up shown from the row
      it started on (less the rows scrolled), with the caret on `off`; the old
      tail is erased and every other cell is kept. */
  lemma RunRedraw(s: Screen, top: nat, text: seq<Byte>, off: nat, lineRow: nat, lineRows: nat)
    requires Ready(s) && Printable(text) && off <= |text| && s.row == top + lineRow
    requires top + lineRows < s.h && |text| / TERM_COLS < s.h
    ensures var t := Run(s, RedrawBytes(text, off, lineRow, lineRows));
            var k := Scrolls(top * TERM_COLS, |text|, s.h);
            k <= top && Shows(t, top - k, text, off) && Repaint(s, top, text, lineRows, t)
  {
    hide Run, Scrolls, PaintBytes, SeekBytes, Redrawn, Shows;
    RunPaint(s, top, text, lineRow, lineRows);
    var a := Run(s, PaintBytes(text, lineRow, lineRows));
    var k := Scrolls(top * TERM_COLS, |text|, s.h);
    RunSeek(a, top - k, off, |text| / TERM_COLS);
    var t := a.(row := top - k + off / TERM_COLS, col := off % TERM_COLS);
    RunThen(s, PaintBytes(text, lineRow, lineRows), a, SeekBytes(off, |text| / TERM_COLS), t);
    ShowsRepainted(s, top, text, off, lineRows, a);
  }

  /** Repainted text is shown, once the caret is put on one of its cells. */
  lemma ShowsRepainted(s: Screen, top: nat, text: seq<Byte>, off: nat, lineRows: nat, a: Screen)
    requires Ready(s) && off <= |text| && |text| / TERM_COLS < s.h && top < s.h
    requires Repaint(s, top, text, lineRows, a)
    ensures Scrolls(top * TERM_COLS, |text|, s.h) <= top
    ensures var k := Scrolls(top * TERM_COLS, |text|, s.h);
            var t := a.(row := top - k + off / TERM_COLS, col := off % TERM_COLS);
            Shows(t, top - k, text, off) && Repaint(s, top, text, lineRows, t)
  {
    hide Scrolls, Redrawn;
    var k := Scrolls(top * TERM_COLS, |text|, s.h);
    var t := a.(row := top - k + off / TERM_COLS, col := off % TERM_COLS);
    ScrollFits(top, |text|, off, s.h);
    SameCells(s, top, text, lineRows, a, t);
    forall j | 0 <= j < |text|
      ensures At(t, (top - k) * TERM_COLS + j).ch == text[j]
    {
      RepaintedAt(s, top, text, lineRows, t, j);
    }
  }

  lemma SameCells(s: Screen, top: nat, text: seq<Byte>, lineRows: nat, a: Screen, t: Screen)
    requires Ready(s) && Repaint(s, top, text, lineRows, a)
    requires t == a.(row := t.row, col := t.col) && 0 <= t.row < a.h && 0 <= t.col < a.w
    ensures Repaint(s, top, text, lineRows, t)
  {
    forall i | 0 <= i < s.h * TERM_COLS
      ensures At(t, i) == Redrawn(s, top, text, lineRows, i)
    {
      assert At(t, i) == At(a, i);
    }
  }

  lemma RepaintedAt(s: Screen, top: nat, text: seq<Byte>, lineRows: nat, a: Screen, j: nat)
    requires Ready(s) && |text| / TERM_COLS < s.h && top < s.h && j < |text|
    requires Repaint(s, top, text, lineRows, a)
    requires Scrolls(top * TERM_COLS, |text|, s.h) <= top
    ensures var i := (top - Scrolls(top * TERM_COLS, |text|, s.h)) * TERM_COLS + j;
            0 <= i < s.h * TERM_COLS && At(a, i).ch == text[j]
  {
    var i := (top - Scrolls(top * TERM_COLS, |text|, s.h)) * TERM_COLS + j;
    assert At(a, i) == Redrawn(s, top, text, lineRows, i);
  }
}
