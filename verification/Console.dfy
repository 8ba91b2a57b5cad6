/** The framebuffer backend of kernel/console.c. The grid is rasterised into a
    shadow buffer through per-row dirty ranges, the block cursor is moved
    lazily, scrolling shifts the painted tiles, and only repainted spans are
    pushed to the device. `PutC` proves that this cache is always exact: the
    shadow buffer and the device equal a full repaint of the screen that
    Screen.Putc defines. Pixels are modelled at the granularity of one painted
    character cell (a `Tile`). */
module Console {
  import opened Bytes
  import opened Characters
  import opened Palette
  import opened Ranges
  import opened Screen

  /** One painted cell: a glyph in two colours, or a plain filled area. */
  datatype Tile = Glyphs(ch: Byte, fg: Nibble, bg: Nibble) | Fill(bg: Nibble)

  /** How a cell looks; the block cursor swaps the two colours. */
  function Paint(cell: Cell, block: bool): Tile {
    if block then Glyphs(cell.ch, cell.at.bg, cell.at.fg)
    else Glyphs(cell.ch, cell.at.fg, cell.at.bg)
  }

  /** The caret of `s` is drawn at this cell. */
  predicate BlockAt(s: Screen, r: int, c: int) {
    s.visible && r == s.row && c == s.col
  }

  datatype EscState = EscNone | EscGotEsc | EscGotCsi

  class Console {
    const w: nat
    const h: nat
    const cells: array2<Cell>       // cell_ch / cell_at
    const lo: array<int>            // row_lo, row_hi: dirty columns, lo > hi = clean
    const hi: array<int>
    const shadow: array2<Tile>
    const device: array2<Tile>
    const escParams: array<nat>

    var row: int
    var col: int
    var color: Color
    var fullFlush: bool
    var cursorOn: bool
    var drawnRow: int
    var drawnCol: int
    var escState: EscState
    var escCount: nat
    var escDigit: bool
    var escPrivate: bool

    ghost var rows: seq<seq<Cell>>  // the grid as a value

    ghost function Escape(): Escape
      reads this, escParams
    {
      match escState
      case EscNone => Plain
      case EscGotEsc => GotEsc
      case EscGotCsi => Csi(escParams[..], escCount, escDigit, escPrivate)
    }

    /** The screen this console holds. */
    ghost function View(): Screen
      reads this, escParams
    {
      Screen(w, h, rows, row, col, color, cursorOn, Escape())
    }

    ghost predicate Shape()
      reads this, cells, lo, hi, escParams
    {
      && 0 < w <= MAX_COLS && 0 < h <= MAX_ROWS
      && cells.Length0 == MAX_ROWS && cells.Length1 == MAX_COLS
      && lo.Length == MAX_ROWS && hi.Length == MAX_ROWS && lo != hi
      && shadow.Length0 == h && shadow.Length1 == w
      && device.Length0 == h && device.Length1 == w && shadow != device
      && escParams.Length == MAX_PARAMS && escCount <= MAX_PARAMS
      && |rows| == h
      && (forall r :: 0 <= r < h ==> |rows[r]| == w)
      && (forall r, c :: 0 <= r < h && 0 <= c < w ==> cells[r, c] == rows[r][c])
      && (forall r :: 0 <= r < h ==> 0 <= lo[r] <= w && -1 <= hi[r] < w)
      && 0 <= col < w
      && (drawnRow >= 0 ==> drawnRow < h && 0 <= drawnCol < w)
    }

    ghost predicate Dirty(r: int, c: int)
      requires 0 <= r < lo.Length && r < hi.Length
      reads lo, hi
    {
      lo[r] <= c <= hi[r]
    }

    /** Outside the dirty ranges the shadow buffer shows the grid, with the
        block cursor where it was last drawn; unless a full flush is due the
        device shows the shadow buffer. */
    ghost predicate Coherent()
      requires Shape()
      reads this, cells, lo, hi, shadow, device, escParams
    {
      && (forall r, c :: 0 <= r < h && 0 <= c < w && !Dirty(r, c) ==>
            shadow[r, c] == Paint(rows[r][c], drawnRow == r && drawnCol == c))
      && (!fullFlush ==> forall r, c :: 0 <= r < h && 0 <= c < w ==> device[r, c] == shadow[r, c])
    }

    /** Shadow buffer and device are both a full repaint of the view. */
    ghost predicate Repainted()
      requires Shape()
      reads this, cells, lo, hi, shadow, device, escParams
    {
      forall r, c :: 0 <= r < h && 0 <= c < w ==>
        shadow[r, c] == device[r, c] == Paint(rows[r][c], BlockAt(View(), r, c))
    }

    /** The state between two writes. */
    ghost predicate Synced()
      reads this, cells, lo, hi, shadow, device, escParams
    {
      && Shape() && 0 <= row < h && !fullFlush
      && (forall r, c :: 0 <= r < h && 0 <= c < w ==> !Dirty(r, c))
      && (if cursorOn then drawnRow == row && drawnCol == col else drawnRow < 0)
      && Repainted()
    }

    // ---- framebuffer backend --------------------------------------------

    method Mark(r: int, c: int)
      requires Shape()
      modifies lo, hi
      ensures Shape()
      ensures forall i, j :: 0 <= i < h && 0 <= j < w && old(Dirty(i, j)) ==> Dirty(i, j)
      ensures 0 <= r < h && 0 <= c < w ==> Dirty(r, c)
      // only the range of row `r` is widened, and only as far as `c`
      ensures forall i :: 0 <= i < h ==> lo[i] == if i == r && 0 <= c < w && c < old(lo[i]) then c else old(lo[i])
      ensures forall i :: 0 <= i < h ==> hi[i] == if i == r && 0 <= c < w && c > old(hi[i]) then c else old(hi[i])
    {
      if r < 0 || r >= h || c < 0 || c >= w {
        return;
      }
      if c < lo[r] {
        lo[r] := c;
      }
      if c > hi[r] {
        hi[r] := c;
      }
    }

    method MarkRow(r: int)
      requires Shape()
      modifies lo, hi
      ensures Shape()
      ensures forall i, j :: 0 <= i < h && 0 <= j < w && old(Dirty(i, j)) ==> Dirty(i, j)
      ensures 0 <= r < h ==> forall j :: 0 <= j < w ==> Dirty(r, j)
      ensures forall i :: 0 <= i < h && i != r ==> lo[i] == old(lo[i]) && hi[i] == old(hi[i])
    {
      if r < 0 || r >= h {
        return;
      }
      lo[r] := 0;
      hi[r] := w - 1;
    }

    method PaintCell(r: int, c: int)
      requires Shape() && 0 <= r < h && 0 <= c < w
      modifies shadow
      ensures Shape()
      ensures forall i, j :: 0 <= i < h && 0 <= j < w ==>
        shadow[i, j] == if i == r && j == c
                        then Paint(rows[i][j], BlockAt(View(), i, j)) else old(shadow[i, j])
    {
      shadow[r, c] := Paint(cells[r, c], cursorOn && r == row && c == col);
    }

    method PaintRow(r: int)
      requires Shape() && 0 <= r < h
      modifies shadow
      ensures Shape()
      ensures forall i, j :: 0 <= i < h && 0 <= j < w ==>
        shadow[i, j] == if i == r && Dirty(r, j)
                        then Paint(rows[i][j], BlockAt(View(), i, j)) else old(shadow[i, j])
    {
      var c := lo[r];
      while c <= hi[r]
        invariant lo[r] <= c && Shape()
        invariant forall i, j :: 0 <= i < h && 0 <= j < w ==>
          shadow[i, j] == if i == r && lo[r] <= j < c && Dirty(r, j)
                          then Paint(rows[i][j], BlockAt(View(), i, j)) else old(shadow[i, j])
        decreases hi[r] - c
      {
        PaintCell(r, c);
        c := c + 1;
      }
    }

    /** fb_flush_rect of the dirty span of one row. */
    method FlushSpan(r: int, from: int, to: int)
      requires Shape() && 0 <= r < h && 0 <= from && to < w
      modifies device
      ensures Shape()
      ensures forall i, j :: 0 <= i < h && 0 <= j < w ==>
        device[i, j] == if i == r && from <= j <= to then shadow[i, j] else old(device[i, j])
    {
      forall j | from <= j <= to {
        device[r, j] := shadow[r, j];
      }
    }

    method SettleRow(r: int, blit: bool)
      requires Shape() && 0 <= r < h
      modifies lo, hi, shadow, device
      ensures Shape()
      ensures lo[r] > hi[r]
      ensures forall i :: 0 <= i < h && i != r ==> lo[i] == old(lo[i]) && hi[i] == old(hi[i])
      ensures forall i, c :: 0 <= i < h && 0 <= c < w ==>
        shadow[i, c] == if i == r && old(Dirty(i, c)) then Paint(rows[i][c], BlockAt(View(), i, c))
                        else old(shadow[i, c])
      ensures forall i, c :: 0 <= i < h && 0 <= c < w ==>
        device[i, c] == if blit && i == r && old(Dirty(i, c)) then shadow[i, c] else old(device[i, c])
    {
      hide Paint, BlockAt;
      var from, to := lo[r], hi[r];
      if from <= to {
        PaintRow(r);
        if blit {
          FlushSpan(r, from, to);
        }
        lo[r] := w;
        hi[r] := -1;
      }
    }

    /** Rasterise every dirty range, optionally pushing it to the device. */
    method PaintDirty(blit: bool)
      requires Shape()
      modifies lo, hi, shadow, device
      ensures Shape()
      ensures forall r, c :: 0 <= r < h && 0 <= c < w ==> !Dirty(r, c)
      ensures forall r, c :: 0 <= r < h && 0 <= c < w ==>
        shadow[r, c] == if old(Dirty(r, c)) then Paint(rows[r][c], BlockAt(View(), r, c))
                        else old(shadow[r, c])
      ensures forall r, c :: 0 <= r < h && 0 <= c < w ==>
        device[r, c] == if blit && old(Dirty(r, c)) then shadow[r, c] else old(device[r, c])
    {
      hide Paint, BlockAt;
      var r := 0;
      while r < h
        invariant 0 <= r <= h && Shape()
        invariant forall i :: 0 <= i < r ==> lo[i] > hi[i]
        invariant forall i :: r <= i < h ==> lo[i] == old(lo[i]) && hi[i] == old(hi[i])
        invariant forall i, c :: 0 <= i < h && 0 <= c < w ==>
          shadow[i, c] == if i < r && old(Dirty(i, c)) then Paint(rows[i][c], BlockAt(View(), i, c))
                          else old(shadow[i, c])
        invariant forall i, c :: 0 <= i < h && 0 <= c < w ==>
          device[i, c] == if blit && i < r && old(Dirty(i, c)) then shadow[i, c] else old(device[i, c])
      {
        SettleRow(r, blit);
        r := r + 1;
      }
    }

    method Flush()
      requires Shape()
      modifies device
      ensures Shape()
      ensures forall r, c :: 0 <= r < h && 0 <= c < w ==> device[r, c] == shadow[r, c]
    {
      forall r, c | 0 <= r < h && 0 <= c < w {
        device[r, c] := shadow[r, c];
      }
    }

    /** Mark the cells whose look changes because the caret moved. Afterwards
        every clean cell already looks as in a full repaint. */
    method MoveBlock()
      requires Shape() && Coherent() && 0 <= row < h
      modifies this`drawnRow, lo, hi
      ensures Shape() && View() == old(View())
      ensures forall r, c :: 0 <= r < h && 0 <= c < w && !Dirty(r, c) ==>
        shadow[r, c] == Paint(rows[r][c], BlockAt(View(), r, c))
      ensures !cursorOn ==> drawnRow < 0
    {
      if drawnRow >= 0 && (!cursorOn || drawnRow != row || drawnCol != col) {
        Mark(drawnRow, drawnCol);
        drawnRow := -1;
      }
      if cursorOn && drawnRow < 0 {
        Mark(row, col);
      }
    }

    /** Paint what is dirty and push what the device lacks. */
    method PaintAll()
      requires Shape() && 0 <= row < h
      requires !fullFlush ==> forall r, c :: 0 <= r < h && 0 <= c < w ==> device[r, c] == shadow[r, c]
      requires forall r, c :: 0 <= r < h && 0 <= c < w && !Dirty(r, c) ==>
        shadow[r, c] == Paint(rows[r][c], BlockAt(View(), r, c))
      modifies this`fullFlush, lo, hi, shadow, device
      ensures Shape() && Repainted() && !fullFlush && View() == old(View())
      ensures forall r, c :: 0 <= r < h && 0 <= c < w ==> !Dirty(r, c)
    {
      hide Paint, BlockAt;
      if fullFlush {
        PaintDirty(false);
        Flush();
        fullFlush := false;
      } else {
        PaintDirty(true);
      }
    }

    /** Bring shadow buffer and device up to date with the grid. */
    method Sync()
      requires Shape() && Coherent() && 0 <= row < h
      modifies this`fullFlush, this`drawnRow, this`drawnCol, lo, hi, shadow, device
      ensures Synced() && View() == old(View())
    {
      hide Paint, BlockAt;
      MoveBlock();
      PaintAll();
      if cursorOn {
        drawnRow := row;
        drawnCol := col;
      }
    }

    // ---- cells and scrolling --------------------------------------------

    method CellPut(r: int, c: int, cell: Cell)
      requires Shape()
      modifies this`rows, cells, lo, hi
      ensures Shape() && (old(Coherent()) ==> Coherent())
      ensures rows == if 0 <= r < h && 0 <= c < w then SetCell(old(rows), r, c, cell) else old(rows)
    {
      if r < 0 || r >= h || c < 0 || c >= w {
        return;
      }
      if cells[r, c] != cell {
        cells[r, c] := cell;
        rows := SetCell(rows, r, c, cell);
        Mark(r, c);
      } else {
        assert SetCell(rows, r, c, cell)[r] == rows[r];
      }
    }

    /** Take the block cursor off and paint everything without it. */
    method LiftBlock()
      requires Shape() && Coherent() && row == h
      modifies this`drawnRow, lo, hi, shadow, device
      ensures Shape() && drawnRow < 0
      ensures forall r, c :: 0 <= r < h && 0 <= c < w ==> shadow[r, c] == Paint(rows[r][c], false)
    {
      hide Paint, Escape;
      if drawnRow >= 0 {
        Mark(drawnRow, drawnCol);
        drawnRow := -1;
      }
      PaintDirty(false);
    }

    /** Called with the caret one row below the grid. */
    method Scroll()
      requires Shape() && Coherent() && row == h
      modifies this`rows, this`row, this`fullFlush, this`drawnRow, cells, lo, hi, shadow, device
      ensures Shape() && Coherent()
      ensures rows == ScrolledRows(old(rows), w, color) && row == h - 1
    {
      hide Paint, BlockAt, Escape;
      LiftBlock();
      ShiftCells();
      ShiftShadow();
      MarkRow(h - 1);
      fullFlush := true;
      row := h - 1;
    }

    /** memmove of the grid up by one row; the bottom row is blanked. */
    method ShiftCells()
      requires Shape()
      modifies this`rows, cells
      ensures Shape() && rows == ScrolledRows(old(rows), w, color)
    {
      forall r, c | 0 <= r < h - 1 && 0 <= c < MAX_COLS {
        cells[r, c] := cells[r + 1, c];
      }
      var last, c := h - 1, 0;
      while c < w
        modifies cells
        invariant 0 <= c <= w
        invariant forall i, j :: 0 <= i < last && 0 <= j < w ==> cells[i, j] == old(rows)[i + 1][j]
        invariant forall j :: 0 <= j < c ==> cells[last, j] == Cell(SPACE, color)
      {
        cells[last, c] := Cell(SPACE, color);
        c := c + 1;
      }
      rows := ScrolledRows(rows, w, color);
    }

    /** memmove of the painted tiles up by one text row. */
    method ShiftShadow()
      requires Shape()
      modifies shadow
      ensures Shape()
      ensures forall r, c :: 0 <= r < h - 1 && 0 <= c < w ==> shadow[r, c] == old(shadow[r + 1, c])
    {
      forall r, c | 0 <= r < h - 1 && 0 <= c < w {
        shadow[r, c] := shadow[r + 1, c];
      }
    }

    // ---- clearing and the caret -----------------------------------------

    /** Erase columns `from`.. of row `r`. */
    method BlankFrom(r: int, from: int)
      requires Shape() && 0 <= r < h && 0 <= from <= w
      modifies this`rows, cells, lo, hi
      ensures Shape() && (old(Coherent()) ==> Coherent())
      ensures rows == old(rows)[r := old(rows)[r][..from] + BlankRow(w - from, color)]
    {
      var c := from;
      while c < w
        invariant from <= c <= w && Shape() && (old(Coherent()) ==> Coherent())
        invariant forall i :: 0 <= i < h && i != r ==> rows[i] == old(rows)[i]
        invariant forall j :: from <= j < c ==> rows[r][j] == Cell(SPACE, color)
        invariant forall j :: 0 <= j < w && !(from <= j < c) ==> rows[r][j] == old(rows)[r][j]
      {
        CellPut(r, c, Cell(SPACE, color));
        c := c + 1;
      }
      assert rows[r] == old(rows)[r][..from] + BlankRow(w - from, color);
    }

    method Clear()
      requires Shape()
      modifies this`rows, this`row, this`col, this`fullFlush, this`drawnRow, this`drawnCol,
               cells, lo, hi, shadow, device
      ensures Synced()
      ensures View() == Cleared(old(View()))
    {
      hide Paint, BlockAt, Coherent, Repainted;
      BlankAll();
      row := 0;
      col := 0;
      Invalidate(color.bg);
      Sync();
    }

    /** Nothing painted so far is kept. */
    method Invalidate(bg: Nibble)
      requires Shape()
      modifies this`fullFlush, this`drawnRow, lo, hi, shadow
      ensures Shape() && Coherent()
    {
      FillShadow(bg);
      MarkAll();
      drawnRow := -1;
      fullFlush := true;
    }

    method BlankAll()
      requires Shape()
      modifies this`rows, cells, lo, hi
      ensures Shape()
      ensures rows == BlankRows(w, h, color)
    {
      var r := 0;
      while r < h
        invariant 0 <= r <= h && Shape()
        invariant forall i :: 0 <= i < r ==> rows[i] == BlankRow(w, color)
      {
        BlankFrom(r, 0);
        r := r + 1;
      }
    }

    /** fb_fill_rect over the whole screen. */
    method FillShadow(bg: Nibble)
      requires Shape()
      modifies shadow
      ensures Shape()
    {
      forall r, c | 0 <= r < h && 0 <= c < w {
        shadow[r, c] := Fill(bg);
      }
    }

    method MarkAll()
      requires Shape()
      modifies lo, hi
      ensures Shape()
      ensures forall r, c :: 0 <= r < h && 0 <= c < w ==> Dirty(r, c)
    {
      var r := 0;
      while r < h
        invariant 0 <= r <= h && Shape()
        invariant forall i, c :: 0 <= i < r && 0 <= c < w ==> Dirty(i, c)
      {
        MarkRow(r);
        r := r + 1;
      }
    }

    // ---- escape sequences -----------------------------------------------

    /** The control sequence collected so far. */
    ghost function Collected(): Escape
      reads this, escParams
    {
      Csi(escParams[..], escCount, escDigit, escPrivate)
    }

    method EscParam(n: nat, d: nat) returns (v: nat)
      requires Shape()
      ensures v == Param(Collected(), n, d)
    {
      if n >= escCount || escParams[n] <= 0 {
        return d;
      }
      return escParams[n];
    }

    method EscSgr()
      requires Shape()
      modifies this`color
      ensures color == Sgr(old(color), Collected())
    {
      var n := if escCount > 0 then escCount else 1;
      var i := 0;
      while i < n
        invariant 0 <= i <= n
        invariant escCount > 0 ==> color == SgrAll(old(color), escParams[..i])
        invariant escCount == 0 ==> color == if i == 0 then old(color) else SgrOne(old(color), 0)
      {
        var p := if i < escCount then escParams[i] else 0;
        assert escCount > 0 ==> escParams[..i + 1][..i] == escParams[..i];
        color := SgrOne(color, p);
        i := i + 1;
      }
    }

    method EscFinal(c: Byte)
      requires Synced() && escState == EscNone
      modifies this, cells, lo, hi, shadow, device
      ensures Synced() && View() == Final(old(View()), old(Collected()), c)
    {
      if escPrivate {
        var p := EscParam(0, 0);
        if p == 25 {
          SyncedIsCoherent();
          if c == 'l' as int {
            cursorOn := false;
          } else if c == 'h' as int {
            cursorOn := true;
          }
          Sync();
        }
        return;
      }
      EscApply(c);
      Sync();
    }

    lemma SyncedIsCoherent()
      requires Synced()
      ensures Coherent()
    {
    }

    /** A final byte of a public sequence, before the repaint. */
    method EscApply(c: Byte)
      requires Synced() && !escPrivate
      modifies this`rows, this`row, this`col, this`color, this`fullFlush, this`drawnRow, this`drawnCol,
               cells, lo, hi, shadow, device
      ensures Shape() && Coherent() && 0 <= row < h
      ensures View() == Final(old(View()), old(Collected()), c)
    {
      hide Paint, BlockAt, Clamp, SgrAll, Coherent, Repainted;
      SyncedIsCoherent();
      if c == 'J' as int {
        var p := EscParam(0, 0);
        if p == 2 {
          Clear();
          SyncedIsCoherent();
        }
      } else if c == 'K' as int {
        BlankFrom(row, col);
      } else if c == 'm' as int {
        Recolor();
      } else {
        MoveCaret(c);
      }
    }

    method Recolor()
      requires Shape() && Coherent() && 0 <= row < h
      modifies this`color
      ensures Shape() && Coherent() && color == Sgr(old(color), Collected())
    {
      hide Paint, Sgr;
      EscSgr();
    }

    method MoveCaret(c: Byte)
      requires Shape() && Coherent() && 0 <= row < h && !escPrivate
      requires c != 'J' as int && c != 'K' as int && c != 'm' as int
      modifies this`row, this`col
      ensures Shape() && Coherent() && 0 <= row < h
      ensures View() == Final(old(View()), old(Collected()), c)
    {
      hide Paint, Clamp, SgrAll;
      CaretMotion(c);
    }

    /** CSI H, f, A, B, C and D. */
    method CaretMotion(c: Byte)
      requires Shape() && 0 <= row < h && !escPrivate
      requires c != 'J' as int && c != 'K' as int && c != 'm' as int
      modifies this`row, this`col
      ensures 0 <= row < h && 0 <= col < w
      ensures row == Final(old(View()), Collected(), c).row
      ensures col == Final(old(View()), Collected(), c).col
    {
      var n := EscParam(0, 1);
      if c == 'H' as int || c == 'f' as int {
        var m := EscParam(1, 1);
        row := Clamp(n - 1, h - 1);
        col := Clamp(m - 1, w - 1);
      } else if c == 'A' as int {
        row := row - n;
        if row < 0 { row := 0; }
      } else if c == 'B' as int {
        row := row + n;
        if row > h - 1 { row := h - 1; }
      } else if c == 'C' as int {
        col := col + n;
        if col > w - 1 { col := w - 1; }
      } else if c == 'D' as int {
        col := col - n;
        if col < 0 { col := 0; }
      }
    }

    /** One byte offered to the escape parser. */
    method EscConsume(c: Byte) returns (consumed: bool)
      requires Synced()
      modifies this, cells, lo, hi, shadow, device, escParams
      ensures Synced()
      ensures consumed == !(old(View()).esc == Plain && c != ESC)
      ensures View() == if consumed then Putc(old(View()), c) else old(View())
    {
      hide Paint, CsiByte;
      match escState {
        case EscNone =>
          if c == ESC {
            escState := EscGotEsc;
            return true;
          }
          return false;
        case EscGotEsc =>
          if c == LBRACKET {
            escState := EscGotCsi;
            escCount, escDigit, escPrivate := 0, false, false;
            ResetParams();
          } else {
            escState := EscNone;
          }
          return true;
        case EscGotCsi =>
          CsiConsume(c);
          return true;
      }
    }

    method ResetParams()
      requires escParams.Length == MAX_PARAMS
      modifies escParams
      ensures escParams[..] == [0, 0, 0, 0]
    {
      var i := 0;
      while i < MAX_PARAMS
        invariant 0 <= i <= MAX_PARAMS
        invariant forall j :: 0 <= j < i ==> escParams[j] == 0
      {
        escParams[i] := 0;
        i := i + 1;
      }
    }

    method CollectDigit(d: nat)
      requires Synced() && escState == EscGotCsi
      modifies this`escDigit, escParams
      ensures Synced() && Collected() == Digit(old(Collected()), d)
    {
      hide Paint;
      if escCount < MAX_PARAMS {
        var i := escCount;
        escParams[i] := escParams[i] * 10 + d;
        if escParams[i] > 9999 {
          escParams[i] := 9999;
        }
      }
      escDigit := true;
    }

    /** A sequence is complete: the last parameter counts if it has a digit. */
    method EndSequence()
      requires Synced() && escState == EscGotCsi
      modifies this`escCount, this`escState
      ensures Synced() && escState == EscNone && View() == old(View()).(esc := Plain)
      ensures Collected() ==
        Csi(escParams[..], if escDigit && old(escCount) < MAX_PARAMS then old(escCount) + 1 else old(escCount),
            escDigit, escPrivate)
    {
      hide Paint;
      if escDigit && escCount < MAX_PARAMS {
        escCount := escCount + 1;
      }
      escState := EscNone;
    }

    method CsiConsume(c: Byte)
      requires Synced() && escState == EscGotCsi
      modifies this, cells, lo, hi, shadow, device, escParams
      ensures Synced()
      ensures View() == Putc(old(View()), c)
    {
      hide Paint, Final;
      if IsDigitByte(c) {
        CollectDigit(DigitByteValue(c));
      } else if c == ';' as int {
        if escCount < MAX_PARAMS {
          escCount := escCount + 1;
        } else {
          escState := EscNone;
        }
        escDigit := false;
      } else if c == '?' as int {
        escPrivate := true;
      } else if 0x40 <= c <= 0x7E {
        EndSequence();
        EscFinal(c);
      } else {
        escState := EscNone;
      }
    }

    // ---- the public face ------------------------------------------------

    method PutC(c: Byte)
      requires Synced()
      modifies this, cells, lo, hi, shadow, device, escParams
      ensures Synced()
      ensures View() == Putc(old(View()), c)
    {
      var consumed := EscConsume(c);
      if consumed {
        return;
      }
      SyncedIsCoherent();
      PutPlain(c);
      if row >= h {
        Scroll();
      }
      Sync();
    }

    /** A byte outside every escape sequence, before the scroll it may cause. */
    method PutPlain(c: Byte)
      requires Shape() && Coherent() && 0 <= row < h && escState == EscNone
      modifies this`rows, this`row, this`col, cells, lo, hi
      ensures Shape() && Coherent() && 0 <= row <= h
      ensures View().Grid() && PlainByte(old(View()), c) == MoveTo(View(), row, col)
    {
      if c == LF || c == CR || c == TAB {
        PutMotion(c);
      } else if c == BS {
        PutBackspace();
      } else {
        PutGlyph(c);
      }
    }

    method PutMotion(c: Byte)
      requires Shape() && 0 <= row < h && escState == EscNone
      requires c == LF || c == CR || c == TAB
      modifies this`row, this`col
      ensures 0 <= row <= h && 0 <= col < w
      ensures View().Grid() && PlainByte(old(View()), c) == MoveTo(View(), row, col)
    {
      if c == LF {
        col := 0;
        row := row + 1;
      } else if c == CR {
        col := 0;
      } else {
        col := TabStop(col);
        if col >= w {
          col := 0;
          row := row + 1;
        }
      }
    }

    method PutBackspace()
      requires Shape() && Coherent() && 0 <= row < h && escState == EscNone
      modifies this`rows, this`col, cells, lo, hi
      ensures Shape() && Coherent()
      ensures View() == PlainByte(old(View()), BS)
    {
      if col > 0 {
        col := col - 1;
        CellPut(row, col, Cell(SPACE, color));
      }
    }

    method PutGlyph(c: Byte)
      requires Shape() && Coherent() && 0 <= row < h
      modifies this`rows, this`row, this`col, cells, lo, hi
      ensures Shape() && Coherent() && 0 <= row <= h
      ensures rows == SetCell(old(rows), old(row), old(col), Cell(c, color))
      ensures row == (if old(col) + 1 >= w then old(row) + 1 else old(row))
      ensures col == (if old(col) + 1 >= w then 0 else old(col) + 1)
    {
      CellPut(row, col, Cell(c, color));
      col := col + 1;
      if col >= w {
        col := 0;
        row := row + 1;
      }
    }

    /** After any byte stream the screen is exactly what the stream means, and
        shadow buffer and device are a full repaint of it. */
    method Write(bytes: seq<Byte>)
      requires Synced()
      modifies this, cells, lo, hi, shadow, device, escParams
      ensures Synced() && Repainted()
      ensures View() == Run(old(View()), bytes)
      // every tile is its character in the two colours, swapped under a visible caret
      ensures forall r, c :: 0 <= r < h && 0 <= c < w ==>
        var cell := rows[r][c];
        device[r, c] == if cursorOn && r == row && c == col then Glyphs(cell.ch, cell.at.bg, cell.at.fg)
                        else Glyphs(cell.ch, cell.at.fg, cell.at.bg)
    {
      var i := 0;
      while i < |bytes|
        invariant 0 <= i <= |bytes| && Synced()
        invariant View() == Run(old(View()), bytes[..i])
      {
        assert bytes[..i + 1] == bytes[..i] + [bytes[i]];
        RunConcat(old(View()), bytes[..i], [bytes[i]]);
        PutC(bytes[i]);
        i := i + 1;
      }
      assert bytes[..i] == bytes;
    }

    /** console_init on a framebuffer of `fbCols` by `fbRows` text cells. */
    constructor (fbCols: nat, fbRows: nat)
      ensures Synced()
      ensures w == (if fbCols > MAX_COLS then MAX_COLS else if fbCols < 1 then 1 else fbCols)
      ensures h == (if fbRows > MAX_ROWS then MAX_ROWS else if fbRows < 1 then 1 else fbRows)
      ensures View() == Screen(w, h, BlankRows(w, h, Color(7, 0)), 0, 0, Color(7, 0), true, Plain)
      ensures fresh(cells) && fresh(lo) && fresh(hi) && fresh(shadow) && fresh(device) && fresh(escParams)
    {
      hide Paint, BlockAt, Coherent, Repainted, BlankRows, BlankRow;
      var conW := if fbCols > MAX_COLS then MAX_COLS else if fbCols < 1 then 1 else fbCols;
      var conH := if fbRows > MAX_ROWS then MAX_ROWS else if fbRows < 1 then 1 else fbRows;
      w, h := conW, conH;
      cells := new Cell[MAX_ROWS, MAX_COLS]((_, _) => Cell(SPACE, Color(0, 0)));
      lo := new int[MAX_ROWS](_ => conW);
      hi := new int[MAX_ROWS](_ => -1);
      shadow := new Tile[conH, conW]((_, _) => Fill(0));
      device := new Tile[conH, conW]((_, _) => Fill(0));
      escParams := new nat[MAX_PARAMS](_ => 0);
      row, col, color := 0, 0, Color(7, 0);
      fullFlush, cursorOn, drawnRow, drawnCol := false, true, -1, 0;
      escState, escCount, escDigit, escPrivate := EscNone, 0, false, false;
      rows := BlankRows(conW, conH, Color(0, 0));
      new;
      Start();
    }

    /** The first clear, with everything just allocated. */
    method Start()
      requires 0 < w <= MAX_COLS && 0 < h <= MAX_ROWS && cells.Length0 == MAX_ROWS && cells.Length1 == MAX_COLS
      requires lo.Length == MAX_ROWS && hi.Length == MAX_ROWS && lo != hi
      requires shadow.Length0 == h && shadow.Length1 == w
      requires device.Length0 == h && device.Length1 == w && shadow != device
      requires escParams.Length == MAX_PARAMS && escCount == 0 && escState == EscNone && color == Color(7, 0)
      requires rows == BlankRows(w, h, Color(0, 0)) && col == 0 && drawnRow < 0 && cursorOn
      requires forall r, c :: 0 <= r < h && 0 <= c < w ==> cells[r, c] == Cell(SPACE, Color(0, 0))
      requires forall r :: 0 <= r < h ==> lo[r] == w && hi[r] == -1
      modifies this`rows, this`row, this`col, this`fullFlush, this`drawnRow, this`drawnCol,
               cells, lo, hi, shadow, device
      ensures Synced()
      ensures View() == Screen(w, h, BlankRows(w, h, Color(7, 0)), 0, 0, Color(7, 0), true, Plain)
    {
      hide Paint, BlockAt, Coherent, Repainted, BlankRows;
      Clear();
    }
  }
}
