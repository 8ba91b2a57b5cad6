/** What a byte stream means on the system console: the ANSI/VT100 subset of
    kernel/console.c as a pure function over a character grid. Nothing here
    knows about pixels, dirty ranges or flushing; Console.dfy proves that the
    framebuffer backend always shows exactly this screen. */
module Screen {
  import opened Bytes
  import opened Characters
  import opened Palette
  import opened Ranges

  const MAX_COLS := 320
  const MAX_ROWS := 90
  const MAX_PARAMS := 4


  const BS: Byte := 8
  const TAB: Byte := 9
  const LF: Byte := 10
  const CR: Byte := 13
  const ESC: Byte := 27
  const SPACE: Byte := 32
  const LBRACKET: Byte := 91

  datatype Color = Color(fg: Nibble, bg: Nibble)
  datatype Cell = Cell(ch: Byte, at: Color)

  /** The escape parser: outside a sequence, after ESC, or inside CSI. */
  datatype Escape =
    | Plain
    | GotEsc
    | Csi(params: seq<nat>, count: nat, digit: bool, priv: bool)
  {
    predicate Valid() {
      Csi? ==> |params| == MAX_PARAMS && count <= MAX_PARAMS
    }
  }

  const FRESH_CSI: Escape := Csi([0, 0, 0, 0], 0, false, false)

  datatype Screen = Screen(
    w: nat, h: nat,
    rows: seq<seq<Cell>>,
    row: int, col: int,
    color: Color,
    visible: bool,
    esc: Escape)
  {
    /** The grid has its full size. */
    predicate Grid() {
      && 0 < w && 0 < h
      && |rows| == h
      && forall r :: 0 <= r < h ==> |rows[r]| == w
    }

    /** ... and the caret is inside it. */
    predicate Valid() {
      && Grid()
      && 0 <= row < h && 0 <= col < w
      && esc.Valid()
    }
  }

  // ---- grid edits -------------------------------------------------------

  function BlankRow(w: nat, color: Color): (r: seq<Cell>)
    ensures |r| == w
    ensures forall c :: 0 <= c < w ==> r[c] == Cell(SPACE, color)
  {
    seq(w, _ => Cell(SPACE, color))
  }

  function BlankRows(w: nat, h: nat, color: Color): (rows: seq<seq<Cell>>)
    ensures |rows| == h
    ensures forall r :: 0 <= r < h ==> rows[r] == BlankRow(w, color)
  {
    seq(h, _ => BlankRow(w, color))
  }

  function SetCell(rows: seq<seq<Cell>>, r: int, c: int, cell: Cell): seq<seq<Cell>>
    requires 0 <= r < |rows| && 0 <= c < |rows[r]|
  {
    rows[r := rows[r][c := cell]]
  }

  /** Every row moves up by one and a blank row appears at the bottom. */
  function ScrolledRows(rows: seq<seq<Cell>>, w: nat, color: Color): seq<seq<Cell>>
    requires 0 < |rows|
  {
    rows[1..] + [BlankRow(w, color)]
  }

  /** Move the caret to `row`,`col`, where `row` may be one below the grid. */
  function MoveTo(s: Screen, row: int, col: int): (t: Screen)
    requires s.Grid() && s.esc.Valid() && 0 <= row <= s.h && 0 <= col < s.w
    ensures t.Valid() && t.w == s.w && t.h == s.h
  {
    if row == s.h then
      s.(rows := ScrolledRows(s.rows, s.w, s.color), row := s.h - 1, col := col)
    else
      s.(row := row, col := col)
  }

  function Glyph(s: Screen, ch: Byte): (t: Screen)
    requires s.Valid()
    ensures t.Valid() && t.w == s.w && t.h == s.h
  {
    var p := s.(rows := SetCell(s.rows, s.row, s.col, Cell(ch, s.color)));
    if s.col + 1 >= s.w then MoveTo(p, s.row + 1, 0) else MoveTo(p, s.row, s.col + 1)
  }

  function Cleared(s: Screen): (t: Screen)
    requires s.Grid() && s.esc.Valid()
    ensures t.Valid() && t.w == s.w && t.h == s.h
  {
    s.(rows := BlankRows(s.w, s.h, s.color), row := 0, col := 0)
  }

  /** The caret's row with everything from the caret on erased. */
  function ErasedRow(s: Screen): (r: seq<Cell>)
    requires s.Valid()
    ensures |r| == s.w
  {
    s.rows[s.row][..s.col] + BlankRow(s.w - s.col, s.color)
  }

  // ---- plain bytes ------------------------------------------------------

  function TabStop(col: nat): (t: nat)
    ensures t > col && t % 8 == 0 && t <= col + 8
  {
    (col + 8) / 8 * 8
  }

  function PlainByte(s: Screen, c: Byte): (t: Screen)
    requires s.Valid()
    ensures t.Valid() && t.w == s.w && t.h == s.h
  {
    if c == LF then MoveTo(s, s.row + 1, 0)
    else if c == CR then s.(col := 0)
    else if c == BS then
      if s.col > 0 then
        s.(col := s.col - 1, rows := SetCell(s.rows, s.row, s.col - 1, Cell(SPACE, s.color)))
      else s
    else if c == TAB then
      if TabStop(s.col) >= s.w then MoveTo(s, s.row + 1, 0) else s.(col := TabStop(s.col))
    else Glyph(s, c)
  }

  // ---- escape sequences -------------------------------------------------

  /** Parameter `n`, or `d` when it is missing or zero. */
  function Param(e: Escape, n: nat, d: nat): nat
    requires e.Csi? && e.Valid()
  {
    if n >= e.count || e.params[n] <= 0 then d else e.params[n]
  }

  function AnsiToVga(n: nat): Nibble
    requires n < 8
  {
    [0, 4, 2, 6, 1, 5, 3, 7][n]
  }

  function SgrOne(color: Color, p: nat): Color {
    if p == 0 then Color(7, 0)
    else if p == 1 then color.(fg := Bright(color.fg))
    else if p == 7 then Color(color.bg, color.fg)
    else if 30 <= p <= 37 then
      color.(fg := if color.fg >= 8 then Bright(AnsiToVga(p - 30)) else AnsiToVga(p - 30))
    else if 40 <= p <= 47 then color.(bg := AnsiToVga(p - 40))
    else if 90 <= p <= 97 then color.(fg := Bright(AnsiToVga(p - 90)))
    else color
  }

  function SgrAll(color: Color, params: seq<nat>): Color {
    if params == [] then color
    else SgrOne(SgrAll(color, params[..|params| - 1]), params[|params| - 1])
  }

  /** Bare CSI m is CSI 0m. */
  function Sgr(color: Color, e: Escape): Color
    requires e.Csi? && e.Valid()
  {
    if e.count == 0 then SgrOne(color, 0) else SgrAll(color, e.params[..e.count])
  }

  /** The effect of the final byte `c` of the control sequence `e`. */
  function Final(s: Screen, e: Escape, c: Byte): (t: Screen)
    requires s.Valid() && e.Csi? && e.Valid()
    ensures t.Valid() && t.w == s.w && t.h == s.h
  {
    if e.priv then
      if Param(e, 0, 0) == 25 && c == 'l' as int then s.(visible := false)
      else if Param(e, 0, 0) == 25 && c == 'h' as int then s.(visible := true)
      else s
    else if c == 'J' as int then
      if Param(e, 0, 0) == 2 then Cleared(s) else s
    else if c == 'H' as int || c == 'f' as int then
      s.(row := Clamp(Param(e, 0, 1) - 1, s.h - 1), col := Clamp(Param(e, 1, 1) - 1, s.w - 1))
    else if c == 'K' as int then s.(rows := s.rows[s.row := ErasedRow(s)])
    else if c == 'm' as int then s.(color := Sgr(s.color, e))
    else if c == 'A' as int then s.(row := Clamp(s.row - Param(e, 0, 1), s.h - 1))
    else if c == 'B' as int then s.(row := Clamp(s.row + Param(e, 0, 1), s.h - 1))
    else if c == 'C' as int then s.(col := Clamp(s.col + Param(e, 0, 1), s.w - 1))
    else if c == 'D' as int then s.(col := Clamp(s.col - Param(e, 0, 1), s.w - 1))
    else s
  }

  /** Append a decimal digit to the current parameter, saturating at 9999. */
  function Digit(e: Escape, d: nat): (f: Escape)
    requires e.Csi? && e.Valid()
    ensures f.Csi? && f.Valid()
  {
    if e.count < MAX_PARAMS then
      var v := e.params[e.count] * 10 + d;
      e.(params := e.params[e.count := if v > 9999 then 9999 else v], digit := true)
    else
      e.(digit := true)
  }

  /** One byte inside CSI. */
  function CsiByte(s: Screen, e: Escape, c: Byte): (t: Screen)
    requires s.Valid() && e.Csi? && e.Valid()
    ensures t.Valid() && t.w == s.w && t.h == s.h
  {
    if IsDigitByte(c) then s.(esc := Digit(e, DigitByteValue(c)))
    else if c == ';' as int then
      if e.count < MAX_PARAMS then s.(esc := e.(count := e.count + 1, digit := false))
      else s.(esc := Plain)
    else if c == '?' as int then s.(esc := e.(priv := true))
    else if 0x40 <= c <= 0x7E then
      var f := if e.digit && e.count < MAX_PARAMS then e.(count := e.count + 1) else e;
      Final(s.(esc := Plain), f, c)
    else s.(esc := Plain)
  }

  // ---- the whole console ------------------------------------------------

  /** One byte written to the console. */
  function Putc(s: Screen, c: Byte): (t: Screen)
    requires s.Valid()
    ensures t.Valid() && t.w == s.w && t.h == s.h
  {
    match s.esc
    case Plain => if c == ESC then s.(esc := GotEsc) else PlainByte(s, c)
    case GotEsc => s.(esc := if c == LBRACKET then FRESH_CSI else Plain)
    case Csi(_, _, _, _) => CsiByte(s, s.esc, c)
  }

  /** A whole byte stream. */
  function Run(s: Screen, bytes: seq<Byte>): (t: Screen)
    requires s.Valid()
    ensures t.Valid() && t.w == s.w && t.h == s.h
    decreases |bytes|
  {
    if bytes == [] then s else Run(Putc(s, bytes[0]), bytes[1..])
  }

  /** Writing in pieces is writing the whole. */
  lemma {:induction false} RunConcat(s: Screen, a: seq<Byte>, b: seq<Byte>)
    requires s.Valid()
    ensures Run(s, a + b) == Run(Run(s, a), b)
    decreases |a|
  {
    if a == [] {
      assert a + b == b;
    } else {
      assert (a + b)[1..] == a[1..] + b;
      RunConcat(Putc(s, a[0]), a[1..], b);
    }
  }
}
