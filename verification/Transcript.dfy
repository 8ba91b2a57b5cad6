/** What a byte stream means to the terminal window of apps/terminal.c, over an
    unbounded list of lines whose last 24 are the screen. Nothing is ever
    forgotten here; Terminal.dfy proves the 224-row ring agrees with the end of
    this list. */
module Transcript {
  import opened Bytes
  import opened Characters
  import opened Palette
  import opened Ranges

  const COLS := 80
  const ROWS := 24
  const SCROLLBACK := 200
  const TOTAL := ROWS + SCROLLBACK
  const CSI_MAX := 31

  datatype Cell = Cell(ch: Byte, fg: Nibble, bg: Nibble)

  datatype Pen = Pen(fg: Nibble, bg: Nibble, bold: bool, reverse: bool)

  const PLAIN := Pen(7, 0, false, false)

  datatype Escape = Text | GotEsc | Csi(buf: seq<Byte>) | Osc | OscEsc

  datatype Term = Term(
    lines: seq<seq<Cell>>,
    cx: int, cy: int,
    pen: Pen,
    cursorOn: bool,
    savedX: int, savedY: int,
    view: nat,
    inputRow: int,
    esc: Escape)
  {
    /** How many times the screen has scrolled. */
    function Top(): int { |lines| - ROWS }

    function BackCount(): int { if Top() < SCROLLBACK then Top() else SCROLLBACK }

    predicate Grid() {
      && ROWS <= |lines| && (forall k :: 0 <= k < |lines| ==> |lines[k]| == COLS)
      && 0 <= savedX <= COLS && 0 <= savedY < ROWS
      && view <= BackCount()
      && (esc.Csi? ==> |esc.buf| <= CSI_MAX)
    }

    /** The caret may wait one column past the end of its row. */
    predicate Valid() {
      Grid() && 0 <= cx <= COLS && 0 <= cy < ROWS
    }
  }

  /** The lines in the window. */
  function Shown(t: Term): (r: seq<seq<Cell>>)
    requires t.Valid()
    ensures |r| == ROWS
  {
    t.lines[t.Top() - t.view..][..ROWS]
  }

  /** Later states keep every line that has scrolled off, and a view into them
      moves back with each scroll until it reaches the end of the scrollback. */
  predicate Follows(t: Term, u: Term) {
    && |t.lines| <= |u.lines| && (forall k :: 0 <= k < t.Top() ==> u.lines[k] == t.lines[k])
    && u.view == (if t.view == 0 then 0
                  else if t.view + u.Top() - t.Top() < SCROLLBACK then t.view + u.Top() - t.Top() else SCROLLBACK)
  }

  // ---- lines ------------------------------------------------------------

  function Blank(bg: Nibble): Cell { Cell(32, 7, bg) }

  /** A row with columns `from` up to `to` blanked, where `to` may be too big. */
  function ClearSpan(row: seq<Cell>, from: int, to: int, bg: Nibble): (r: seq<Cell>)
    ensures |r| == |row|
  {
    seq(|row|, c requires 0 <= c < |row| => if from <= c < to then Blank(bg) else row[c])
  }

  function BlankLine(bg: Nibble): (r: seq<Cell>)
    ensures |r| == COLS
  {
    seq(COLS, _ => Blank(bg))
  }

  /** Screen row `r` replaced. */
  function SetRow(t: Term, r: int, row: seq<Cell>): (u: Term)
    requires t.Valid() && 0 <= r < ROWS && |row| == COLS
    ensures u.Valid() && Follows(t, u) && |u.lines| == |t.lines|
  {
    t.(lines := t.lines[t.Top() + r := row])
  }

  function Row(t: Term, r: int): (row: seq<Cell>)
    requires t.Valid() && 0 <= r < ROWS
    ensures |row| == COLS
  {
    t.lines[t.Top() + r]
  }

  function Blanked(lines: seq<seq<Cell>>, a: int, b: int, bg: Nibble): (r: seq<seq<Cell>>)
    ensures |r| == |lines| && forall k :: 0 <= k < |lines| ==> r[k] == if a <= k < b then BlankLine(bg) else lines[k]
  {
    seq(|lines|, k requires 0 <= k < |lines| => if a <= k < b then BlankLine(bg) else lines[k])
  }

  /** Screen rows `from` up to `to` blanked. */
  function ClearRows(t: Term, from: int, to: int): (u: Term)
    requires t.Valid() && 0 <= from && to <= ROWS
    ensures u.Valid() && Follows(t, u) && |u.lines| == |t.lines|
  {
    t.(lines := Blanked(t.lines, t.Top() + from, t.Top() + to, t.pen.bg))
  }

  // ---- motion and glyphs ------------------------------------------------

  function ScrollUp(t: Term): (u: Term)
    requires t.Valid()
    ensures u.Valid() && Follows(t, u) && u.Top() == t.Top() + 1
  {
    var u := t.(lines := t.lines + [BlankLine(t.pen.bg)],
                inputRow := if t.inputRow >= 0 then t.inputRow - 1 else t.inputRow);
    if 0 < t.view < u.BackCount() then u.(view := t.view + 1) else u
  }

  function LineFeed(t: Term): (u: Term)
    requires t.Valid()
    ensures u.Valid() && Follows(t, u) && u.cx == t.cx
  {
    if t.cy + 1 >= ROWS then ScrollUp(t.(cy := ROWS - 1)) else t.(cy := t.cy + 1)
  }

  function Inked(pen: Pen, ch: Byte): Cell {
    var fg := if pen.bold then Bright(pen.fg) else pen.fg;
    if pen.reverse then Cell(ch, pen.bg, fg) else Cell(ch, fg, pen.bg)
  }

  function Glyph(t: Term, ch: Byte): (u: Term)
    requires t.Valid()
    ensures u.Valid() && Follows(t, u)
  {
    var w := if t.cx >= COLS then LineFeed(t.(cx := 0)) else t;
    SetRow(w, w.cy, Row(w, w.cy)[w.cx := Inked(w.pen, ch)]).(cx := w.cx + 1)
  }

  function Spaces(t: Term, n: nat): (u: Term)
    requires t.Valid()
    ensures u.Valid() && Follows(t, u)
  {
    if n == 0 then t else Glyph(Spaces(t, n - 1), 32)
  }

  // ---- control sequences ------------------------------------------------

  function EraseScreen(t: Term, mode: int): (u: Term)
    requires t.Valid()
    ensures u.Valid() && Follows(t, u) && |u.lines| == |t.lines|
  {
    if mode == 2 then ClearRows(t, 0, ROWS)
    else if mode == 1 then
      SetRow(ClearRows(t, 0, t.cy), t.cy, ClearSpan(Row(t, t.cy), 0, t.cx + 1, t.pen.bg))
    else
      ClearRows(SetRow(t, t.cy, ClearSpan(Row(t, t.cy), t.cx, COLS, t.pen.bg)), t.cy + 1, ROWS)
  }

  function EraseLine(t: Term, mode: int): (u: Term)
    requires t.Valid()
    ensures u.Valid() && Follows(t, u) && |u.lines| == |t.lines|
  {
    var row := Row(t, t.cy);
    SetRow(t, t.cy,
      if mode == 1 then ClearSpan(row, 0, t.cx + 1, t.pen.bg)
      else if mode == 2 then ClearSpan(row, 0, COLS, t.pen.bg)
      else ClearSpan(row, t.cx, COLS, t.pen.bg))
  }

  function SgrOne(pen: Pen, v: int): Pen {
    if v == 0 then PLAIN
    else if v == 1 then pen.(bold := true)
    else if v == 7 then pen.(reverse := true)
    else if v == 22 then pen.(bold := false)
    else if v == 27 then pen.(reverse := false)
    else if 30 <= v <= 37 then pen.(fg := v - 30)
    else if v == 39 then pen.(fg := 7)
    else if 40 <= v <= 47 then pen.(bg := v - 40)
    else if v == 49 then pen.(bg := 0)
    else if 90 <= v <= 97 then pen.(fg := v - 82)
    else if 100 <= v <= 107 then pen.(bg := v - 92)
    else pen
  }

  function SgrAll(pen: Pen, ps: seq<nat>): Pen {
    if ps == [] then pen else SgrOne(SgrAll(pen, ps[..|ps| - 1]), ps[|ps| - 1])
  }

  /** The ';'-separated numbers of a parameter string; anything else ends it. */
  function Fields(s: seq<Byte>, v: nat): (r: seq<nat>)
    ensures |r| >= 1
  {
    if s != [] && IsDigitByte(s[0]) then Fields(s[1..], v * 10 + DigitByteValue(s[0]))
    else [v] + if s != [] && s[0] == 59 then Fields(s[1..], 0) else []
  }

  function Capped(ps: seq<nat>): seq<nat> { if |ps| > 8 then ps[..8] else ps }

  function Private(buf: seq<Byte>): bool { buf != [] && buf[0] == 63 }

  function Params(buf: seq<Byte>): seq<nat> {
    Capped(Fields(if Private(buf) then buf[1..] else buf, 0))
  }

  function Arg(ps: seq<nat>, i: nat): nat { if i < |ps| then ps[i] else 0 }

  function Arg1(ps: seq<nat>, i: nat): nat { if Arg(ps, i) < 1 then 1 else Arg(ps, i) }

  function Clamped(t: Term): (u: Term)
    requires t.Grid()
    ensures u.Valid() && Follows(t, u) && u.cx < COLS
  {
    t.(cx := Clamp(t.cx, COLS - 1), cy := Clamp(t.cy, ROWS - 1))
  }

  /** A control sequence, before the caret is brought back onto the screen. */
  function Act(t: Term, final: Byte, priv: bool, ps: seq<nat>): (u: Term)
    requires t.Valid()
    ensures u.Grid() && Follows(t, u)
  {
    var n := Arg1(ps, 0);
    match final as char
    case 'A' => t.(cy := t.cy - n)
    case 'B' => t.(cy := t.cy + n)
    case 'C' => t.(cx := t.cx + n)
    case 'D' => t.(cx := t.cx - n)
    case 'E' => t.(cx := 0, cy := t.cy + n)
    case 'F' => t.(cx := 0, cy := t.cy - n)
    case 'G' => t.(cx := n - 1)
    case 'd' => t.(cy := n - 1)
    case 'H' => t.(cx := Arg1(ps, 1) - 1, cy := n - 1)
    case 'f' => t.(cx := Arg1(ps, 1) - 1, cy := n - 1)
    case 'J' => EraseScreen(t, Arg(ps, 0))
    case 'K' => EraseLine(t, Arg(ps, 0))
    case 'm' => t.(pen := SgrAll(t.pen, ps))
    case 'h' => if priv && Arg(ps, 0) == 25 then t.(cursorOn := true) else t
    case 'l' => if priv && Arg(ps, 0) == 25 then t.(cursorOn := false) else t
    case 's' => t.(savedX := t.cx, savedY := t.cy)
    case 'u' => t.(cx := t.savedX, cy := t.savedY)
    case _ => t
  }

  // ---- bytes ------------------------------------------------------------

  function Plain(t: Term, c: Byte): (u: Term)
    requires t.Valid() && t.esc.Text?
    ensures u.Valid() && Follows(t, u)
  {
    if c == 27 then t.(esc := GotEsc)
    else if c == 10 then LineFeed(t.(cx := 0))
    else if c == 13 then t.(cx := 0)
    else if c == 8 then (if t.cx > 0 then t.(cx := t.cx - 1) else t)
    else if c == 9 then Spaces(t, 8 - t.cx % 8)
    else if c >= 32 then Glyph(t, c)
    else t
  }

  function PutByte(t: Term, c: Byte): (u: Term)
    requires t.Valid()
    ensures u.Valid() && Follows(t, u)
  {
    match t.esc
    case Text => Plain(t, c)
    case GotEsc => t.(esc := if c == 91 then Csi([]) else if c == 93 then Osc else Text)
    case Csi(buf) =>
      if 0x40 <= c <= 0x7E then Clamped(Act(t, c, Private(buf), Params(buf))).(esc := Text)
      else if |buf| < CSI_MAX then t.(esc := Csi(buf + [c]))
      else t
    case Osc => if c == 7 then t.(esc := Text) else if c == 27 then t.(esc := OscEsc) else t
    case OscEsc => t.(esc := Text)
  }

  function Run(t: Term, bytes: seq<Byte>): (u: Term)
    requires t.Valid()
    ensures u.Valid() && Follows(t, u)
  {
    if bytes == [] then t else PutByte(Run(t, bytes[..|bytes| - 1]), bytes[|bytes| - 1])
  }

  lemma {:induction false} RunConcat(t: Term, a: seq<Byte>, b: seq<Byte>)
    requires t.Valid()
    ensures Run(t, a + b) == Run(Run(t, a), b)
  {
    if b == [] {
      assert a + b == a;
    } else {
      RunConcat(t, a, b[..|b| - 1]);
      assert (a + b)[..|a + b| - 1] == a + b[..|b| - 1];
    }
  }

  /** Output does not move the text under a scrolled-back view, as long as the
      scrollback still holds it. */
  lemma ViewSteady(t: Term, bytes: seq<Byte>, r: nat)
    requires t.Valid() && r < t.view && r < ROWS
    ensures var u := Run(t, bytes);
            t.view + u.Top() - t.Top() <= SCROLLBACK ==>
              u.lines[u.Top() - u.view + r] == t.lines[t.Top() - t.view + r]
  {
    var u := Run(t, bytes);
    assert Follows(t, u);
  }

  // ---- paging -----------------------------------------------------------

  const PAGE := ROWS / 2

  function PageUp(t: Term): (u: Term)
    requires t.Valid()
    ensures u.Valid()
  {
    t.(view := if t.view + PAGE > t.BackCount() then t.BackCount() else t.view + PAGE)
  }

  function PageDown(t: Term): (u: Term)
    requires t.Valid()
    ensures u.Valid()
  {
    t.(view := if t.view < PAGE then 0 else t.view - PAGE)
  }

  /** Two windows half a screen apart share half their lines. */
  lemma HalfStays(lines: seq<seq<Cell>>, a: nat)
    requires a + PAGE + ROWS <= |lines|
    ensures lines[a..][..ROWS][PAGE..] == lines[a + PAGE..][..ROWS][..PAGE]
  {
  }

  /** Paging up shows the next half screen of older lines above the half that stays,
      or else the oldest lines there are. */
  lemma OlderLines(t: Term)
    requires t.Valid()
    ensures var u := PageUp(t);
            if t.view + PAGE <= t.BackCount() then Shown(u)[PAGE..] == Shown(t)[..PAGE] && PageDown(u) == t
            else Shown(u) == t.lines[t.Top() - t.BackCount()..][..ROWS]
  {
    if t.view + PAGE <= t.BackCount() { HalfStays(t.lines, t.Top() - t.view - PAGE); }
  }

  /** Paging down is the reverse, or else goes to the live screen. */
  lemma NewerLines(t: Term)
    requires t.Valid()
    ensures var u := PageDown(t);
            if PAGE <= t.view then Shown(u)[..PAGE] == Shown(t)[PAGE..] && PageUp(u) == t
            else Shown(u) == t.lines[t.Top()..]
  {
    if PAGE <= t.view { HalfStays(t.lines, t.Top() - t.view); }
  }

  function Paged(t: Term, n: nat): (u: Term)
    requires t.Valid()
    ensures u.Valid() && u == t.(view := u.view)
    decreases n
  {
    if n == 0 then t else PageUp(Paged(t, n - 1))
  }

  lemma {:induction false} PagedView(t: Term, n: nat)
    requires t.Valid() && t.view <= t.BackCount()
    ensures Paged(t, n).view == if t.view + n * PAGE > t.BackCount() then t.BackCount() else t.view + n * PAGE
    decreases n
  {
    hide Term.Grid;
    if n > 0 {
      PagedView(t, n - 1);
      assert n * PAGE == (n - 1) * PAGE + PAGE;
    }
  }

  lemma HalfScreens(back: nat) returns (n: nat)
    ensures back <= n * PAGE < back + PAGE
  {
    n := (back + PAGE - 1) / PAGE;
  }

  lemma ShownAt(t: Term, k: nat)
    requires t.Valid() && 0 <= k - (t.Top() - t.view) < ROWS
    ensures Shown(t)[k - (t.Top() - t.view)] == t.lines[k]
  {
  }

  /** Paging up from the live screen, every line the scrollback holds comes into the
      window. */
  lemma EveryLineShown(t: Term, k: nat) returns (n: nat)
    requires t.Valid() && t.view == 0 && t.Top() - t.BackCount() <= k < |t.lines|
    ensures var u := Paged(t, n);
            0 <= k - (u.Top() - u.view) < ROWS && Shown(u)[k - (u.Top() - u.view)] == t.lines[k]
  {
    hide Paged, Shown;
    n := HalfScreens(if k < t.Top() then t.Top() - k else 0);
    PagedView(t, n);
    ShownAt(Paged(t, n), k);
  }
}
