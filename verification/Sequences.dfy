/** What the control bytes and control sequences of the system console
    (kernel/console.c) do, stated over the bytes that are written. */
module Sequences {
  import opened Bytes
  import opened Characters
  import opened Numerals
  import opened Palette
  import opened Screen

  // ---- bytes ------------------------------------------------------------

  /** Decimal digits, as printf %d writes them. */
  function Dec(n: nat): (s: seq<Byte>)
    ensures |s| > 0 && forall i :: 0 <= i < |s| ==> IsDigitByte(s[i])
  {
    Numeral(n, DigitByte)
  }

  /** Numbers between semicolons. */
  function Numbers(ps: seq<nat>): seq<Byte> {
    if ps == [] then [] else if |ps| == 1 then Dec(ps[0])
    else Numbers(ps[..|ps| - 1]) + [';' as int] + Dec(ps[|ps| - 1])
  }

  const CSI: seq<Byte> := [ESC, LBRACKET]

  function Mark(priv: bool): seq<Byte> { if priv then ['?' as int] else [] }

  function Sequence(ps: seq<nat>, final: Byte): seq<Byte> { CSI + Numbers(ps) + [final] }

  function PrivateSequence(ps: seq<nat>, final: Byte): seq<Byte> { CSI + ['?' as int] + Numbers(ps) + [final] }

  /** A screen outside any escape sequence, of a size the console can have. */
  predicate Idle(s: Screen) {
    s.Valid() && s.esc == Plain && s.w <= MAX_COLS && s.h <= MAX_ROWS
  }

  lemma RunOne(s: Screen, c: Byte)
    requires s.Valid()
    ensures Run(s, [c]) == Putc(s, c)
  {
    assert Run(s, [c]) == Run(Putc(s, c), []);
  }

  lemma RunThen(s: Screen, a: seq<Byte>, t: Screen, b: seq<Byte>, u: Screen)
    requires s.Valid() && t.Valid() && Run(s, a) == t && Run(t, b) == u
    ensures Run(s, a + b) == u
  {
    RunConcat(s, a, b);
  }

  // ---- the parser -------------------------------------------------------

  function Capped(n: nat): nat { if n > 9999 then 9999 else n }

  /** The parameter slots after some numbers. */
  function Slots(ps: seq<nat>): (r: seq<nat>)
    ensures |r| == MAX_PARAMS
  {
    seq(MAX_PARAMS, i requires 0 <= i < MAX_PARAMS => if i < |ps| then Capped(ps[i]) else 0)
  }

  function AtMost(n: nat, top: nat): nat { if n > top then top else n }

  /** The parser while it reads digits of parameter `k`, which are worth `n` so far. */
  function Reading(e: Escape, k: nat, n: nat): Escape
    requires e.Csi? && e.Valid() && k == e.count
  {
    e.(params := if k < MAX_PARAMS then e.params[k := Capped(n)] else e.params, digit := true)
  }

  lemma {:induction false} RunDigits(s: Screen, n: nat)
    requires s.Valid() && s.esc.Csi? && (s.esc.count < MAX_PARAMS ==> s.esc.params[s.esc.count] == 0)
    ensures Run(s, Dec(n)) == s.(esc := Reading(s.esc, s.esc.count, n))
    decreases n
  {
    hide Run, Putc, CsiByte;
    if n < 10 {
      RunOne(s, DigitByte(n));
      OneDigit(s, n);
    } else {
      var t := s.(esc := Reading(s.esc, s.esc.count, n / 10));
      RunDigits(s, n / 10);
      RunOne(t, DigitByte(n % 10));
      OneDigit(t, n % 10);
      ReadOn(s.esc, n);
      RunThen(s, Dec(n / 10), t, [DigitByte(n % 10)], Putc(t, DigitByte(n % 10)));
    }
  }

  lemma ReadOn(e: Escape, n: nat)
    requires e.Csi? && e.Valid()
    ensures var f := Reading(e, e.count, n / 10);
            Reading(f, f.count, if f.count < MAX_PARAMS then f.params[f.count] * 10 + n % 10 else 0) ==
            Reading(e, e.count, n)
  {
    var f := Reading(e, e.count, n / 10);
    if e.count < MAX_PARAMS {
      assert f.params[e.count := Capped(n)] == e.params[e.count := Capped(n)];
    }
  }

  lemma OneDigit(s: Screen, d: nat)
    requires s.Valid() && s.esc.Csi? && d < 10
    ensures var e := s.esc;
            Putc(s, DigitByte(d)) ==
            s.(esc := Reading(e, e.count, if e.count < MAX_PARAMS then e.params[e.count] * 10 + d else 0))
  {
  }

  /** The parser after some numbers. */
  function Parsed(ps: seq<nat>, priv: bool): Escape {
    if ps == [] then Csi([0, 0, 0, 0], 0, false, priv) else Csi(Slots(ps), AtMost(|ps| - 1, MAX_PARAMS), true, priv)
  }

  lemma {:induction false} RunNumbers(s: Screen, ps: seq<nat>, priv: bool)
    requires s.Valid() && s.esc == Parsed([], priv) && |ps| <= MAX_PARAMS + 1
    ensures Run(s, Numbers(ps)) == s.(esc := Parsed(ps, priv))
    decreases |ps|
  {
    hide Run, Putc, Dec, Numbers, Slots, Reading;
    if ps == [] {
      NoNumbers(s);
    } else if |ps| == 1 {
      RunDigits(s, ps[0]);
      FirstNumber(ps, priv);
    } else {
      var a, n := ps[..|ps| - 1], ps[|ps| - 1];
      var t := s.(esc := Parsed(a, priv));
      var u := t.(esc := t.esc.(count := |ps| - 1, digit := false));
      RunNumbers(s, a, priv);
      RunOne(t, ';' as int);
      NextNumber(t);
      RunThen(s, Numbers(a), t, [';' as int], u);
      OneMoreNumber(ps, priv);
      RunDigits(u, n);
      RunThen(s, Numbers(a) + [';' as int], u, Dec(n), s.(esc := Parsed(ps, priv)));
    }
  }

  lemma NoNumbers(s: Screen)
    requires s.Valid()
    ensures Run(s, Numbers([])) == s
  {
  }

  lemma FirstNumber(ps: seq<nat>, priv: bool)
    requires |ps| == 1
    ensures Numbers(ps) == Dec(ps[0]) && Reading(Parsed([], priv), 0, ps[0]) == Parsed(ps, priv)
  {
    hide Dec;
    assert Reading(Parsed([], priv), 0, ps[0]).params == Slots(ps);
  }

  lemma OneMoreNumber(ps: seq<nat>, priv: bool)
    requires 1 < |ps| <= MAX_PARAMS + 1
    ensures var a, n := ps[..|ps| - 1], ps[|ps| - 1];
            var e := Parsed(a, priv).(count := |ps| - 1, digit := false);
            && Numbers(ps) == Numbers(a) + [';' as int] + Dec(n)
            && (e.count < MAX_PARAMS ==> e.params[e.count] == 0) && Reading(e, e.count, n) == Parsed(ps, priv)
  {
    hide Dec;
    var a, n := ps[..|ps| - 1], ps[|ps| - 1];
    SlotsMore(a, n);
    assert a + [n] == ps;
  }

  lemma NextNumber(s: Screen)
    requires s.Valid() && s.esc.Csi?
    ensures Putc(s, ';' as int) ==
      if s.esc.count < MAX_PARAMS then s.(esc := s.esc.(count := s.esc.count + 1, digit := false)) else s.(esc := Plain)
  {
  }

  lemma SlotsMore(a: seq<nat>, n: nat)
    ensures Slots(a + [n]) == if |a| < MAX_PARAMS then Slots(a)[|a| := Capped(n)] else Slots(a)
  {
  }

  lemma RunIntroducer(s: Screen, priv: bool)
    requires s.Valid() && s.esc == Plain
    ensures Run(s, CSI + Mark(priv)) == s.(esc := Parsed([], priv))
  {
    hide Run;
    var a, b := s.(esc := GotEsc), s.(esc := FRESH_CSI);
    RunOne(s, ESC);
    RunOne(a, LBRACKET);
    RunThen(s, [ESC], a, [LBRACKET], b);
    assert CSI == [ESC] + [LBRACKET];
    if priv {
      RunOne(b, '?' as int);
      RunThen(s, CSI, b, ['?' as int], s.(esc := Parsed([], true)));
    } else {
      assert CSI + [] == CSI;
    }
  }

  /** A control sequence acts as its final byte with its first four numbers. */
  lemma RunAny(s: Screen, priv: bool, ps: seq<nat>, c: Byte)
    requires s.Valid() && s.esc == Plain && |ps| <= MAX_PARAMS + 1 && 0x40 <= c <= 0x7E
    ensures Run(s, CSI + Mark(priv) + Numbers(ps) + [c]) ==
      Final(s, Csi(Slots(ps), AtMost(|ps|, MAX_PARAMS), ps != [], priv), c)
  {
    hide Run, Final, Numbers, Mark;
    var a, b := s.(esc := Parsed([], priv)), s.(esc := Parsed(ps, priv));
    RunIntroducer(s, priv);
    RunNumbers(a, ps, priv);
    RunThen(s, CSI + Mark(priv), a, Numbers(ps), b);
    RunOne(b, c);
    assert b.(esc := Plain) == s;
    if ps == [] { assert Slots(ps) == [0, 0, 0, 0]; }
    RunThen(s, CSI + Mark(priv) + Numbers(ps), b, [c], Putc(b, c));
  }

  lemma RunSequence(s: Screen, ps: seq<nat>, c: Byte)
    requires s.Valid() && s.esc == Plain && |ps| <= MAX_PARAMS + 1 && 0x40 <= c <= 0x7E
    ensures Run(s, Sequence(ps, c)) == Final(s, Csi(Slots(ps), AtMost(|ps|, MAX_PARAMS), ps != [], false), c)
  {
    hide Run, Final, Numbers, Slots;
    RunAny(s, false, ps, c);
    assert CSI + [] == CSI;
  }

  lemma RunNumber(s: Screen, n: nat, c: Byte)
    requires s.Valid() && s.esc == Plain && 0x40 <= c <= 0x7E
    ensures Run(s, Sequence([n], c)) == Final(s, Csi([Capped(n), 0, 0, 0], 1, true, false), c)
  {
    hide Run, Final, Numbers;
    RunSequence(s, [n], c);
    assert Slots([n]) == [Capped(n), 0, 0, 0];
  }

  // ---- laws -------------------------------------------------------------

  /** H and f put the caret on the row and column they name, counted from one, as far
      as the screen goes. */
  lemma Address(s: Screen, r: nat, c: nat, final: Byte)
    requires Idle(s) && final in {'H' as int, 'f' as int}
    ensures Run(s, Sequence([r, c], final)) ==
      s.(row := if r == 0 then 0 else if r > s.h then s.h - 1 else r - 1,
         col := if c == 0 then 0 else if c > s.w then s.w - 1 else c - 1)
  {
    hide Run, Numbers;
    RunSequence(s, [r, c], final);
  }

  lemma Home(s: Screen, final: Byte)
    requires Idle(s) && final in {'H' as int, 'f' as int}
    ensures Run(s, Sequence([], final)) == s.(row := 0, col := 0)
  {
    hide Run, Numbers;
    RunSequence(s, [], final);
  }

  /** A row alone leads to its first column. */
  lemma AddressRow(s: Screen, r: nat, final: Byte)
    requires Idle(s) && final in {'H' as int, 'f' as int}
    ensures Run(s, Sequence([r], final)) == Run(s, Sequence([r, 1], final))
  {
    hide Run, Numbers;
    RunSequence(s, [r], final);
    Address(s, r, 1, final);
  }

  /** Numbers after the fourth are ignored, and a fifth semicolon ends the sequence
      without effect. */
  lemma FifthNumber(s: Screen, ps: seq<nat>, c: Byte)
    requires s.Valid() && s.esc == Plain && |ps| == MAX_PARAMS + 1 && 0x40 <= c <= 0x7E
    ensures Run(s, Sequence(ps, c)) == Run(s, Sequence(ps[..MAX_PARAMS], c))
    ensures Run(s, CSI + Numbers(ps) + [';' as int]) == s
  {
    hide Run, Numbers, Final, Putc;
    RunSequence(s, ps, c);
    RunSequence(s, ps[..MAX_PARAMS], c);
    assert Slots(ps) == Slots(ps[..MAX_PARAMS]);
    var a, b := s.(esc := Parsed([], false)), s.(esc := Parsed(ps, false));
    RunIntroducer(s, false);
    assert CSI + Mark(false) == CSI;
    RunNumbers(a, ps, false);
    RunThen(s, CSI, a, Numbers(ps), b);
    RunOne(b, ';' as int);
    NextNumber(b);
    RunThen(s, CSI + Numbers(ps), b, [';' as int], s);
  }

  /** A, B, C and D move up, down, right and left by their number, at least one, and
      stop at the edge. */
  lemma Moves(s: Screen, n: nat)
    requires Idle(s)
    ensures var k := if n == 0 then 1 else n;
            && Run(s, Sequence([n], 'A' as int)) == s.(row := if s.row < k then 0 else s.row - k)
            && Run(s, Sequence([n], 'B' as int)) == s.(row := if s.row + k >= s.h then s.h - 1 else s.row + k)
            && Run(s, Sequence([n], 'C' as int)) == s.(col := if s.col + k >= s.w then s.w - 1 else s.col + k)
            && Run(s, Sequence([n], 'D' as int)) == s.(col := if s.col < k then 0 else s.col - k)
  {
    hide Run, Sequence, Final;
    RunNumber(s, n, 'A' as int);
    RunNumber(s, n, 'B' as int);
    RunNumber(s, n, 'C' as int);
    RunNumber(s, n, 'D' as int);
    MovesRow(s, n);
    MovesColumn(s, n);
  }

  lemma MovesRow(s: Screen, n: nat)
    requires Idle(s)
    ensures var e, k := Csi([Capped(n), 0, 0, 0], 1, true, false), if n == 0 then 1 else n;
            && Final(s, e, 'A' as int) == s.(row := if s.row < k then 0 else s.row - k)
            && Final(s, e, 'B' as int) == s.(row := if s.row + k >= s.h then s.h - 1 else s.row + k)
  {
    hide Sgr, Cleared, ErasedRow, Screen.Grid;
  }

  lemma MovesColumn(s: Screen, n: nat)
    requires Idle(s)
    ensures var e, k := Csi([Capped(n), 0, 0, 0], 1, true, false), if n == 0 then 1 else n;
            && Final(s, e, 'C' as int) == s.(col := if s.col + k >= s.w then s.w - 1 else s.col + k)
            && Final(s, e, 'D' as int) == s.(col := if s.col < k then 0 else s.col - k)
  {
    hide Sgr, Cleared, ErasedRow, Screen.Grid;
  }

  /** A move inside the screen is undone by the opposite one. */
  lemma MovesBack(s: Screen, n: nat)
    requires Idle(s) && 0 < n
    ensures s.row + n < s.h ==> Run(s, Sequence([n], 'B' as int) + Sequence([n], 'A' as int)) == s
    ensures s.col + n < s.w ==> Run(s, Sequence([n], 'C' as int) + Sequence([n], 'D' as int)) == s
  {
    hide Run, Sequence;
    Moves(s, n);
    if s.row + n < s.h {
      Moves(s.(row := s.row + n), n);
      RunThen(s, Sequence([n], 'B' as int), s.(row := s.row + n), Sequence([n], 'A' as int), s);
    }
    if s.col + n < s.w {
      Moves(s.(col := s.col + n), n);
      RunThen(s, Sequence([n], 'C' as int), s.(col := s.col + n), Sequence([n], 'D' as int), s);
    }
  }

  /** 2J blanks every cell and homes the caret; other numbers do nothing. */
  lemma ClearsAll(s: Screen, n: nat)
    requires Idle(s)
    ensures var t := Run(s, Sequence([n], 'J' as int));
            if n != 2 then t == s
            else
              && t == s.(rows := t.rows, row := 0, col := 0)
              && forall r, c :: 0 <= r < s.h && 0 <= c < s.w ==> t.rows[r][c] == Cell(SPACE, s.color)
  {
    hide Run, Sequence;
    RunNumber(s, n, 'J' as int);
  }

  /** K blanks the caret's row from the caret on. */
  lemma ErasesRest(s: Screen, ps: seq<nat>)
    requires Idle(s) && |ps| <= MAX_PARAMS + 1
    ensures var t := Run(s, Sequence(ps, 'K' as int));
            && t == s.(rows := t.rows)
            && forall r, c :: 0 <= r < s.h && 0 <= c < s.w ==>
                 t.rows[r][c] == if r == s.row && c >= s.col then Cell(SPACE, s.color) else s.rows[r][c]
  {
    hide Run, Sequence;
    RunSequence(s, ps, 'K' as int);
  }

  /** ?25l hides the caret and ?25h shows it, and no other private sequence does
      anything. */
  lemma Visibility(s: Screen, n: nat, c: Byte)
    requires Idle(s) && 0x40 <= c <= 0x7E
    ensures Run(s, PrivateSequence([n], c)) ==
      if n == 25 && c == 'l' as int then s.(visible := false)
      else if n == 25 && c == 'h' as int then s.(visible := true)
      else s
  {
    hide Run, Numbers;
    RunAny(s, true, [n], c);
  }

  /** Any other final byte is swallowed, and so is an escape that starts no sequence. */
  lemma Swallowed(s: Screen, ps: seq<nat>, c: Byte)
    requires Idle(s) && |ps| <= MAX_PARAMS + 1
    ensures 0x40 <= c <= 0x7E && (forall i :: 0 <= i < |"JHfKmABCD"| ==> c != "JHfKmABCD"[i] as int) ==>
      Run(s, Sequence(ps, c)) == s
    ensures c != LBRACKET ==> Run(s, [ESC, c]) == s
  {
    hide Run, Sequence;
    var finals := "JHfKmABCD";
    if 0x40 <= c <= 0x7E && (forall i :: 0 <= i < |finals| ==> c != finals[i] as int) {
      assert forall i :: 0 <= i < 9 ==> c != finals[i] as int;
      assert finals[0] == 'J' && finals[1] == 'H' && finals[2] == 'f' && finals[3] == 'K' && finals[4] == 'm';
      assert finals[5] == 'A' && finals[6] == 'B' && finals[7] == 'C' && finals[8] == 'D';
      RunSequence(s, ps, c);
    }
    if c != LBRACKET {
      RunOne(s, ESC);
      RunOne(s.(esc := GotEsc), c);
      RunThen(s, [ESC], s.(esc := GotEsc), [c], s);
      assert [ESC] + [c] == [ESC, c];
    }
  }

  // ---- colours ----------------------------------------------------------

  /** The palette orders red, green and blue the other way round. */
  function Rgb(k: nat): Nibble
    requires k < 8
  {
    k % 2 * 4 + k / 2 % 2 * 2 + k / 4
  }

  /** What one colour number does to the pen. */
  lemma Colours(s: Screen, n: nat)
    requires Idle(s)
    ensures var pen := s.color;
            Run(s, Sequence([n], 'm' as int)) ==
            s.(color :=
                 if n == 0 then Color(7, 0)
                 else if n == 1 then Color(8 + pen.fg % 8, pen.bg)
                 else if n == 7 then Color(pen.bg, pen.fg)
                 else if 30 <= n < 38 then Color(pen.fg / 8 * 8 + Rgb(n - 30), pen.bg)
                 else if 40 <= n < 48 then Color(pen.fg, Rgb(n - 40))
                 else if 90 <= n < 98 then Color(8 + Rgb(n - 90), pen.bg)
                 else pen)
  {
    hide Run, Sequence, SgrOne, SgrAll, Rgb, Cleared, ErasedRow;
    RunNumber(s, n, 'm' as int);
    assert [Capped(n), 0, 0, 0][..1] == [Capped(n)];
    OneColour(s.color, Capped(n));
  }

  lemma OneColour(pen: Color, n: nat)
    ensures SgrAll(pen, [n]) == SgrOne(pen, n)
    ensures SgrOne(pen, n) ==
      if n == 0 then Color(7, 0)
      else if n == 1 then Color(8 + pen.fg % 8, pen.bg)
      else if n == 7 then Color(pen.bg, pen.fg)
      else if 30 <= n < 38 then Color(pen.fg / 8 * 8 + Rgb(n - 30), pen.bg)
      else if 40 <= n < 48 then Color(pen.fg, Rgb(n - 40))
      else if 90 <= n < 98 then Color(8 + Rgb(n - 90), pen.bg)
      else pen
  {
    hide AnsiToVga, Rgb;
    assert SgrAll(pen, [n]) == SgrOne(SgrAll(pen, []), n);
    if 30 <= n < 38 { Swapped(n - 30); }
    if 40 <= n < 48 { Swapped(n - 40); }
    if 90 <= n < 98 { Swapped(n - 90); }
  }

  lemma Swapped(k: nat)
    requires k < 8
    ensures AnsiToVga(k) == Rgb(k) < 8
  {
    assert k == 0 || k == 1 || k == 2 || k == 3 || k == 4 || k == 5 || k == 6 || k == 7;
  }

  /** A list of colour numbers is one after the other; none is zero. */
  lemma ColourList(s: Screen, a: seq<nat>, b: seq<nat>)
    requires Idle(s) && a != [] && b != [] && |a| + |b| <= MAX_PARAMS
    ensures Run(s, Sequence(a + b, 'm' as int)) == Run(s, Sequence(a, 'm' as int) + Sequence(b, 'm' as int))
    ensures Run(s, Sequence([], 'm' as int)) == Run(s, Sequence([0], 'm' as int))
  {
    hide Run, Sequence, SgrOne;
    RunSequence(s, a + b, 'm' as int);
    RunSequence(s, a, 'm' as int);
    var t := s.(color := Sgr(s.color, Csi(Slots(a), |a|, true, false)));
    RunSequence(t, b, 'm' as int);
    assert Slots(a + b)[..|a + b|] == Slots(a)[..|a|] + Slots(b)[..|b|];
    SgrOfConcat(s.color, Slots(a)[..|a|], Slots(b)[..|b|]);
    RunThen(s, Sequence(a, 'm' as int), t, Sequence(b, 'm' as int), Run(t, Sequence(b, 'm' as int)));
    RunSequence(s, [], 'm' as int);
    RunSequence(s, [0], 'm' as int);
    assert Slots([0])[..1] == [0];
    OneColour(s.color, 0);
  }

  lemma {:induction false} SgrOfConcat(pen: Color, a: seq<nat>, b: seq<nat>)
    ensures SgrAll(pen, a + b) == SgrAll(SgrAll(pen, a), b)
    decreases |b|
  {
    if b == [] {
      assert a + b == a;
    } else {
      assert (a + b)[..|a + b| - 1] == a + b[..|b| - 1];
      SgrOfConcat(pen, a, b[..|b| - 1]);
    }
  }

  // ---- plain bytes ------------------------------------------------------

  /** A character goes into the caret's cell in the colour of the pen, and the caret
      moves on within the row. */
  lemma Prints(s: Screen, ch: Byte)
    requires Idle(s) && ch >= SPACE && s.col + 1 < s.w
    ensures var t := Run(s, [ch]);
            && t == s.(rows := t.rows, col := s.col + 1)
            && forall r, c :: 0 <= r < s.h && 0 <= c < s.w ==>
                 t.rows[r][c] == if r == s.row && c == s.col then Cell(ch, s.color) else s.rows[r][c]
  {
    RunOne(s, ch);
  }

  /** A character in the last column goes on to the next row, as a line feed would. */
  lemma Wraps(s: Screen, ch: Byte)
    requires Idle(s) && ch >= SPACE && s.col + 1 == s.w
    ensures Run(s, [ch]) == Run(s.(rows := SetCell(s.rows, s.row, s.col, Cell(ch, s.color))), [LF])
  {
    RunOne(s, ch);
    RunOne(s.(rows := SetCell(s.rows, s.row, s.col, Cell(ch, s.color))), LF);
  }

  /** A line feed goes to the start of the next row; from the last one every row moves
      up and a blank one appears. */
  lemma LineFeeds(s: Screen)
    requires Idle(s)
    ensures var t := Run(s, [LF]);
            if s.row + 1 < s.h then t == s.(row := s.row + 1, col := 0)
            else
              && t == s.(rows := t.rows, col := 0)
              && forall r, c :: 0 <= r < s.h && 0 <= c < s.w ==>
                   t.rows[r][c] == if r + 1 < s.h then s.rows[r + 1][c] else Cell(SPACE, s.color)
  {
    RunOne(s, LF);
  }

  /** A backspace blanks the cell it goes back to. */
  lemma Backspace(s: Screen)
    requires Idle(s)
    ensures Run(s, [BS]) ==
      if s.col == 0 then s
      else s.(col := s.col - 1, rows := SetCell(s.rows, s.row, s.col - 1, Cell(SPACE, s.color)))
  {
    hide Run, Putc;
    RunOne(s, BS);
    GoesBack(s);
  }

  lemma GoesBack(s: Screen)
    requires Idle(s)
    ensures Putc(s, BS) ==
      if s.col == 0 then s
      else s.(col := s.col - 1, rows := SetCell(s.rows, s.row, s.col - 1, Cell(SPACE, s.color)))
  {
  }

  /** After a character it leaves a blank under the caret the character started from. */
  lemma Unprints(s: Screen, ch: Byte)
    requires Idle(s) && ch >= SPACE && s.col + 1 < s.w
    ensures Run(s, [ch, BS]) == s.(rows := SetCell(s.rows, s.row, s.col, Cell(SPACE, s.color)))
  {
    hide Run, SetCell;
    PrintsCell(s, ch);
    var t := Run(s, [ch]);
    assert [ch] + [BS] == [ch, BS];
    RunConcat(s, [ch], [BS]);
    Backspace(t);
    SetTwice(s.rows, s.row, s.col, Cell(ch, s.color), Cell(SPACE, s.color));
  }

  lemma PrintsCell(s: Screen, ch: Byte)
    requires Idle(s) && ch >= SPACE && s.col + 1 < s.w
    ensures Run(s, [ch]) == s.(rows := SetCell(s.rows, s.row, s.col, Cell(ch, s.color)), col := s.col + 1)
  {
    RunOne(s, ch);
  }

  lemma SetTwice(rows: seq<seq<Cell>>, r: nat, c: nat, a: Cell, b: Cell)
    requires r < |rows| && c < |rows[r]|
    ensures SetCell(SetCell(rows, r, c, a), r, c, b) == SetCell(rows, r, c, b)
  {
    assert rows[r][c := a][c := b] == rows[r][c := b];
  }

  /** A tab goes to the next multiple of eight, or on to the next row; a carriage
      return to the first column. */
  lemma Tabs(s: Screen, k: nat)
    requires Idle(s) && 8 * k <= s.col < 8 * (k + 1)
    ensures Run(s, [TAB]) == if 8 * (k + 1) < s.w then s.(col := 8 * (k + 1)) else Run(s, [LF])
    ensures Run(s, [CR]) == s.(col := 0)
  {
    hide Run, CsiByte, Glyph, MoveTo, SetCell, TabStop;
    RunOne(s, TAB);
    RunOne(s, LF);
    RunOne(s, CR);
    NextStop(s.col, k);
  }

  lemma NextStop(col: nat, k: nat)
    requires 8 * k <= col < 8 * (k + 1)
    ensures TabStop(col) == 8 * (k + 1)
  {
  }
}
