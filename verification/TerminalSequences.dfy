/** What control bytes and control sequences do in the terminal window
    (apps/terminal.c), stated over the bytes that are written. */
module TerminalSequences {
  import opened Bytes
  import opened Characters
  import opened Palette
  import opened Transcript
  import Sequences

  const CSI: seq<Byte> := [27, 91]

  function Sequence(ps: seq<nat>, final: Byte): seq<Byte> { CSI + Sequences.Numbers(ps) + [final] }

  function PrivateSequence(ps: seq<nat>, final: Byte): seq<Byte> {
    CSI + (['?' as int] + Sequences.Numbers(ps)) + [final]
  }

  /** Outside any escape sequence. */
  predicate Idle(t: Term) { t.Valid() && t.esc == Text }

  /** Up to eight numbers that fit the buffer. */
  predicate Fits(ps: seq<nat>) { |ps| <= 8 && |Sequences.Numbers(ps)| < CSI_MAX }

  predicate IsFinal(c: Byte) { 0x40 <= c <= 0x7E }

  // ---- the parser -------------------------------------------------------

  lemma {:induction false} FieldsOfDigits(n: nat, s: seq<Byte>)
    ensures Fields(Sequences.Dec(n) + s, 0) == Fields(s, n)
    decreases n
  {
    var d := [DigitByte(n % 10)];
    if n < 10 {
      assert (d + s)[1..] == s;
    } else {
      assert Sequences.Dec(n / 10) + d + s == Sequences.Dec(n / 10) + (d + s);
      FieldsOfDigits(n / 10, d + s);
      assert (d + s)[1..] == s;
    }
  }

  lemma {:induction false} FieldsOfNumbers(ps: seq<nat>, s: seq<Byte>)
    requires ps != []
    ensures Fields(Sequences.Numbers(ps) + s, 0) == ps[..|ps| - 1] + Fields(s, ps[|ps| - 1])
    decreases |ps|
  {
    hide Fields, Sequences.Dec;
    var last := ps[|ps| - 1];
    FieldsOfDigits(last, s);
    if |ps| == 1 {
      assert ps[..0] + Fields(s, last) == Fields(s, last);
    } else {
      var a, semi := ps[..|ps| - 1], [';' as int];
      var rest := semi + (Sequences.Dec(last) + s);
      assert Sequences.Numbers(ps) + s == Sequences.Numbers(a) + rest;
      FieldsOfNumbers(a, rest);
      FieldsOfSemicolon(Sequences.Dec(last) + s, a[|a| - 1]);
      assert a[..|a| - 1] + ([a[|a| - 1]] + Fields(s, last)) == a + Fields(s, last);
    }
  }

  lemma FieldsOfSemicolon(s: seq<Byte>, v: nat)
    ensures Fields([';' as int] + s, v) == [v] + Fields(s, 0)
  {
    assert ([';' as int] + s)[1..] == s;
  }

  lemma FieldsOfNothing(v: nat)
    ensures Fields([], v) == [v]
  {
  }

  lemma {:induction false} NumberBytes(ps: seq<nat>)
    ensures forall i :: 0 <= i < |Sequences.Numbers(ps)| ==> 48 <= Sequences.Numbers(ps)[i] <= 59
    decreases |ps|
  {
    hide Sequences.Dec;
    if |ps| > 1 { NumberBytes(ps[..|ps| - 1]); }
  }

  lemma NoNumbers()
    ensures Sequences.Numbers([]) == []
  {
  }

  /** Numbers are read back as they were written; none is a zero. */
  lemma FieldsBack(ps: seq<nat>)
    ensures Fields(Sequences.Numbers(ps), 0) == if ps == [] then [0] else ps
  {
    hide Sequences.Numbers, Fields;
    if ps == [] {
      NoNumbers();
      FieldsOfNothing(0);
    } else {
      var last := ps[|ps| - 1];
      FieldsOfNumbers(ps, []);
      FieldsOfNothing(last);
      assert Sequences.Numbers(ps) + [] == Sequences.Numbers(ps);
      assert ps[..|ps| - 1] + [last] == ps;
    }
  }

  lemma ParamsBack(ps: seq<nat>)
    requires |ps| <= 8
    ensures !Private(Sequences.Numbers(ps)) && Private(['?' as int] + Sequences.Numbers(ps))
    ensures Params(Sequences.Numbers(ps)) == if ps == [] then [0] else ps
    ensures Params(['?' as int] + Sequences.Numbers(ps)) == if ps == [] then [0] else ps
  {
    hide Sequences.Numbers, Fields;
    NumberBytes(ps);
    FieldsBack(ps);
    assert (['?' as int] + Sequences.Numbers(ps))[1..] == Sequences.Numbers(ps);
  }

  lemma {:induction false} Collects(t: Term, buf: seq<Byte>, s: seq<Byte>)
    requires t.Valid() && t.esc == Csi(buf) && |buf| + |s| <= CSI_MAX && forall i :: 0 <= i < |s| ==> s[i] < 0x40
    ensures Run(t, s) == t.(esc := Csi(buf + s))
    decreases |s|
  {
    if s == [] {
      assert buf + s == buf;
    } else {
      var a := s[..|s| - 1];
      Collects(t, buf, a);
      assert buf + s == (buf + a) + [s[|s| - 1]];
    }
  }

  lemma Introduces(t: Term)
    requires Idle(t)
    ensures Run(t, CSI) == t.(esc := Csi([]))
  {
    assert CSI[..1] == [27] && [27][..0] == [];
    assert Run(t, [27]) == t.(esc := GotEsc);
  }

  lemma RunCsi(t: Term, buf: seq<Byte>, c: Byte)
    requires Idle(t) && |buf| <= CSI_MAX && IsFinal(c) && forall i :: 0 <= i < |buf| ==> buf[i] < 0x40
    ensures Run(t, CSI + buf + [c]) == Clamped(Act(t.(esc := Csi(buf)), c, Private(buf), Params(buf))).(esc := Text)
  {
    hide Act, Params, Clamped, Run, Private;
    Introduces(t);
    Collects(t.(esc := Csi([])), [], buf);
    assert [] + buf == buf;
    RunConcat(t, CSI, buf);
    RunConcat(t, CSI + buf, [c]);
    RunOne(t.(esc := Csi(buf)), c);
  }

  lemma RunOne(t: Term, c: Byte)
    requires t.Valid()
    ensures Run(t, [c]) == PutByte(t, c)
  {
    assert Run(t, [c]) == PutByte(Run(t, []), c) by {
      assert [c][..0] == [];
    }
  }

  lemma RunThen(t: Term, a: seq<Byte>, u: Term, b: seq<Byte>, v: Term)
    requires t.Valid() && u.Valid() && Run(t, a) == u && Run(u, b) == v
    ensures Run(t, a + b) == v
  {
    RunConcat(t, a, b);
  }

  /** What a sequence does does not depend on how it was spelled. */
  lemma ActBlind(t: Term, e: Escape, c: Byte, priv: bool, ps: seq<nat>)
    requires Idle(t) && t.(esc := e).Valid()
    ensures Clamped(Act(t.(esc := e), c, priv, ps)).(esc := Text) == Clamped(Act(t, c, priv, ps))
  {
    hide Act;
    Blind(t, e, c, priv, ps);
  }

  lemma Blind(t: Term, e: Escape, c: Byte, priv: bool, ps: seq<nat>)
    requires Idle(t) && t.(esc := e).Valid()
    ensures Act(t.(esc := e), c, priv, ps) == Act(t, c, priv, ps).(esc := e) && Act(t, c, priv, ps).esc == Text
  {
    hide Act;
    if c as char in {'A', 'B', 'C', 'D', 'E', 'F'} {
      MoveBlind(t, e, c, priv, ps);
    } else if c as char in {'G', 'd', 'H', 'f'} {
      AddressBlind(t, e, c, priv, ps);
    } else if c as char in {'J', 'K'} {
      EraseBlind(t, e, c, priv, ps);
    } else if c as char in {'m', 'h', 'l', 's', 'u'} {
      StateBlind(t, e, c, priv, ps);
    } else {
      Unknown(t, c, priv, ps);
      Unknown(t.(esc := e), c, priv, ps);
    }
  }

  lemma MoveBlind(t: Term, e: Escape, c: Byte, priv: bool, ps: seq<nat>)
    requires Idle(t) && t.(esc := e).Valid() && c as char in {'A', 'B', 'C', 'D', 'E', 'F'}
    ensures Act(t.(esc := e), c, priv, ps) == Act(t, c, priv, ps).(esc := e) && Act(t, c, priv, ps).esc == Text
  {
    hide EraseScreen, EraseLine, SgrAll, Follows, Arg, Arg1;
  }

  lemma AddressBlind(t: Term, e: Escape, c: Byte, priv: bool, ps: seq<nat>)
    requires Idle(t) && t.(esc := e).Valid() && c as char in {'G', 'd', 'H', 'f'}
    ensures Act(t.(esc := e), c, priv, ps) == Act(t, c, priv, ps).(esc := e) && Act(t, c, priv, ps).esc == Text
  {
    hide EraseScreen, EraseLine, SgrAll, Follows, Arg, Arg1;
  }

  lemma EraseBlind(t: Term, e: Escape, c: Byte, priv: bool, ps: seq<nat>)
    requires Idle(t) && t.(esc := e).Valid() && c as char in {'J', 'K'}
    ensures Act(t.(esc := e), c, priv, ps) == Act(t, c, priv, ps).(esc := e) && Act(t, c, priv, ps).esc == Text
  {
    hide EraseScreen, EraseLine, SgrAll, Follows, Arg, Arg1;
    ScreenBlind(t, e, Arg(ps, 0));
    LineBlind(t, e, Arg(ps, 0));
  }

  lemma StateBlind(t: Term, e: Escape, c: Byte, priv: bool, ps: seq<nat>)
    requires Idle(t) && t.(esc := e).Valid() && c as char in {'m', 'h', 'l', 's', 'u'}
    ensures Act(t.(esc := e), c, priv, ps) == Act(t, c, priv, ps).(esc := e) && Act(t, c, priv, ps).esc == Text
  {
    hide EraseScreen, EraseLine, SgrAll, Follows, Arg, Arg1;
  }

  /** Other final bytes do nothing. */
  lemma Unknown(t: Term, c: Byte, priv: bool, ps: seq<nat>)
    requires t.Valid()
    requires c as char !in {'A', 'B', 'C', 'D', 'E', 'F', 'G', 'd', 'H', 'f', 'J', 'K', 'm', 'h', 'l', 's', 'u'}
    ensures Act(t, c, priv, ps) == t
  {
    hide EraseScreen, EraseLine, SgrAll, Follows, Arg, Arg1;
  }

  lemma ScreenBlind(t: Term, e: Escape, mode: int)
    requires Idle(t) && t.(esc := e).Valid()
    ensures EraseScreen(t.(esc := e), mode) == EraseScreen(t, mode).(esc := e) && EraseScreen(t, mode).esc == Text
  {
    hide ClearSpan, Blanked, Follows;
  }

  lemma LineBlind(t: Term, e: Escape, mode: int)
    requires Idle(t) && t.(esc := e).Valid()
    ensures EraseLine(t.(esc := e), mode) == EraseLine(t, mode).(esc := e) && EraseLine(t, mode).esc == Text
  {
    hide ClearSpan, Follows;
  }

  /** A control sequence acts as its final byte with its numbers. */
  lemma RunSequence(t: Term, ps: seq<nat>, c: Byte)
    requires Idle(t) && Fits(ps) && IsFinal(c)
    ensures Run(t, Sequence(ps, c)) == Clamped(Act(t, c, false, if ps == [] then [0] else ps))
  {
    hide Act, Params, Run, Clamped, Private, Sequences.Numbers;
    var buf := Sequences.Numbers(ps);
    NumberBytes(ps);
    ParamsBack(ps);
    RunCsi(t, buf, c);
    ActBlind(t, Csi(buf), c, false, Params(buf));
  }

  lemma RunPrivate(t: Term, ps: seq<nat>, c: Byte)
    requires Idle(t) && Fits(ps) && IsFinal(c)
    ensures Run(t, PrivateSequence(ps, c)) == Clamped(Act(t, c, true, if ps == [] then [0] else ps))
  {
    hide Act, Params, Run, Clamped, Private, Sequences.Numbers;
    var buf := ['?' as int] + Sequences.Numbers(ps);
    NumberBytes(ps);
    ParamsBack(ps);
    RunCsi(t, buf, c);
    ActBlind(t, Csi(buf), c, true, Params(buf));
  }

  // ---- motion -----------------------------------------------------------

  function Least(n: nat): nat { if n == 0 then 1 else n }

  /** Columns and rows as near as the screen has them. */
  function Column(x: int): int { if x < 0 then 0 else if x >= COLS then COLS - 1 else x }

  function Line(y: int): int { if y < 0 then 0 else if y >= ROWS then ROWS - 1 else y }

  /** H and f put the caret on the row and column they name, counted from one. */
  lemma Address(t: Term, r: nat, c: nat, final: Byte)
    requires Idle(t) && Fits([r, c]) && final in {'H' as int, 'f' as int}
    ensures Run(t, Sequence([r, c], final)) == t.(cy := Line(Least(r) - 1), cx := Column(Least(c) - 1))
  {
    hide Run, Sequence;
    RunSequence(t, [r, c], final);
  }

  /** The motions with one number, which is at least one. */
  lemma Moves(t: Term, n: nat)
    requires Idle(t) && Fits([n])
    ensures Run(t, Sequence([n], 'A' as int)) == t.(cy := Line(t.cy - Least(n)), cx := Column(t.cx))
    ensures Run(t, Sequence([n], 'B' as int)) == t.(cy := Line(t.cy + Least(n)), cx := Column(t.cx))
    ensures Run(t, Sequence([n], 'C' as int)) == t.(cx := Column(t.cx + Least(n)))
    ensures Run(t, Sequence([n], 'D' as int)) == t.(cx := Column(t.cx - Least(n)))
  {
    hide Run, Sequence, Act, Clamped;
    RunSequence(t, [n], 'A' as int);
    RunSequence(t, [n], 'B' as int);
    RunSequence(t, [n], 'C' as int);
    RunSequence(t, [n], 'D' as int);
    UpAndDown(t, n);
    RightAndLeft(t, n);
  }

  lemma UpAndDown(t: Term, n: nat)
    requires Idle(t)
    ensures Clamped(Act(t, 'A' as int, false, [n])) == t.(cy := Line(t.cy - Least(n)), cx := Column(t.cx))
    ensures Clamped(Act(t, 'B' as int, false, [n])) == t.(cy := Line(t.cy + Least(n)), cx := Column(t.cx))
  {
    hide EraseScreen, EraseLine, SgrAll, Follows;
  }

  lemma RightAndLeft(t: Term, n: nat)
    requires Idle(t)
    ensures Clamped(Act(t, 'C' as int, false, [n])) == t.(cx := Column(t.cx + Least(n)))
    ensures Clamped(Act(t, 'D' as int, false, [n])) == t.(cx := Column(t.cx - Least(n)))
  {
    hide EraseScreen, EraseLine, SgrAll, Follows;
  }

  lemma MovesToLines(t: Term, n: nat)
    requires Idle(t) && Fits([n])
    ensures Run(t, Sequence([n], 'E' as int)) == t.(cy := Line(t.cy + Least(n)), cx := 0)
    ensures Run(t, Sequence([n], 'F' as int)) == t.(cy := Line(t.cy - Least(n)), cx := 0)
    ensures Run(t, Sequence([n], 'G' as int)) == t.(cx := Column(Least(n) - 1))
    ensures Run(t, Sequence([n], 'd' as int)) == t.(cy := Line(Least(n) - 1), cx := Column(t.cx))
  {
    hide Run, Sequence, Act, Clamped;
    RunSequence(t, [n], 'E' as int);
    RunSequence(t, [n], 'F' as int);
    RunSequence(t, [n], 'G' as int);
    RunSequence(t, [n], 'd' as int);
    NextLines(t, n);
    ToPlace(t, n);
  }

  lemma NextLines(t: Term, n: nat)
    requires Idle(t)
    ensures Clamped(Act(t, 'E' as int, false, [n])) == t.(cy := Line(t.cy + Least(n)), cx := 0)
    ensures Clamped(Act(t, 'F' as int, false, [n])) == t.(cy := Line(t.cy - Least(n)), cx := 0)
  {
    hide EraseScreen, EraseLine, SgrAll, Follows;
  }

  lemma ToPlace(t: Term, n: nat)
    requires Idle(t)
    ensures Clamped(Act(t, 'G' as int, false, [n])) == t.(cx := Column(Least(n) - 1))
    ensures Clamped(Act(t, 'd' as int, false, [n])) == t.(cy := Line(Least(n) - 1), cx := Column(t.cx))
  {
    hide EraseScreen, EraseLine, SgrAll, Follows;
  }

  /** No number is a one, or for an address the first row and column. */
  lemma Omitted(t: Term, c: Byte)
    requires Idle(t) && IsFinal(c) && Fits([]) && Fits([0])
    ensures Run(t, Sequence([], c)) == Run(t, Sequence([0], c))
  {
    hide Run, Sequence, Act;
    RunSequence(t, [], c);
    RunSequence(t, [0], c);
  }

  /** u goes back to where s was. */
  lemma SavedAndRestored(t: Term, x: int, y: int)
    requires Idle(t) && 0 <= x < COLS && 0 <= y < ROWS
    ensures var s := Run(t, Sequence([], 's' as int));
            && s == t.(savedX := t.cx, savedY := t.cy, cx := Column(t.cx))
            && Run(s.(cx := x, cy := y), Sequence([], 'u' as int)) == s
  {
    hide Run, Sequence;
    NothingFits();
    RunSequence(t, [], 's' as int);
    RunSequence(t.(savedX := t.cx, savedY := t.cy, cx := x, cy := y), [], 'u' as int);
  }

  lemma NothingFits()
    ensures Fits([])
  {
  }

  // ---- erasing ----------------------------------------------------------

  /** Where the caret is, row by row. */
  predicate Before(t: Term, r: int, c: int) { r < t.cy || (r == t.cy && c < t.cx) }

  predicate AtCaret(t: Term, r: int, c: int) { r == t.cy && c == t.cx }

  /** J blanks from the caret on, up to and with the caret, or everything. */
  lemma ErasesScreen(t: Term, n: nat)
    requires Idle(t) && Fits([n])
    ensures var u := Run(t, Sequence([n], 'J' as int));
            && u == t.(lines := u.lines, cx := Column(t.cx)) && |u.lines| == |t.lines|
            && forall r, c :: 0 <= r < ROWS && 0 <= c < COLS ==>
                 Row(u, r)[c] ==
                 if n == 2 || (if n == 1 then Before(t, r, c) || AtCaret(t, r, c) else !Before(t, r, c))
                 then Cell(32, 7, t.pen.bg) else Row(t, r)[c]
  {
    hide Run, Sequence, EraseScreen;
    RunSequence(t, [n], 'J' as int);
    ScreenCells(t, n);
    var u := Run(t, Sequence([n], 'J' as int));
    forall r, c | 0 <= r < ROWS && 0 <= c < COLS
      ensures Row(u, r)[c] == Row(EraseScreen(t, n), r)[c]
    {
      assert u.lines == EraseScreen(t, n).lines;
    }
  }

  lemma ScreenCells(t: Term, n: nat)
    requires Idle(t)
    ensures var u := EraseScreen(t, n);
            && u == t.(lines := u.lines)
            && forall r, c :: 0 <= r < ROWS && 0 <= c < COLS ==>
                 Row(u, r)[c] ==
                 if n == 2 || (if n == 1 then Before(t, r, c) || AtCaret(t, r, c) else !Before(t, r, c))
                 then Cell(32, 7, t.pen.bg) else Row(t, r)[c]
  {
    hide Follows;
    var u, row := EraseScreen(t, n), Row(t, t.cy);
    assert Blank(t.pen.bg) == Cell(32, 7, t.pen.bg);
    forall r | 0 <= r < ROWS
      ensures Row(u, r) ==
        if n == 2 || (if n == 1 then r < t.cy else r > t.cy) then BlankLine(t.pen.bg)
        else if r != t.cy then Row(t, r)
        else if n == 1 then ClearSpan(row, 0, t.cx + 1, t.pen.bg) else ClearSpan(row, t.cx, COLS, t.pen.bg)
    {
    }
  }

  /** K does the same within the caret's row. */
  lemma ErasesLine(t: Term, n: nat)
    requires Idle(t) && Fits([n])
    ensures var u := Run(t, Sequence([n], 'K' as int));
            && u == t.(lines := u.lines, cx := Column(t.cx)) && |u.lines| == |t.lines|
            && forall r, c :: 0 <= r < ROWS && 0 <= c < COLS ==>
                 Row(u, r)[c] ==
                 if r == t.cy && (n == 2 || (if n == 1 then c <= t.cx else c >= t.cx))
                 then Cell(32, 7, t.pen.bg) else Row(t, r)[c]
  {
    hide Run, Sequence, EraseLine;
    RunSequence(t, [n], 'K' as int);
    LineCells(t, n);
    var u := Run(t, Sequence([n], 'K' as int));
    forall r, c | 0 <= r < ROWS && 0 <= c < COLS
      ensures Row(u, r)[c] == Row(EraseLine(t, n), r)[c]
    {
      assert u.lines == EraseLine(t, n).lines;
    }
  }

  lemma LineCells(t: Term, n: nat)
    requires Idle(t)
    ensures var u := EraseLine(t, n);
            && u == t.(lines := u.lines)
            && forall r, c :: 0 <= r < ROWS && 0 <= c < COLS ==>
                 Row(u, r)[c] ==
                 if r == t.cy && (n == 2 || (if n == 1 then c <= t.cx else c >= t.cx))
                 then Cell(32, 7, t.pen.bg) else Row(t, r)[c]
  {
    hide Follows;
    var u, row := EraseLine(t, n), Row(t, t.cy);
    assert Blank(t.pen.bg) == Cell(32, 7, t.pen.bg);
    forall r | 0 <= r < ROWS
      ensures Row(u, r) ==
        if r != t.cy then Row(t, r)
        else if n == 1 then ClearSpan(row, 0, t.cx + 1, t.pen.bg)
        else ClearSpan(row, if n == 2 then 0 else t.cx, COLS, t.pen.bg)
    {
    }
  }

  // ---- the pen ----------------------------------------------------------

  /** What one colour number does to the pen. */
  lemma Colours(t: Term, n: nat)
    requires Idle(t) && Fits([n])
    ensures var u, pen := Run(t, Sequence([n], 'm' as int)), t.pen;
            && u == t.(pen := u.pen, cx := Column(t.cx))
            && (n == 0 ==> u.pen == Pen(7, 0, false, false))
            && (n == 1 || n == 22 ==> u.pen == pen.(bold := n == 1))
            && (n == 7 || n == 27 ==> u.pen == pen.(reverse := n == 7))
            && (30 <= n < 38 ==> u.pen == pen.(fg := n - 30)) && (40 <= n < 48 ==> u.pen == pen.(bg := n - 40))
            && (90 <= n < 98 ==> u.pen == pen.(fg := 8 + (n - 90)))
            && (100 <= n < 108 ==> u.pen == pen.(bg := 8 + (n - 100)))
            && (n == 39 ==> u.pen == pen.(fg := 7)) && (n == 49 ==> u.pen == pen.(bg := 0))
  {
    hide Run, Sequence;
    RunSequence(t, [n], 'm' as int);
    assert SgrAll(t.pen, [n]) == SgrOne(t.pen, n) by {
      assert [n][..0] == [];
      assert SgrAll(t.pen, []) == t.pen;
    }
  }

  /** A list of colour numbers is one after the other. */
  lemma ColourList(t: Term, a: seq<nat>, b: seq<nat>)
    requires Idle(t) && a != [] && b != [] && Fits(a) && Fits(b) && Fits(a + b)
    ensures Run(t, Sequence(a + b, 'm' as int)) == Run(t, Sequence(a, 'm' as int) + Sequence(b, 'm' as int))
  {
    hide Run, Sequence, SgrOne, Fits;
    RunSequence(t, a + b, 'm' as int);
    RunSequence(t, a, 'm' as int);
    var u := Run(t, Sequence(a, 'm' as int));
    RunSequence(u, b, 'm' as int);
    SgrOfConcat(t.pen, a, b);
    RunThen(t, Sequence(a, 'm' as int), u, Sequence(b, 'm' as int), Run(u, Sequence(b, 'm' as int)));
  }

  lemma {:induction false} SgrOfConcat(pen: Pen, a: seq<nat>, b: seq<nat>)
    ensures SgrAll(pen, a + b) == SgrAll(SgrAll(pen, a), b)
    decreases |b|
  {
    if b == [] {
      assert a + b == a;
    } else {
      assert (a + b)[..|a + b| - 1] == a + b[..|b| - 1];
      SgrOfConcat(pen, a, b[..|b| - 1]);
    }
  }

  /** ?25h shows the cursor and ?25l hides it. */
  lemma Visibility(t: Term, n: nat)
    requires Idle(t) && Fits([n])
    ensures Run(t, PrivateSequence([n], 'h' as int)) == t.(cursorOn := n == 25 || t.cursorOn, cx := Column(t.cx))
    ensures Run(t, PrivateSequence([n], 'l' as int)) == t.(cursorOn := n != 25 && t.cursorOn, cx := Column(t.cx))
    ensures Run(t, Sequence([n], 'h' as int)) == Run(t, Sequence([n], 'l' as int)) == t.(cx := Column(t.cx))
  {
    hide Run, Sequence, PrivateSequence, Act, Clamped;
    RunPrivate(t, [n], 'h' as int);
    RunPrivate(t, [n], 'l' as int);
    RunSequence(t, [n], 'h' as int);
    RunSequence(t, [n], 'l' as int);
    Shown(t, n);
    Hidden(t, n);
  }

  lemma Shown(t: Term, n: nat)
    requires Idle(t)
    ensures Clamped(Act(t, 'h' as int, true, [n])) == t.(cursorOn := n == 25 || t.cursorOn, cx := Column(t.cx))
    ensures Clamped(Act(t, 'h' as int, false, [n])) == t.(cx := Column(t.cx))
  {
    hide EraseScreen, EraseLine, SgrAll, Follows;
  }

  lemma Hidden(t: Term, n: nat)
    requires Idle(t)
    ensures Clamped(Act(t, 'l' as int, true, [n])) == t.(cursorOn := n != 25 && t.cursorOn, cx := Column(t.cx))
    ensures Clamped(Act(t, 'l' as int, false, [n])) == t.(cx := Column(t.cx))
  {
    hide EraseScreen, EraseLine, SgrAll, Follows;
  }

  // ---- plain bytes ------------------------------------------------------

  /** A character goes into the caret's cell: bright if bold, colours swapped if
      reversed. In the last column the caret waits behind it. */
  lemma Prints(t: Term, ch: Byte)
    requires Idle(t) && ch >= 32 && t.cx < COLS
    ensures var u := Run(t, [ch]);
            var ink := if t.pen.bold then 8 + t.pen.fg % 8 else t.pen.fg;
            && u == t.(lines := u.lines, cx := t.cx + 1) && |u.lines| == |t.lines|
            && forall r, c :: 0 <= r < ROWS && 0 <= c < COLS ==>
                 Row(u, r)[c] ==
                 if AtCaret(t, r, c) then Cell(ch, if t.pen.reverse then t.pen.bg else ink,
                                               if t.pen.reverse then ink else t.pen.bg)
                 else Row(t, r)[c]
  {
    hide Run, Glyph, Spaces, LineFeed;
    RunOne(t, ch);
    GlyphCells(t, ch);
    BrightBit(t.pen.fg);
  }

  lemma BrightBit(n: Nibble)
    ensures Bright(n) == 8 + n % 8
  {
  }

  lemma GlyphCells(t: Term, ch: Byte)
    requires Idle(t) && t.cx < COLS
    ensures var u := Glyph(t, ch);
            && u == t.(lines := u.lines, cx := t.cx + 1) && |u.lines| == |t.lines|
            && forall r, c :: 0 <= r < ROWS && 0 <= c < COLS ==>
                 Row(u, r)[c] == if AtCaret(t, r, c) then Inked(t.pen, ch) else Row(t, r)[c]
  {
    hide Follows, Inked;
  }

  /** Only then it goes to the next row, as a line feed would. */
  lemma Wraps(t: Term, ch: Byte)
    requires Idle(t) && ch >= 32 && t.cx == COLS
    ensures Run(t, [ch]) == Run(t, [10, ch])
  {
    hide Run;
    RunOne(t, ch);
    RunOne(t, 10);
    RunOne(PutByte(t, 10), ch);
    RunThen(t, [10], PutByte(t, 10), [ch], PutByte(PutByte(t, 10), ch));
    assert [10] + [ch] == [10, ch];
  }

  /** A line feed goes to the start of the next row; from the last one a blank line is
      added. */
  lemma LineFeeds(t: Term)
    requires Idle(t)
    ensures var u := Run(t, [10]);
            && u.cx == 0
            && if t.cy + 1 < ROWS then u == t.(cx := 0, cy := t.cy + 1)
               else
                 && u.cy == t.cy && |u.lines| == |t.lines| + 1 && u.lines[..|t.lines|] == t.lines
                 && forall c :: 0 <= c < COLS ==> u.lines[|t.lines|][c] == Cell(32, 7, t.pen.bg)
  {
    hide Run, Glyph, Spaces, Follows;
    RunOne(t, 10);
  }

  /** Carriage return and backspace move the caret alone; a tab prints spaces up to the
      next multiple of eight; other control bytes do nothing. */
  lemma Controls(t: Term, c: Byte)
    requires Idle(t)
    ensures Run(t, [13]) == t.(cx := 0)
    ensures Run(t, [8]) == t.(cx := if t.cx == 0 then 0 else t.cx - 1)
    ensures c < 32 && c !in {8, 9, 10, 13, 27} ==> Run(t, [c]) == t
  {
    RunOne(t, 13);
    RunOne(t, 8);
    RunOne(t, c);
  }

  lemma Tabs(t: Term, k: nat)
    requires Idle(t) && 8 * k <= t.cx < 8 * (k + 1)
    ensures Run(t, [9]) == Run(t, seq(8 * (k + 1) - t.cx, _ => 32))
  {
    hide Run, Spaces, Follows, Glyph, LineFeed;
    RunOne(t, 9);
    assert t.cx % 8 == t.cx - 8 * k;
    SpacesPrinted(t, 8 * (k + 1) - t.cx);
  }

  lemma {:induction false} SpacesPrinted(t: Term, n: nat)
    requires Idle(t)
    ensures Run(t, seq(n, _ => 32)) == Spaces(t, n) && Spaces(t, n).esc == Text
    decreases n
  {
    hide Glyph;
    if n > 0 {
      SpacesPrinted(t, n - 1);
      assert seq(n, _ => 32)[..n - 1] == seq(n - 1, _ => 32);
      GlyphIdle(Spaces(t, n - 1));
    }
  }

  lemma GlyphIdle(t: Term)
    requires Idle(t)
    ensures Glyph(t, 32).esc == Text
  {
  }

  /** Operating system commands are swallowed up to BEL, or to an escape and the byte
      after it. */
  lemma CommandsSwallowed(t: Term, text: seq<Byte>, c: Byte)
    requires Idle(t) && forall i :: 0 <= i < |text| ==> text[i] != 7 && text[i] != 27
    ensures Run(t, [27, 93] + text + [7]) == t && Run(t, [27, 93] + text + [27, c]) == t
  {
    hide Run, Plain, Act, Follows;
    var osc := [27, 93];
    CommandText(t, text);
    RunOne(t.(esc := Osc), 7);
    RunThen(t, osc + text, t.(esc := Osc), [7], t);
    RunOne(t.(esc := Osc), 27);
    RunOne(t.(esc := OscEsc), c);
    RunThen(t.(esc := Osc), [27], t.(esc := OscEsc), [c], t);
    assert [27] + [c] == [27, c];
    RunThen(t, osc + text, t.(esc := Osc), [27, c], t);
  }

  lemma {:induction false} CommandText(t: Term, text: seq<Byte>)
    requires Idle(t) && forall i :: 0 <= i < |text| ==> text[i] != 7 && text[i] != 27
    ensures Run(t, [27, 93] + text) == t.(esc := Osc)
    decreases |text|
  {
    hide Run, Plain, Act, Follows;
    var osc := [27, 93];
    if text == [] {
      EscapePlain(t);
      RunOne(t, 27);
      RunOne(t.(esc := GotEsc), 93);
      RunThen(t, [27], t.(esc := GotEsc), [93], t.(esc := Osc));
      assert [27] + [93] == osc + text;
    } else {
      var a, x := text[..|text| - 1], text[|text| - 1];
      CommandText(t, a);
      RunOne(t.(esc := Osc), x);
      RunThen(t, osc + a, t.(esc := Osc), [x], t.(esc := Osc));
      assert osc + a + [x] == osc + text;
    }
  }

  lemma EscapePlain(t: Term)
    requires Idle(t)
    ensures Plain(t, 27) == t.(esc := GotEsc)
  {
  }
}
