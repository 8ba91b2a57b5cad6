/** The shell's line editor (sh_readline of apps/sh.c) on the console of
    Screen.dfy. `Edits.Step` says what each key does to the line; the class
    edits a C buffer in place, prints escape sequences, and proves after every
    key that the buffer follows `Step` and that the screen shows prompt and
    buffer with the caret in place. */
module Edits {
  import opened Buffers
  import opened Bytes
  import opened Screen

  const KEY_EOF := -1
  const KEY_UP := 0x80
  const KEY_DOWN := 0x81
  const KEY_LEFT := 0x82
  const KEY_RIGHT := 0x83
  const KEY_HOME := 0x84
  const KEY_END := 0x85
  const KEY_DELETE := 0x88
  const MAX_LINE := 512

  /** The line being edited, the caret in it, and the history position. */
  datatype Edit = Edit(line: seq<Byte>, cur: nat, hpos: nat, saved: seq<Byte>)

  /** What tab completion found: the text to add, and in the ambiguous case the
      names to list. */
  datatype Completion = NoMatch | Unique(add: seq<Byte>) | Many(add: seq<Byte>, names: seq<Byte>)

  /** As much of `s` as fits, inserted at the caret. */
  function Insert(e: Edit, s: seq<Byte>, max: nat): Edit
    requires e.cur <= |e.line| < max
  {
    var t := Cut(s, max - |e.line|);
    e.(line := e.line[..e.cur] + t + e.line[e.cur..], cur := e.cur + |t|)
  }

  function DeleteAt(e: Edit, i: nat): Edit
    requires i < |e.line|
  {
    e.(line := e.line[..i] + e.line[i + 1..], cur := i)
  }

  function Recall(e: Edit, hpos: nat, saved: seq<Byte>, hist: seq<seq<Byte>>, max: nat): Edit
    requires 0 < max && hpos <= |hist|
  {
    var line := Cut(if hpos == 0 then saved else hist[hpos - 1], max);
    Edit(line, |line|, hpos, saved)
  }

  /** What a key does to the line. `hist` is newest first. */
  function Step(e: Edit, c: int, comp: Completion, hist: seq<seq<Byte>>, max: nat): (f: Edit)
    requires e.cur <= |e.line| < max && e.hpos <= |hist|
    ensures f.cur <= |f.line| < max && f.hpos <= |hist|
  {
    if c == 4 || c == KEY_DELETE then
      if e.cur < |e.line| then DeleteAt(e, e.cur) else e
    else if c == 9 then
      if comp.NoMatch? then e else Insert(e, comp.add, max)
    else if c == 8 || c == 127 then
      if e.cur > 0 then DeleteAt(e, e.cur - 1) else e
    else if c == 21 then e.(line := [], cur := 0)
    else if c == 11 then e.(line := e.line[..e.cur])
    else if c == 1 || c == KEY_HOME then e.(cur := 0)
    else if c == 5 || c == KEY_END then e.(cur := |e.line|)
    else if c == KEY_LEFT then if e.cur > 0 then e.(cur := e.cur - 1) else e
    else if c == KEY_RIGHT then if e.cur < |e.line| then e.(cur := e.cur + 1) else e
    else if c == KEY_UP then
      if e.hpos >= |hist| then e
      else Recall(e, e.hpos + 1, if e.hpos == 0 then Cut(e.line, MAX_LINE) else e.saved, hist, max)
    else if c == KEY_DOWN then
      if e.hpos == 0 then e else Recall(e, e.hpos - 1, e.saved, hist, max)
    else if c >= 0x80 || c < 32 then e
    else Insert(e, [c], max)
  }

  lemma StepRecall(e: Edit, up: bool, hist: seq<seq<Byte>>, max: nat)
    requires e.cur <= |e.line| < max && e.hpos <= |hist|
    ensures Step(e, if up then KEY_UP else KEY_DOWN, NoMatch, hist, max) ==
      if up && e.hpos < |hist| then
        Recall(e, e.hpos + 1, if e.hpos == 0 then Cut(e.line, MAX_LINE) else e.saved, hist, max)
      else if !up && e.hpos > 0 then Recall(e, e.hpos - 1, e.saved, hist, max)
      else e
  {
  }

  /** What the first `n` keys do. */
  function After(e: Edit, keys: seq<(int, Completion)>, n: nat, hist: seq<seq<Byte>>, max: nat): (f: Edit)
    requires n <= |keys| && e.cur <= |e.line| < max && e.hpos <= |hist|
    ensures f.cur <= |f.line| < max && f.hpos <= |hist|
  {
    if n == 0 then e
    else Step(After(e, keys, n - 1, hist, max), keys[n - 1].0, keys[n - 1].1, hist, max)
  }

  lemma NoKeys(e: Edit, keys: seq<(int, Completion)>, hist: seq<seq<Byte>>, max: nat)
    requires e.cur <= |e.line| < max && e.hpos <= |hist|
    ensures After(e, keys, 0, hist, max) == e
  {
  }

  lemma AfterStep(e: Edit, keys: seq<(int, Completion)>, n: nat, hist: seq<seq<Byte>>, max: nat)
    requires n < |keys| && e.cur <= |e.line| < max && e.hpos <= |hist|
    ensures After(e, keys, n + 1, hist, max) == Step(After(e, keys, n, hist, max), keys[n].0, keys[n].1, hist, max)
  {
  }

  /** A byte or end of input, with a printable search result for tab. */
  predicate Sensible(k: (int, Completion)) {
    && -1 <= k.0 < 256
    && (k.1.Unique? || k.1.Many? ==> forall i :: 0 <= i < |k.1.add| ==> k.1.add[i] >= SPACE)
    && (k.1.Many? ==> forall i :: 0 <= i < |k.1.names| ==> k.1.names[i] >= SPACE)
  }

  /** The keys that end the line: enter, ctrl-C, and end of input. */
  predicate Ends(c: int, e: Edit) {
    c == KEY_EOF || c == 10 || c == 13 || c == 3 || (c == 4 && e.line == [])
  }
}

module LineEditor {
  import opened Buffers
  import opened Bytes
  import opened Screen
  import opened Sequences
  import opened LineOutput
  import opened Edits

  datatype Outcome = More | Line(text: seq<Byte>) | EndOfInput

  /** Every cell above row `top` of `t` is the cell of `s` above row `sTop`,
      moved up by the rows scrolled in between. */
  predicate AboveKept(s: Screen, sTop: int, t: Screen, top: int)
    requires Ready(s) && Ready(t)
  {
    && s.h == t.h && 0 <= top <= sTop < s.h
    && forall i :: 0 <= i < top * TERM_COLS ==>
         At(t, i) == At(s, i + (sTop - top) * TERM_COLS)
  }

  /** Every cell of `t` from number `from` on is blank, or the cell of `s` that many
      rows further down, numbered `lo` or more. */
  predicate BelowKept(s: Screen, sTop: int, lo: int, t: Screen, top: int, from: int)
    requires Ready(s) && Ready(t)
  {
    && s.h == t.h && 0 <= top <= sTop < s.h && 0 <= from
    && forall i :: from <= i < t.h * TERM_COLS ==>
         var j := i + (sTop - top) * TERM_COLS;
         At(t, i).ch == SPACE || (lo <= j < s.h * TERM_COLS && At(t, i) == At(s, j))
  }

  // ---- the three ways the editor updates the screen ---------------------

  /** Moving the caret within the line. */
  lemma SeekShown(s: Screen, top: int, text: seq<Byte>, off: nat, off': nat, t: Screen)
    requires Shows(s, top, text, off) && off <= |text| && off' <= |text|
    requires t == Run(s, SeekBytes(off', off / TERM_COLS))
    ensures Shows(t, top, text, off') && AboveKept(s, top, t, top) && BelowKept(s, top, 0, t, top, 0)
  {
    RunSeek(s, top, off', off / TERM_COLS);
    assert forall i :: 0 <= i < s.h * TERM_COLS ==> At(t, i) == At(s, i);
  }

  /** Printing more text at the end of the line: the prompt, or an echo. */
  lemma EchoShown(s: Screen, top: int, text: seq<Byte>, more: seq<Byte>, t: Screen) returns (top': int)
    requires Shows(s, top, text, |text|) && Printable(more) && (|text| + |more|) / TERM_COLS < s.h
    requires t == Run(s, more)
    ensures Shows(t, top', text + more, |text| + |more|) && AboveKept(s, top, t, top')
    ensures BelowKept(s, top, top * TERM_COLS + |text|, t, top', top' * TERM_COLS + |text| + |more|)
  {
    hide Run, BelowKept;
    RunText(s, more);
    var k := Scrolls(Pos(s), |more|, s.h);
    top' := top - k;
    assert Pos(s) == top * TERM_COLS + |text|;
    assert Pos(t) == top' * TERM_COLS + |text| + |more|;
    assert 0 <= top';
    forall j | 0 <= j < |text| + |more|
      ensures At(t, top' * TERM_COLS + j).ch == (text + more)[j]
    {
      assert At(t, top' * TERM_COLS + j) == Printed(s, more, top' * TERM_COLS + j);
    }
    forall i | 0 <= i < top' * TERM_COLS
      ensures At(t, i) == At(s, i + (top - top') * TERM_COLS)
    {
      assert At(t, i) == Printed(s, more, i);
    }
    EchoBelow(s, top, |text|, more, t);
  }

  lemma EchoBelow(s: Screen, top: int, n: nat, more: seq<Byte>, t: Screen)
    requires Ready(s) && 0 <= top < s.h && Pos(s) == top * TERM_COLS + n && AfterText(s, more, t)
    requires Scrolls(Pos(s), |more|, s.h) <= top
    ensures var top' := top - Scrolls(Pos(s), |more|, s.h);
            BelowKept(s, top, top * TERM_COLS + n, t, top', top' * TERM_COLS + n + |more|)
  {
    hide At, Scrolls;
    var k := Scrolls(Pos(s), |more|, s.h);
    forall i | (top - k) * TERM_COLS + n + |more| <= i < t.h * TERM_COLS
      ensures At(t, i).ch == SPACE || (i + k * TERM_COLS < s.h * TERM_COLS && At(t, i) == At(s, i + k * TERM_COLS))
    {
      assert At(t, i) == Printed(s, more, i);
    }
  }

  lemma NothingSent(s: Screen)
    requires s.Valid()
    ensures Run(s, []) == s && Printable([])
  {
  }

  /** Printing the prompt. */
  lemma PromptShown(s: Screen, prompt: seq<Byte>, t: Screen) returns (top: int)
    requires Ready(s) && s.col == 0 && Printable(prompt) && |prompt| / TERM_COLS < s.h && t == Run(s, prompt)
    ensures Shows(t, top, prompt, |prompt|) && AboveKept(s, s.row, t, top)
    ensures BelowKept(s, s.row, 0, t, top, top * TERM_COLS + |prompt|)
  {
    hide Run, AboveKept, BelowKept;
    top := EchoShown(s, s.row, [], prompt, t);
    assert [] + prompt == prompt;
    BelowKeptLess(s, s.row, s.row * TERM_COLS, t, top, top * TERM_COLS + |prompt|, 0, top * TERM_COLS + |prompt|);
  }

  /** Repainting the line. */
  lemma RedrawShown(s: Screen, top: nat, text: seq<Byte>, off: nat, lineRow: nat, lineRows: nat, t: Screen)
    returns (top': int)
    requires Ready(s) && Printable(text) && off <= |text| && s.row == top + lineRow
    requires top + lineRows < s.h && |text| / TERM_COLS < s.h
    requires t == Run(s, RedrawBytes(text, off, lineRow, lineRows))
    ensures Shows(t, top', text, off) && AboveKept(s, top, t, top')
    ensures BelowKept(s, top, (top + lineRows + 1) * TERM_COLS, t, top', top' * TERM_COLS + |text|)
  {
    hide Run, RedrawBytes, Repaint, AboveKept, BelowKept, At;
    RunRedraw(s, top, text, off, lineRow, lineRows);
    RepaintKeepsAbove(s, top, text, lineRows, t);
    RepaintKeepsBelow(s, top, text, lineRows, t);
    top' := top - Scrolls(top * TERM_COLS, |text|, s.h);
  }

  lemma RepaintKeepsAbove(s: Screen, top: nat, text: seq<Byte>, lineRows: nat, t: Screen)
    requires Ready(s) && top < s.h && Repaint(s, top, text, lineRows, t)
    requires Scrolls(top * TERM_COLS, |text|, s.h) <= top
    ensures AboveKept(s, top, t, top - Scrolls(top * TERM_COLS, |text|, s.h))
  {
    var k := Scrolls(top * TERM_COLS, |text|, s.h);
    forall i | 0 <= i < (top - k) * TERM_COLS
      ensures At(t, i) == At(s, i + k * TERM_COLS)
    {
      assert At(t, i) == Redrawn(s, top, text, lineRows, i);
    }
  }

  lemma RepaintKeepsBelow(s: Screen, top: nat, text: seq<Byte>, lineRows: nat, t: Screen)
    requires Ready(s) && top < s.h && Repaint(s, top, text, lineRows, t)
    requires Scrolls(top * TERM_COLS, |text|, s.h) <= top
    ensures var top' := top - Scrolls(top * TERM_COLS, |text|, s.h);
            BelowKept(s, top, (top + lineRows + 1) * TERM_COLS, t, top', top' * TERM_COLS + |text|)
  {
    var k := Scrolls(top * TERM_COLS, |text|, s.h);
    forall i | (top - k) * TERM_COLS + |text| <= i < t.h * TERM_COLS
      ensures var j := i + k * TERM_COLS;
              At(t, i).ch == SPACE || ((top + lineRows + 1) * TERM_COLS <= j < s.h * TERM_COLS && At(t, i) == At(s, j))
    {
      assert At(t, i) == Redrawn(s, top, text, lineRows, i);
    }
  }

  lemma BelowKeptTrans(r: Screen, rTop: int, s: Screen, sTop: int, lo: int, t: Screen, top: int, from: int)
    requires Ready(r) && Ready(s) && Ready(t)
    requires BelowKept(r, rTop, 0, s, sTop, lo) && BelowKept(s, sTop, lo, t, top, from)
    ensures BelowKept(r, rTop, 0, t, top, from)
  {
    hide At;
    forall i | from <= i < t.h * TERM_COLS
      ensures var j := i + (rTop - top) * TERM_COLS;
              At(t, i).ch == SPACE || (0 <= j < r.h * TERM_COLS && At(t, i) == At(r, j))
    {
      var j := i + (sTop - top) * TERM_COLS;
      if At(t, i).ch != SPACE {
        assert At(t, i) == At(s, j);
        assert j + (rTop - sTop) * TERM_COLS == i + (rTop - top) * TERM_COLS;
      }
    }
  }

  /** Fewer cells are asked for. */
  lemma BelowKeptLess(s: Screen, sTop: int, lo: int, t: Screen, top: int, from: int, lo': int, from': int)
    requires Ready(s) && Ready(t) && BelowKept(s, sTop, lo, t, top, from) && from <= from'
    requires lo' <= lo || (top == sTop && lo' <= from')
    ensures BelowKept(s, sTop, lo', t, top, from')
  {
  }

  lemma BelowKeptSelf(s: Screen, top: int, from: int)
    requires Ready(s) && 0 <= top < s.h && 0 <= from
    ensures BelowKept(s, top, 0, s, top, from)
  {
  }

  lemma AboveKeptTrans(r: Screen, rTop: int, s: Screen, sTop: int, t: Screen, top: int)
    requires Ready(r) && Ready(s) && Ready(t) && AboveKept(r, rTop, s, sTop) && AboveKept(s, sTop, t, top)
    ensures AboveKept(r, rTop, t, top)
  {
    forall i | 0 <= i < top * TERM_COLS
      ensures At(t, i) == At(r, i + (rTop - top) * TERM_COLS)
    {
      assert At(s, i + (sTop - top) * TERM_COLS) == At(r, i + (rTop - top) * TERM_COLS);
    }
  }

  lemma LineFeedReady(s: Screen)
    requires Ready(s)
    ensures Ready(Run(s, [LF])) && Run(s, [LF]).h == s.h && Run(s, [LF]).col == 0
  {
    RunOne(s, LF);
  }

  lemma TextReady(s: Screen, text: seq<Byte>)
    requires Ready(s) && Printable(text)
    ensures Ready(Run(s, text)) && Run(s, text).h == s.h
  {
    RunText(s, text);
  }

  /** An echo, seen from an earlier screen. */
  lemma EchoKept(r: Screen, rTop: int, s: Screen, top: int, text: seq<Byte>, more: seq<Byte>, t: Screen)
    returns (top': int)
    requires Ready(r) && Shows(s, top, text, |text|) && Printable(more) && (|text| + |more|) / TERM_COLS < s.h
    requires AboveKept(r, rTop, s, top) && BelowKept(r, rTop, 0, s, top, top * TERM_COLS + |text|)
    requires t == Run(s, more)
    ensures Shows(t, top', text + more, |text| + |more|)
    ensures AboveKept(r, rTop, t, top') && BelowKept(r, rTop, 0, t, top', top' * TERM_COLS + |text + more|)
  {
    hide Run, AboveKept, BelowKept, Printable;
    top' := EchoShown(s, top, text, more, t);
    AboveKeptTrans(r, rTop, s, top, t, top');
    BelowKeptTrans(r, rTop, s, top, top * TERM_COLS + |text|, t, top', top' * TERM_COLS + |text + more|);
  }

  /** So a repaint. */
  lemma RedrawKept(r: Screen, rTop: int, s: Screen, top: nat, text: seq<Byte>, off: nat, lineRow: nat, lineRows: nat,
                   t: Screen) returns (top': int)
    requires Ready(r) && Ready(s) && Printable(text) && off <= |text| && s.row == top + lineRow
    requires top + lineRows < s.h && |text| / TERM_COLS < s.h
    requires AboveKept(r, rTop, s, top) && BelowKept(r, rTop, 0, s, top, (top + lineRows + 1) * TERM_COLS)
    requires t == Run(s, RedrawBytes(text, off, lineRow, lineRows))
    ensures Shows(t, top', text, off)
    ensures AboveKept(r, rTop, t, top') && BelowKept(r, rTop, 0, t, top', top' * TERM_COLS + |text|)
  {
    hide Run, AboveKept, BelowKept, Printable, RedrawBytes;
    top' := RedrawShown(s, top, text, off, lineRow, lineRows, t);
    AboveKeptTrans(r, rTop, s, top, t, top');
    BelowKeptTrans(r, rTop, s, top, (top + lineRows + 1) * TERM_COLS, t, top', top' * TERM_COLS + |text|);
  }

  // ---- the editor -------------------------------------------------------

  /** `t` is a screen with the text on it and the caret behind it, and then `tail`. */
  ghost predicate LeftWith(text: seq<Byte>, top: int, tail: seq<Byte>, t: Screen) {
    exists s: Screen :: Shows(s, top, text, |text|) && t == Run(s, tail)
  }

  /** `base` is the screen `s` after a line feed from row `last`, the names, and another
      line feed, which leads to row `row`. */
  ghost predicate Listed(s: Screen, last: int, names: seq<Byte>, base: Screen, row: int) {
    s.(row := last).Valid() && base == Run(s.(row := last), [LF] + names + [LF]) && row == base.row
  }

  lemma IsListed(s: Screen, last: int, names: seq<Byte>, base: Screen)
    requires s.(row := last).Valid() && base == Run(Run(Run(s.(row := last), [LF]), names), [LF])
    ensures Listed(s, last, names, base, base.row)
  {
    hide Run;
    var t := s.(row := last);
    RunConcat(t, [LF], names);
    RunConcat(t, [LF] + names, [LF]);
  }

  class Editor {
    const prompt: seq<Byte>
    const hist: seq<seq<Byte>>      // newest first
    const buf: array<Byte>          // a C string of at most buf.Length - 1 bytes
    ghost const start: Screen       // the screen when the prompt was printed

    var len: nat
    var cur: nat
    var hpos: nat
    var saved: seq<Byte>
    var lineRow: nat
    var lineRows: nat
    var out: seq<Byte>              // everything written to the console

    ghost var screen: Screen        // what the console shows now
    ghost var top: int              // the row the prompt starts on
    ghost var base: Screen          // the screen before the line was last moved
    ghost var baseTop: int

    ghost function State(): Edit
      requires len <= buf.Length
      reads this, buf
    {
      Edit(buf[..len], cur, hpos, saved)
    }

    ghost function Text(): seq<Byte>
      requires len <= buf.Length
      reads this, buf
    {
      prompt + buf[..len]
    }

    ghost predicate Buffer()
      reads this`len, this`cur, buf
    {
      && cur <= len < buf.Length && buf[len] == 0
      && Printable(buf[..len])
    }

    ghost predicate Config()
      reads this`out, this`screen, this`saved, this`hpos
    {
      && Ready(start) && start.col == 0 && screen == Run(start, out)
      && Printable(prompt) && Printable(saved)
      && (forall i :: 0 <= i < |hist| ==> Printable(hist[i]))
      && hpos <= |hist|
      && 0 < buf.Length && (|prompt| + buf.Length - 1) / TERM_COLS < start.h
    }

    /** Prompt and buffer are on screen, the caret is on its character, nothing
        above the prompt has been touched, and behind the line there is nothing but
        blanks and what was there before. */
    ghost predicate Valid()
      reads this, buf
    {
      && Config() && Buffer()
      && lineRow == (|prompt| + cur) / TERM_COLS
      && lineRows == (|prompt| + len) / TERM_COLS
      && Shows(screen, top, Text(), |prompt| + cur)
      && Ready(base) && AboveKept(base, baseTop, screen, top)
      && BelowKept(base, baseTop, 0, screen, top, top * TERM_COLS + |Text()|)
    }

    /** Where the painted line is, whatever the buffer holds by now. */
    ghost predicate Painted()
      reads this`screen, this`top, this`lineRow, this`lineRows, this`base, this`baseTop
    {
      && Ready(screen) && screen.h == start.h
      && 0 <= top && screen.row == top + lineRow && top + lineRows < screen.h
      && Ready(base) && AboveKept(base, baseTop, screen, top)
      && BelowKept(base, baseTop, 0, screen, top, (top + lineRows + 1) * TERM_COLS)
    }

    lemma ValidIsPainted()
      requires Valid()
      ensures Painted() && lineRow <= lineRows
    {
      hide Run, BelowKept, AboveKept, Printable;
      BelowKeptLess(base, baseTop, 0, screen, top, top * TERM_COLS + |Text()|, 0, (top + lineRows + 1) * TERM_COLS);
    }

    method Emit(bytes: seq<Byte>)
      requires start.Valid() && screen == Run(start, out)
      modifies this`out, this`screen
      ensures old(Config()) ==> Config()
      ensures out == old(out) + bytes
      ensures screen == Run(start, out) && screen == Run(old(screen), bytes)
    {
      RunConcat(start, out, bytes);
      out := out + bytes;
      screen := Run(screen, bytes);
    }

    // ---- the buffer -----------------------------------------------------

    /** The buffer as %s prints it: up to the first NUL. */
    method Str() returns (s: seq<Byte>)
      requires Buffer()
      ensures s == buf[..len]
    {
      var i := 0;
      assert forall j :: 0 <= j < len ==> buf[j] == buf[..len][j];
      while buf[i] != 0
        invariant 0 <= i <= len
        decreases len - i
      {
        i := i + 1;
      }
      s := buf[..i];
    }

    method LineInsert(s: seq<Byte>) returns (n: nat)
      requires Buffer() && Printable(s) && hpos <= |hist|
      modifies this`len, this`cur, buf
      ensures Buffer() && State() == Insert(old(State()), s, buf.Length)
      ensures n == |Cut(s, buf.Length - old(len))|
    {
      n := if |s| <= buf.Length - 1 - len then |s| else buf.Length - 1 - len;
      if n == 0 {
        assert buf[..len] == buf[..len][..cur] + [] + buf[..len][cur..];
        return;
      }
      Splice(s[..n]);
      len := len + n;
      cur := cur + n;
    }

    method Splice(t: seq<Byte>)
      requires Buffer() && Printable(t) && len + |t| < buf.Length
      modifies buf
      ensures buf[..len + |t|] == old(buf[..len][..cur]) + t + old(buf[..len][cur..])
      ensures Printable(buf[..len + |t|]) && buf[len + |t|] == 0
    {
      ghost var line := buf[..len];
      MakeRoom(|t|);
      Place(t);
      buf[len + |t|] := 0;
      Spliced(buf[..len + |t|], line, cur, t);
    }

    lemma Spliced(all: seq<Byte>, line: seq<Byte>, at: nat, t: seq<Byte>)
      requires at <= |line| && |all| == |line| + |t| && Printable(line) && Printable(t)
      requires forall j :: 0 <= j < at ==> all[j] == line[j]
      requires forall j :: at <= j < at + |t| ==> all[j] == t[j - at]
      requires forall j :: at + |t| <= j < |all| ==> all[j] == line[j - |t|]
      ensures all == line[..at] + t + line[at..] && Printable(all)
    {
      assert all[..at] == line[..at];
      assert all[at..at + |t|] == t;
      assert all[at + |t|..] == line[at..];
      assert all == all[..at] + all[at..at + |t|] + all[at + |t|..];
    }

    /** memcpy of `s` to the caret. */
    method Place(s: seq<Byte>)
      requires cur + |s| <= buf.Length
      modifies buf
      ensures forall j :: 0 <= j < buf.Length ==>
        buf[j] == if cur <= j < cur + |s| then s[j - cur] else old(buf[j])
    {
      forall j | cur <= j < cur + |s| {
        buf[j] := s[j - cur];
      }
    }

    /** Shift the text at and after the caret, NUL included, `n` bytes up. */
    method MakeRoom(n: nat)
      requires Buffer() && len + n < buf.Length
      modifies buf
      ensures forall j :: 0 <= j < cur ==> buf[j] == old(buf[j])
      ensures forall j :: cur + n <= j <= len + n ==> buf[j] == old(buf[j - n])
    {
      var i := len;
      while i >= cur
        invariant cur - 1 <= i <= len
        invariant forall j :: 0 <= j <= i ==> buf[j] == old(buf[j])
        invariant forall j :: i + n < j <= len + n ==> buf[j] == old(buf[j - n])
      {
        buf[i + n] := buf[i];
        i := i - 1;
      }
    }

    /** Remove the character at `at`, closing the gap. */
    method LineDeleteAt(at: nat)
      requires Buffer() && at < len
      modifies this`len, this`cur, buf
      ensures Buffer() && State() == DeleteAt(old(State()), at)
    {
      hide Printable;
      ghost var was := buf[..];
      assert buf[..len] == was[..len];
      ShiftDown(at);
      Deleted(was, len, at);
      assert buf[..][..len - 1] == buf[..len - 1] && buf[..][len - 1] == buf[len - 1];
      len := len - 1;
      cur := at;
    }

    /** The bytes after `at` moved down by one, as far as `n`. */
    static function Shifted(s: seq<Byte>, at: nat, n: nat): (t: seq<Byte>)
      requires at < n < |s|
      ensures |t| == |s| && forall j :: 0 <= j < |s| ==> t[j] == s[if at <= j < n then j + 1 else j]
    {
      s[..at] + s[at + 1..n + 1] + s[n..]
    }

    static lemma Deleted(was: seq<Byte>, n: nat, at: nat)
      requires at < n < |was| && Printable(was[..n])
      ensures var after := Shifted(was, at, n);
              && after[..n - 1] == was[..n][..at] + was[..n][at + 1..]
              && Printable(after[..n - 1]) && after[n - 1] == was[n]
    {
      var after, line := Shifted(was, at, n), was[..n];
      assert forall j :: 0 <= j < n - 1 ==> after[..n - 1][j] == if j < at then line[j] else line[j + 1];
    }

    /** memmove of the bytes after `at`, the NUL included. */
    method ShiftDown(at: nat)
      requires at < len < buf.Length
      modifies buf
      ensures buf[..] == Shifted(old(buf[..]), at, len)
    {
      ghost var was := buf[..];
      var i := at;
      while i < len
        invariant at <= i <= len
        invariant forall j :: 0 <= j < buf.Length ==> buf[j] == was[if at <= j < i then j + 1 else j]
      {
        buf[i] := buf[i + 1];
        i := i + 1;
      }
    }

    /** snprintf of `s` into the buffer. */
    method SetLine(s: seq<Byte>)
      requires 0 < buf.Length && Printable(s)
      modifies this`len, this`cur, buf
      ensures Buffer() && buf[..len] == Cut(s, buf.Length) && cur == len
    {
      var t := Cut(s, buf.Length);
      forall i | 0 <= i < |t| {
        buf[i] := t[i];
      }
      buf[|t|] := 0;
      len := |t|;
      cur := len;
      assert buf[..len] == t;
    }

    // ---- the screen -----------------------------------------------------

    /** line_seek to the caret's own offset. */
    method SeekCaret(ghost was: nat)
      requires Config() && Buffer() && was <= len
      requires lineRow == (|prompt| + was) / TERM_COLS && lineRows == (|prompt| + len) / TERM_COLS
      requires Shows(screen, top, Text(), |prompt| + was)
      requires Ready(base) && AboveKept(base, baseTop, screen, top)
      requires BelowKept(base, baseTop, 0, screen, top, top * TERM_COLS + |Text()|)
      modifies this`out, this`screen, this`lineRow
      ensures Valid()
    {
      hide Run, SeekBytes, AboveKept, BelowKept, At, Printable;
      ghost var before := screen;
      Emit(SeekBytes(|prompt| + cur, lineRow));
      SeekShown(before, top, Text(), |prompt| + was, |prompt| + cur, screen);
      lineRow := (|prompt| + cur) / TERM_COLS;
      AboveKeptTrans(base, baseTop, before, top, screen, top);
      ghost var end := top * TERM_COLS + |Text()|;
      BelowKeptLess(before, top, 0, screen, top, 0, end, end);
      BelowKeptTrans(base, baseTop, before, top, end, screen, top, end);
    }

    /** line_redraw, whatever the buffer was when the line was last painted. */
    method Redraw()
      requires Config() && Buffer() && Painted()
      modifies this`out, this`screen, this`lineRow, this`lineRows, this`top
      ensures Valid()
    {
      hide Run, RedrawBytes, AboveKept, BelowKept, At, Shows;
      ghost var before := screen;
      var s := Str();
      var text := prompt + s;
      Emit(RedrawBytes(text, |prompt| + cur, lineRow, lineRows));
      top := RedrawKept(base, baseTop, before, top, text, |prompt| + cur, lineRow, lineRows, screen);
      lineRows := |text| / TERM_COLS;
      lineRow := (|prompt| + cur) / TERM_COLS;
    }

    /** One more character at the end of the buffer. */
    method PutLast(c: Byte)
      requires Buffer() && c >= SPACE && cur == len && len + 1 < buf.Length
      modifies this`len, this`cur, buf
      ensures Buffer() && buf[..len] == old(buf[..len]) + [c] && cur == len == old(len) + 1
      ensures State() == Insert(old(State()), [c], buf.Length)
    {
      buf[len] := c;
      len := len + 1;
      buf[len] := 0;
      cur := len;
      assert buf[..len] == old(buf[..len]) + [c];
    }

    /** Appending: echo the one character, no repaint. */
    method Append(c: Byte)
      requires Valid() && c >= SPACE && cur == len && len + 1 < buf.Length
      modifies this`len, this`cur, this`out, this`screen, this`lineRow, this`lineRows, this`top, buf
      ensures Valid() && State() == Insert(old(State()), [c], buf.Length)
    {
      hide Run, AboveKept, BelowKept, At, Shows;
      ghost var before, text := screen, Text();
      PutLast(c);
      assert Text() == text + [c];
      Emit([c]);
      top := EchoKept(base, baseTop, before, top, text, [c], screen);
      lineRow := (|prompt| + cur) / TERM_COLS;
      lineRows := lineRow;
    }

    /** Tab completion with the given search result. */
    method Complete(comp: Completion)
      requires Valid()
      requires !comp.NoMatch? ==> Printable(comp.add)
      requires comp.Many? ==> Printable(comp.names)
      modifies this, buf
      ensures Valid() && State() == Step(old(State()), 9, comp, hist, buf.Length)
      ensures !comp.Many? ==> base == old(base) && baseTop == old(baseTop)
      ensures comp.Many? ==> Listed(old(screen), old(top) + old(lineRows), comp.names, base, baseTop)
    {
      hide Run, Shows, AboveKept, BelowKept, Listed;
      ValidIsPainted();
      match comp {
        case NoMatch =>
        case Unique(add) =>
          var _ := LineInsert(add);
          Redraw();
        case Many(add, names) =>
          var _ := LineInsert(add);
          ListNames(names);
          Redraw();
      }
    }

    /** Below the painted line: a line feed from its last row. */
    method LeaveLine()
      requires Config() && Painted() && lineRow <= lineRows
      modifies this`out, this`screen
      ensures Config() && Ready(screen) && screen.h == old(screen).h && screen.col == 0
      ensures screen == Run(old(screen).(row := top + lineRows), [LF])
    {
      hide Run, Putc, DownBytes, At, Printable;
      if lineRows > lineRow {
        RunDown(screen, lineRows - lineRow);
        Emit(DownBytes(lineRows - lineRow));
      }
      LineFeedReady(screen);
      Emit([LF]);
    }

    /** Print the candidates below the painted line and start a new one. */
    method ListNames(names: seq<Byte>)
      requires Config() && Painted() && lineRow <= lineRows && Printable(names)
      modifies this`out, this`screen, this`lineRow, this`lineRows, this`top, this`base, this`baseTop
      ensures Config() && Painted()
      ensures Listed(old(screen), old(top) + old(lineRows), names, base, baseTop)
    {
      hide Run, Putc, At, Printable, Listed;
      ghost var s := screen.(row := top + lineRows);
      LeaveLine();
      TextReady(screen, names);
      Emit(names);
      LineFeedReady(screen);
      Emit([LF]);
      IsListed(old(screen), top + lineRows, names, screen);
      lineRow, lineRows := 0, 0;
      top := screen.row;
      base, baseTop := screen, top;
      BelowKeptSelf(screen, top, (top + 1) * TERM_COLS);
    }

    /** Leave the line: caret past its end, then `tail`. */
    method Finish(tail: seq<Byte>)
      requires Valid()
      modifies this`out, this`screen, this`lineRow, this`cur
      ensures len == old(len) && buf[..] == old(buf[..])
      ensures LeftWith(Text(), top, tail, screen)
    {
      hide Run, AboveKept, BelowKept, Printable, Shows;
      ghost var was := cur;
      cur := len;
      SeekCaret(was);
      ghost var s := screen;
      Emit(tail);
      assert Shows(s, top, Text(), |Text()|);
    }

    /** UP and DOWN. */
    method History(up: bool)
      requires Valid()
      modifies this, buf
      ensures Valid() && State() == Step(old(State()), if up then KEY_UP else KEY_DOWN, NoMatch, hist, buf.Length)
      ensures base == old(base) && baseTop == old(baseTop)
    {
      hide Run, Shows, AboveKept, BelowKept, Painted, Printable, Step, Cut;
      ValidIsPainted();
      StepRecall(State(), up, hist, buf.Length);
      var moved := StepHistory(up);
      if moved {
        var s := if hpos == 0 then saved else hist[hpos - 1];
        SetLine(s);
        Redraw();
      }
    }

    /** One place back or forth; the line is put aside when leaving it. */
    method StepHistory(up: bool) returns (moved: bool)
      requires Valid()
      modifies this`hpos, this`saved
      ensures Config() && moved == if up then old(hpos) < |hist| else old(hpos) > 0
      ensures hpos == if moved then (if up then old(hpos) + 1 else old(hpos) - 1) else old(hpos)
      ensures saved == if moved && up && old(hpos) == 0 then Cut(buf[..len], MAX_LINE) else old(saved)
      ensures hpos <= |hist| && Printable(if hpos == 0 then saved else hist[hpos - 1])
    {
      hide Run, Shows, AboveKept, BelowKept;
      moved := if up then hpos < |hist| else hpos > 0;
      if moved && up && hpos == 0 {
        var s := Str();
        saved := Cut(s, MAX_LINE);
      }
      if moved {
        hpos := if up then hpos + 1 else hpos - 1;
      }
    }

    /** One key: the buffer follows Step and the screen follows the buffer. */
    method Key(c: int, comp: Completion) returns (o: Outcome)
      requires Valid() && c < 256
      requires !comp.NoMatch? ==> Printable(comp.add)
      requires comp.Many? ==> Printable(comp.names)
      modifies this, buf
      ensures o.More? <==> !Ends(c, old(State()))
      ensures o.More? ==> Valid() && State() == Step(old(State()), c, comp, hist, buf.Length)
      // what was sent to the terminal shows the new line and cursor there, has kept
      // everything above the prompt, and behind the line leaves only blanks and what
      // was there before
      ensures o.More? ==> Shows(Run(start, out), top, prompt + State().line, |prompt| + State().cur)
      ensures o.More? ==> AboveKept(base, baseTop, Run(start, out), top)
      ensures o.More? ==>
        BelowKept(base, baseTop, 0, Run(start, out), top, top * TERM_COLS + |prompt + State().line|)
      // enter takes the line and ctrl-C drops it
      ensures c == 10 || c == 13 ==> o == Line(old(State()).line)
      ensures c == 3 ==> o == Line([])
      ensures c !in {KEY_EOF, 3, 4, 10, 13} ==> o.More?
      ensures o.Line? ==> o.text == if c == 3 then [] else old(State()).line
      ensures o.EndOfInput? <==> (c == KEY_EOF || c == 4) && old(State()).line == []
      ensures !(c == 9 && comp.Many?) && o.More? ==> base == old(base) && baseTop == old(baseTop)
      // a line that ends is left with the caret behind it; at the end of input nothing is
      // printed
      ensures o.Line? ==> LeftWith(old(Text()), top, if c == 3 then ['^' as int, 'C' as int, LF] else [LF], screen)
      ensures o.EndOfInput? ==> out == old(out)
      // several candidates are listed below the last row of the line
      ensures c == 9 && comp.Many? ==> Listed(old(screen), old(top) + old(lineRows), comp.names, base, baseTop)
    {
      hide *;
      o := Dispatch(c, comp);
      if o.More? {
        OnScreen();
      }
    }

    method Dispatch(c: int, comp: Completion) returns (o: Outcome)
      requires Valid() && c < 256
      requires !comp.NoMatch? ==> Printable(comp.add)
      requires comp.Many? ==> Printable(comp.names)
      modifies this, buf
      ensures o.More? <==> !Ends(c, old(State()))
      ensures o.More? ==> Valid() && State() == Step(old(State()), c, comp, hist, buf.Length)
      // enter takes the line and ctrl-C drops it
      ensures c == 10 || c == 13 ==> o == Line(old(State()).line)
      ensures c == 3 ==> o == Line([])
      ensures c !in {KEY_EOF, 3, 4, 10, 13} ==> o.More?
      ensures o.Line? ==> o.text == if c == 3 then [] else old(State()).line
      ensures o.EndOfInput? <==> (c == KEY_EOF || c == 4) && old(State()).line == []
      ensures !(c == 9 && comp.Many?) && o.More? ==> base == old(base) && baseTop == old(baseTop)
      // a line that ends is left with the caret behind it; at the end of input nothing is
      // printed
      ensures o.Line? ==> LeftWith(old(Text()), top, if c == 3 then ['^' as int, 'C' as int, LF] else [LF], screen)
      ensures o.EndOfInput? ==> out == old(out)
      // several candidates are listed below the last row of the line
      ensures c == 9 && comp.Many? ==> Listed(old(screen), old(top) + old(lineRows), comp.names, base, baseTop)
    {
      hide Run, Shows, AboveKept, BelowKept;
      if c == KEY_EOF && len == 0 {
        return EndOfInput;
      }
      if c == KEY_EOF || c == 10 || c == 13 {
        var s := Str();
        Finish([LF]);
        return Line(s);
      }
      if c == 3 {
        Finish(['^' as int, 'C' as int, LF]);
        buf[0] := 0;
        return Line([]);
      }
      if c == 4 && len == 0 {
        return EndOfInput;
      }
      o := More;
      if c == 9 {
        Complete(comp);
      } else if c == KEY_UP || c == KEY_DOWN {
        History(c == KEY_UP);
      } else if c == 4 || c == KEY_DELETE || c == 8 || c == 127 {
        Delete(c);
      } else if c == 21 || c == 11 {
        Kill(c);
      } else if c == 1 || c == KEY_HOME || c == 5 || c == KEY_END || c == KEY_LEFT || c == KEY_RIGHT {
        Move(c);
      } else if 32 <= c < 0x80 {
        Type(c);
      }
    }

    /** ctrl-D and DELETE, and backspace. */
    method Delete(c: int)
      requires Valid() && (c == 4 || c == KEY_DELETE || c == 8 || c == 127)
      modifies this`len, this`cur, this`out, this`screen, this`lineRow, this`lineRows, this`top, buf
      ensures Valid() && State() == Step(old(State()), c, NoMatch, hist, buf.Length)
    {
      hide Run, Shows, AboveKept, BelowKept, Config, Painted, DeleteAt;
      ValidIsPainted();
      if c == 4 || c == KEY_DELETE {
        if cur < len {
          LineDeleteAt(cur);
          Redraw();
        }
      } else if cur > 0 {
        LineDeleteAt(cur - 1);
        Redraw();
      }
    }

    /** ctrl-U and ctrl-K. */
    method Kill(c: int)
      requires Valid() && (c == 21 || c == 11)
      modifies this`len, this`cur, this`out, this`screen, this`lineRow, this`lineRows, this`top, buf
      ensures Valid() && State() == Step(old(State()), c, NoMatch, hist, buf.Length)
    {
      hide Run, Shows, AboveKept, BelowKept, Config, Painted;
      ValidIsPainted();
      ghost var was := buf[..len];
      if c == 21 {
        cur := 0;
      }
      len := cur;
      buf[len] := 0;
      assert buf[..len] == was[..cur];
      Redraw();
    }

    /** HOME, END, LEFT and RIGHT and their control keys. */
    method Move(c: int)
      requires Valid()
      requires c == 1 || c == KEY_HOME || c == 5 || c == KEY_END || c == KEY_LEFT || c == KEY_RIGHT
      modifies this`cur, this`out, this`screen, this`lineRow
      ensures Valid() && State() == Step(old(State()), c, NoMatch, hist, buf.Length)
    {
      hide Run, Shows, AboveKept, BelowKept;
      ghost var was := cur;
      if c == 1 || c == KEY_HOME {
        cur := 0;
      } else if c == 5 || c == KEY_END {
        cur := len;
      } else if c == KEY_LEFT {
        if cur == 0 {
          return;
        }
        cur := cur - 1;
      } else {
        if cur == len {
          return;
        }
        cur := cur + 1;
      }
      SeekCaret(was);
    }

    /** A printable character: echoed at the end of the line, inserted and
        repainted inside it; both do the same to the line. */
    method Type(c: Byte)
      requires Valid() && 32 <= c < 0x80
      modifies this`len, this`cur, this`out, this`screen, this`lineRow, this`lineRows, this`top, buf
      ensures Valid() && State() == Insert(old(State()), [c], buf.Length)
    {
      hide Run, Shows, AboveKept, BelowKept;
      ValidIsPainted();
      if len >= buf.Length - 1 {
        assert buf[..len] == buf[..len][..cur] + [] + buf[..len][cur..];
        return;
      }
      if cur == len {
        Append(c);
      } else {
        var _ := LineInsert([c]);
        Redraw();
      }
    }

    /** sh_readline on a stream of keys: up to the key that ends the line, if
        any, the buffer is what the keys so far make of it, and as long as the
        line is being edited it is on screen with the caret in place. */
    method ReadLine(keys: seq<(int, Completion)>) returns (n: nat, o: Outcome)
      requires Valid()
      requires forall i :: 0 <= i < |keys| ==> Sensible(keys[i])
      modifies this, buf
      ensures n <= |keys| && (o.More? ==> n == |keys| && Valid())
      ensures o.More? ==> State() == After(old(State()), keys, n, hist, buf.Length)
      ensures !o.More? ==> n > 0
      ensures forall i :: 0 <= i < |keys| && i < n ==>
        (Ends(keys[i].0, After(old(State()), keys, i, hist, buf.Length)) <==> !o.More? && i == n - 1)
      ensures o.Line? && keys[n - 1].0 != 3 ==> o.text == After(old(State()), keys, n - 1, hist, buf.Length).line
      ensures o.Line? && keys[n - 1].0 == 3 ==> o.text == []
      ensures o.EndOfInput? ==>
        keys[n - 1].0 in {KEY_EOF, 4} && After(old(State()), keys, n - 1, hist, buf.Length).line == []
    {
      hide Run, Shows, AboveKept, BelowKept, Step, After;
      ghost var e := State();
      n, o := 0, More;
      NoKeys(e, keys, hist, buf.Length);
      while n < |keys| && o.More?
        invariant 0 <= n <= |keys|
        invariant o.More? ==> Valid() && State() == After(e, keys, n, hist, buf.Length)
        invariant !o.More? ==> n > 0
        invariant forall i :: 0 <= i < n ==>
          (Ends(keys[i].0, After(e, keys, i, hist, buf.Length)) <==> !o.More? && i == n - 1)
        invariant o.Line? && keys[n - 1].0 != 3 ==> o.text == After(e, keys, n - 1, hist, buf.Length).line
        invariant o.Line? && keys[n - 1].0 == 3 ==> o.text == []
        invariant o.EndOfInput? ==> keys[n - 1].0 in {KEY_EOF, 4} && After(e, keys, n - 1, hist, buf.Length).line == []
      {
        assert Sensible(keys[n]);
        o := Key(keys[n].0, keys[n].1);
        AfterStep(e, keys, n, hist, buf.Length);
        n := n + 1;
      }
    }

    /** What validity means for the user. */
    lemma OnScreen()
      requires Valid()
      ensures Shows(Run(start, out), top, prompt + State().line, |prompt| + State().cur)
      ensures lineRow == (|prompt| + State().cur) / TERM_COLS
      ensures lineRows == (|prompt| + |State().line|) / TERM_COLS
      ensures AboveKept(base, baseTop, Run(start, out), top)
      ensures BelowKept(base, baseTop, 0, Run(start, out), top, top * TERM_COLS + |prompt + State().line|)
    {
    }

    lemma InRange()
      requires Valid()
      ensures cur <= len < buf.Length && hpos <= |hist|
    {
    }

    lemma EmptyLine()
      requires len == 0 && 0 < buf.Length && buf[0] == 0 && cur == 0
      ensures Buffer() && Text() == prompt && State().line == []
    {
    }

    /** Print the prompt and start with an empty line. */
    constructor (prompt: seq<Byte>, hist: seq<seq<Byte>>, max: nat, ghost start: Screen)
      requires Ready(start) && start.col == 0
      requires Printable(prompt) && forall i :: 0 <= i < |hist| ==> Printable(hist[i])
      requires 0 < max && (|prompt| + max - 1) / TERM_COLS < start.h
      ensures Valid() && fresh(buf) && buf.Length == max
      ensures State() == Edit([], 0, 0, []) && this.prompt == prompt && this.hist == hist
      ensures this.start == start && base == start && baseTop == start.row
    {
      hide Run, Shows, AboveKept, BelowKept, Printable;
      this.prompt, this.hist, this.start := prompt, hist, start;
      buf := new Byte[max](_ => 0);
      len, cur, hpos, saved := 0, 0, 0, [];
      out, screen := [], start;
      lineRow := |prompt| / TERM_COLS;
      lineRows := |prompt| / TERM_COLS;
      base, baseTop, top := start, start.row, start.row;
      new;
      NothingSent(start);
      Emit(prompt);
      ghost var t := PromptShown(start, prompt, screen);
      top := t;
      EmptyLine();
    }
  }
}

/** Editor and framebuffer console together. */
module EditorOnConsole {
  import opened Bytes
  import opened Screen
  import opened LineOutput
  import opened LineEditor
  import opened Console

  /** Feed everything the editor printed to a console that started on the same
      screen: the device then shows prompt and line, caret included. */
  method Show(e: Editor, con: Console)
    requires e.Valid() && con.Synced() && con.View() == e.start
    requires con.escParams as object != e.buf
    requires e.buf as object !in {con.cells as object, con.lo, con.hi, con.shadow, con.device, con, e}
    requires e as object !in {con.cells as object, con.lo, con.hi, con.shadow, con.device, con.escParams, con}
    modifies con, con.cells, con.lo, con.hi, con.shadow, con.device, con.escParams
    ensures e.Valid() && con.Synced()
    ensures Shows(con.View(), e.top, e.prompt + e.State().line, |e.prompt| + e.State().cur)
    ensures forall k :: 0 <= k < |e.Text()| ==> OnDevice(con, e.top, k, e.Text()[k])
  {
    hide OnDevice, Run, Paint, BlockAt, Shows, Editor.Valid, Console.Synced, Console.Repainted;
    con.Write(e.out);
    DeviceShows(e, con);
  }

  lemma DeviceShows(e: Editor, con: Console)
    requires e.Valid() && con.Synced() && con.View() == Run(e.start, e.out)
    ensures Shows(con.View(), e.top, e.prompt + e.State().line, |e.prompt| + e.State().cur)
    ensures forall k :: 0 <= k < |e.Text()| ==> OnDevice(con, e.top, k, e.Text()[k])
  {
    hide Run, Shows, Ready, AboveKept, BelowKept;
    e.OnScreen();
    CellsShown(con.View(), e.top, e.Text(), |e.prompt| + e.cur);
  }

  /** Cell `k` after row `top` has the character, and its tile on the device is the
      character in the cell's colours, swapped under a visible caret. */
  ghost predicate OnDevice(con: Console, top: int, k: nat, ch: Byte)
    reads con, con.device
  {
    var r, c := top + k / TERM_COLS, k % TERM_COLS;
    && 0 <= r < con.h && c < con.w && |con.rows| == con.h && |con.rows[r]| == con.w
    && con.device.Length0 == con.h && con.device.Length1 == con.w && con.rows[r][c].ch == ch
    && var at := con.rows[r][c].at;
       con.device[r, c] == if con.cursorOn && r == con.row && c == con.col then Glyphs(ch, at.bg, at.fg)
                           else Glyphs(ch, at.fg, at.bg)
  }

  lemma CellsShown(s: Screen, top: int, text: seq<Byte>, off: nat)
    requires Shows(s, top, text, off)
    ensures s.w == TERM_COLS && |s.rows| == s.h
    ensures forall k :: 0 <= k < |text| ==>
      0 <= top + k / TERM_COLS < s.h && |s.rows[top + k / TERM_COLS]| == TERM_COLS &&
      s.rows[top + k / TERM_COLS][k % TERM_COLS].ch == text[k]
  {
    forall k | 0 <= k < |text|
      ensures 0 <= top + k / TERM_COLS < s.h && s.rows[top + k / TERM_COLS][k % TERM_COLS].ch == text[k]
    {
      assert At(s, top * TERM_COLS + k).ch == text[k];
    }
  }
}
