/** How the keys of the shell's line editor relate to each other. */
module EditLaws {
  import opened Buffers
  import opened Bytes
  import opened Edits
  import opened LineEditor

  predicate Editing(e: Edit, hist: seq<seq<Byte>>, max: nat) {
    e.cur <= |e.line| < max && e.hpos <= |hist|
  }

  /** A key other than tab. */
  function Press(e: Edit, c: int, hist: seq<seq<Byte>>, max: nat): (f: Edit)
    requires Editing(e, hist, max)
    ensures Editing(f, hist, max)
  {
    Step(e, c, NoMatch, hist, max)
  }

  /** The same key `n` times. */
  function Pressed(e: Edit, c: int, n: nat, hist: seq<seq<Byte>>, max: nat): (f: Edit)
    requires Editing(e, hist, max)
    ensures Editing(f, hist, max)
    decreases n
  {
    if n == 0 then e else Press(Pressed(e, c, n - 1, hist, max), c, hist, max)
  }

  predicate Types(c: int) { 32 <= c < 127 }

  // ---- history ----------------------------------------------------------

  /** Going up `n` times shows the n-th newest line and keeps the one that was typed. */
  lemma {:induction false} Upwards(e: Edit, n: nat, hist: seq<seq<Byte>>, max: nat)
    requires Editing(e, hist, max) && e.hpos == 0 && 0 < n <= |hist|
    ensures var f := Pressed(e, KEY_UP, n, hist, max);
            && f.line == Cut(hist[n - 1], max) && f.cur == |f.line| && f.hpos == n
            && f.saved == Cut(e.line, MAX_LINE)
    decreases n
  {
    if n > 1 { Upwards(e, n - 1, hist, max); }
  }

  /** The oldest line is the end. */
  lemma Oldest(e: Edit, hist: seq<seq<Byte>>, max: nat)
    requires Editing(e, hist, max) && e.hpos == |hist|
    ensures Press(e, KEY_UP, hist, max) == e
  {
  }

  /** Coming down again shows the same lines in the opposite order, and last what was
      typed. */
  lemma {:induction false} Downwards(e: Edit, n: nat, m: nat, hist: seq<seq<Byte>>, max: nat)
    requires Editing(e, hist, max) && e.hpos == 0 && 0 < m <= n <= |hist|
    ensures var f := Pressed(Pressed(e, KEY_UP, n, hist, max), KEY_DOWN, m, hist, max);
            && f.hpos == n - m && f.cur == |f.line| && f.saved == Cut(e.line, MAX_LINE)
            && f.line == if m < n then Cut(hist[n - m - 1], max) else Cut(Cut(e.line, MAX_LINE), max)
    decreases m
  {
    Upwards(e, n, hist, max);
    if m > 1 { Downwards(e, n, m - 1, hist, max); }
  }

  /** The typed line comes back if and only if it fits the buffer it is kept in. */
  lemma TypedLineBack(e: Edit, n: nat, hist: seq<seq<Byte>>, max: nat)
    requires Editing(e, hist, max) && e.hpos == 0 && 0 < n <= |hist|
    ensures var f := Pressed(Pressed(e, KEY_UP, n, hist, max), KEY_DOWN, n, hist, max);
            f.hpos == 0 && (f.line == e.line <==> |e.line| < MAX_LINE)
  {
    Downwards(e, n, n, hist, max);
  }

  // ---- typing -----------------------------------------------------------

  function Typed(e: Edit, text: seq<Byte>, hist: seq<seq<Byte>>, max: nat): (f: Edit)
    requires Editing(e, hist, max)
    ensures Editing(f, hist, max)
    decreases |text|
  {
    if text == [] then e else Press(Typed(e, text[..|text| - 1], hist, max), text[|text| - 1], hist, max)
  }

  /** A text appears at the caret, as much of it as there is room for. */
  lemma {:induction false} TypedText(e: Edit, text: seq<Byte>, hist: seq<seq<Byte>>, max: nat)
    requires Editing(e, hist, max) && forall i :: 0 <= i < |text| ==> Types(text[i])
    ensures var room := max - 1 - |e.line|;
            var t := if |text| <= room then text else text[..room];
            Typed(e, text, hist, max) == e.(line := e.line[..e.cur] + t + e.line[e.cur..], cur := e.cur + |t|)
    decreases |text|
  {
    hide Press;
    if text == [] {
      assert e.line[..e.cur] + [] + e.line[e.cur..] == e.line;
    } else {
      var a, c := text[..|text| - 1], text[|text| - 1];
      TypedText(e, a, hist, max);
      var f := Typed(e, a, hist, max);
      if |text| <= max - 1 - |e.line| {
        OneMore(f, c, hist, max);
        assert f.line[..f.cur] + [c] + f.line[f.cur..] == e.line[..e.cur] + text + e.line[e.cur..];
      } else {
        FullLine(f, c, hist, max);
        assert |a| > max - 1 - |e.line| ==> a[..max - 1 - |e.line|] == text[..max - 1 - |e.line|];
      }
    }
  }

  lemma OneMore(e: Edit, c: Byte, hist: seq<seq<Byte>>, max: nat)
    requires Editing(e, hist, max) && |e.line| + 1 < max && Types(c)
    ensures Press(e, c, hist, max) == e.(line := e.line[..e.cur] + [c] + e.line[e.cur..], cur := e.cur + 1)
  {
  }

  /** A full line takes no more. */
  lemma FullLine(e: Edit, c: Byte, hist: seq<seq<Byte>>, max: nat)
    requires Editing(e, hist, max) && |e.line| == max - 1 && Types(c)
    ensures Press(e, c, hist, max) == e
  {
    assert Cut([c], 1) == [];
    assert e.line[..e.cur] + [] + e.line[e.cur..] == e.line;
  }

  /** Completion is typing what is missing of the name. */
  lemma CompletionTypes(e: Edit, comp: Completion, hist: seq<seq<Byte>>, max: nat)
    requires Editing(e, hist, max) && !comp.NoMatch? && forall i :: 0 <= i < |comp.add| ==> Types(comp.add[i])
    ensures Step(e, 9, comp, hist, max) == Typed(e, comp.add, hist, max)
    ensures Step(e, 9, NoMatch, hist, max) == e
  {
    TypedText(e, comp.add, hist, max);
  }

  // ---- erasing and moving -----------------------------------------------

  /** A backspace takes back the last character, and so does a delete one place to the
      left. */
  lemma TypedThenErased(e: Edit, c: Byte, erase: int, hist: seq<seq<Byte>>, max: nat)
    requires Editing(e, hist, max) && |e.line| + 1 < max && Types(c) && erase in {8, 127}
    ensures Press(Press(e, c, hist, max), erase, hist, max) == e
  {
    var f := Press(e, c, hist, max);
    assert f.line[..e.cur] + f.line[e.cur + 1..] == e.line;
  }

  lemma LeftThenDelete(e: Edit, erase: int, delete: int, hist: seq<seq<Byte>>, max: nat)
    requires Editing(e, hist, max) && erase in {8, 127} && delete in {4, KEY_DELETE}
    ensures e.cur > 0 ==>
      Press(e, erase, hist, max) == Press(Press(e, KEY_LEFT, hist, max), delete, hist, max)
    ensures e.cur == 0 ==> Press(e, erase, hist, max) == e
    ensures e.cur == |e.line| ==> Press(e, delete, hist, max) == e
  {
  }

  /** Left and right undo each other and stop at the ends; home and end are as far as
      they go. */
  lemma LeftAndRight(e: Edit, hist: seq<seq<Byte>>, max: nat)
    requires Editing(e, hist, max)
    ensures e.cur > 0 ==> Press(Press(e, KEY_LEFT, hist, max), KEY_RIGHT, hist, max) == e
    ensures e.cur < |e.line| ==> Press(Press(e, KEY_RIGHT, hist, max), KEY_LEFT, hist, max) == e
    ensures e.cur == 0 ==> Press(e, KEY_LEFT, hist, max) == e
    ensures e.cur == |e.line| ==> Press(e, KEY_RIGHT, hist, max) == e
  {
  }

  lemma {:induction false} ToTheEnds(e: Edit, n: nat, hist: seq<seq<Byte>>, max: nat)
    requires Editing(e, hist, max) && n <= |e.line|
    ensures Pressed(e, KEY_LEFT, n, hist, max) == e.(cur := if n < e.cur then e.cur - n else 0)
    ensures Pressed(e, KEY_RIGHT, n, hist, max) == e.(cur := if e.cur + n < |e.line| then e.cur + n else |e.line|)
    decreases n
  {
    if n > 0 { ToTheEnds(e, n - 1, hist, max); }
  }

  lemma FarLeft(e: Edit, home: int, hist: seq<seq<Byte>>, max: nat)
    requires Editing(e, hist, max) && home in {1, KEY_HOME}
    ensures Press(e, home, hist, max) == e.(cur := 0)
  {
  }

  lemma FarRight(e: Edit, end: int, hist: seq<seq<Byte>>, max: nat)
    requires Editing(e, hist, max) && end in {5, KEY_END}
    ensures Press(e, end, hist, max) == e.(cur := |e.line|)
  {
  }

  lemma HomeAndEnd(e: Edit, home: int, end: int, hist: seq<seq<Byte>>, max: nat)
    requires Editing(e, hist, max) && home in {1, KEY_HOME} && end in {5, KEY_END}
    ensures Press(e, home, hist, max) == Pressed(e, KEY_LEFT, |e.line|, hist, max)
    ensures Press(e, end, hist, max) == Pressed(e, KEY_RIGHT, |e.line|, hist, max)
  {
    hide Pressed, Press;
    ToTheEnds(e, |e.line|, hist, max);
    FarLeft(e, home, hist, max);
    FarRight(e, end, hist, max);
  }

  /** Ctrl-K is deleting to the end of the line, and ctrl-U that from its start. */
  lemma {:induction false} DeleteMany(e: Edit, n: nat, hist: seq<seq<Byte>>, max: nat)
    requires Editing(e, hist, max) && e.cur + n <= |e.line|
    ensures Pressed(e, KEY_DELETE, n, hist, max) == e.(line := e.line[..e.cur] + e.line[e.cur + n..])
    decreases n
  {
    if n == 0 {
      assert e.line[..e.cur] + e.line[e.cur..] == e.line;
    } else {
      DeleteMany(e, n - 1, hist, max);
      var f := Pressed(e, KEY_DELETE, n - 1, hist, max);
      assert f.line[..e.cur] + f.line[e.cur + 1..] == e.line[..e.cur] + e.line[e.cur + n..];
    }
  }

  lemma Kills(e: Edit, hist: seq<seq<Byte>>, max: nat)
    requires Editing(e, hist, max)
    ensures Press(e, 11, hist, max) == Pressed(e, KEY_DELETE, |e.line| - e.cur, hist, max)
    ensures Press(e, 21, hist, max) == Press(Press(e, KEY_HOME, hist, max), 11, hist, max)
  {
    hide Pressed, Press;
    DeleteMany(e, |e.line| - e.cur, hist, max);
    assert e.line[..e.cur] + e.line[|e.line|..] == e.line[..e.cur];
    KilledRest(e, hist, max);
    FarLeft(e, KEY_HOME, hist, max);
    KilledRest(e.(cur := 0), hist, max);
  }

  lemma KilledRest(e: Edit, hist: seq<seq<Byte>>, max: nat)
    requires Editing(e, hist, max)
    ensures Press(e, 11, hist, max) == e.(line := e.line[..e.cur])
    ensures Press(e, 21, hist, max) == e.(line := [], cur := 0)
  {
  }

  /** Other control keys and function keys leave the line alone. */
  lemma Ignored(e: Edit, c: int, hist: seq<seq<Byte>>, max: nat)
    requires Editing(e, hist, max) && (0 <= c < 32 || c >= 0x80)
    requires c !in {1, 4, 5, 8, 9, 11, 21, KEY_UP, KEY_DOWN, KEY_LEFT, KEY_RIGHT, KEY_HOME, KEY_END, KEY_DELETE}
    ensures Press(e, c, hist, max) == e
  {
  }

  // ---- a whole line -----------------------------------------------------

  function Keys(text: seq<Byte>): seq<(int, Completion)> {
    seq(|text|, i requires 0 <= i < |text| => (text[i], NoMatch))
  }

  const ENTER: (int, Completion) := (10, NoMatch)

  lemma {:induction false} AfterTyped(e: Edit, keys: seq<(int, Completion)>, text: seq<Byte>,
                                      hist: seq<seq<Byte>>, max: nat)
    requires Editing(e, hist, max) && Keys(text) <= keys
    ensures After(e, keys, |text|, hist, max) == Typed(e, text, hist, max)
    decreases |text|
  {
    hide Step;
    if text != [] {
      var a := text[..|text| - 1];
      assert Keys(a) <= Keys(text);
      AfterTyped(e, keys, a, hist, max);
      assert keys[|a|] == Keys(text)[|a|];
    }
  }

  /** Typing a text that fits and pressing enter reads that text. */
  method TypeLine(ed: Editor, text: seq<Byte>) returns (n: nat, o: Outcome)
    requires ed.Valid() && ed.State().line == [] && |text| < ed.buf.Length
    requires forall i :: 0 <= i < |text| ==> Types(text[i])
    modifies ed, ed.buf
    ensures n == |text| + 1 && o == Line(text)
  {
    hide Step, After, Editor.Valid;
    ed.InRange();
    ghost var e, hist, max := ed.State(), ed.hist, ed.buf.Length;
    var keys := Keys(text) + [ENTER];
    n, o := ed.ReadLine(keys);
    forall i | 0 <= i < |keys|
      ensures Ends(keys[i].0, After(e, keys, i, hist, max)) <==> i == |text|
    {
    }
    AfterTyped(e, keys, text, hist, max);
    TypedText(e, text, hist, max);
    assert [] + text + [] == text;
  }
}
