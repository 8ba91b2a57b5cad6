/** Path normalisation: the in-place `canonicalize` of apps/du.c and the
    stack-of-parts `path_join_norm` of apps/sh.c, both against split, resolve and
    join on values. */
module Paths {
  import opened Buffers

  const SLASH := '/'
  const NUL := '\0'

  // ---- the specification ------------------------------------------------

  /** Length of the leading component of `s`. */
  function SegLen(s: string): (k: nat)
    ensures k <= |s| && (k < |s| ==> s[k] == SLASH)
    ensures forall i :: 0 <= i < k ==> s[i] != SLASH
  {
    if s == "" || s[0] == SLASH then 0 else 1 + SegLen(s[1..])
  }

  /** The non-empty components of a path. */
  function Comps(s: string): seq<string>
    decreases |s|
  {
    if s == "" then []
    else if s[0] == SLASH then Comps(s[1..])
    else [s[..SegLen(s)]] + Comps(s[SegLen(s)..])
  }

  /** What one component does to the components kept so far. */
  function Push(stack: seq<string>, c: string): seq<string> {
    if c == "." then stack
    else if c == ".." then if stack == [] then [] else stack[..|stack| - 1]
    else stack + [c]
  }

  function Resolve(stack: seq<string>, cs: seq<string>): seq<string>
    decreases |cs|
  {
    if cs == [] then stack else Resolve(Push(stack, cs[0]), cs[1..])
  }

  /** Every component with its slash in front. */
  function Slashed(cs: seq<string>): string {
    if cs == [] then "" else Slashed(cs[..|cs| - 1]) + [SLASH] + cs[|cs| - 1]
  }

  function Join(cs: seq<string>): string { if cs == [] then [SLASH] else Slashed(cs) }

  /** The canonical form of an absolute path. */
  function Canon(s: string): string { Join(Resolve([], Comps(s))) }

  predicate IsComp(c: string) { c != "" && forall i :: 0 <= i < |c| ==> c[i] != SLASH }

  /** A component a canonical path may contain. */
  predicate Clean(c: string) { IsComp(c) && c != "." && c != ".." }

  predicate AllClean(cs: seq<string>) { forall i :: 0 <= i < |cs| ==> Clean(cs[i]) }

  // ---- properties of the specification ----------------------------------

  lemma {:induction false} CompsAreComps(s: string)
    ensures forall i :: 0 <= i < |Comps(s)| ==> IsComp(Comps(s)[i])
    decreases |s|
  {
    if s != "" {
      if s[0] == SLASH { CompsAreComps(s[1..]); } else { CompsAreComps(s[SegLen(s)..]); }
    }
  }

  lemma {:induction false} ResolveClean(stack: seq<string>, cs: seq<string>)
    requires AllClean(stack) && forall i :: 0 <= i < |cs| ==> IsComp(cs[i])
    ensures AllClean(Resolve(stack, cs))
    decreases |cs|
  {
    if cs != [] { ResolveClean(Push(stack, cs[0]), cs[1..]); }
  }

  lemma PushClean(stack: seq<string>, c: string)
    requires AllClean(stack) && IsComp(c)
    ensures AllClean(Push(stack, c))
  {
  }

  lemma {:induction false} ResolveKeepsClean(stack: seq<string>, cs: seq<string>)
    requires AllClean(cs)
    ensures Resolve(stack, cs) == stack + cs
    decreases |cs|
  {
    if cs != [] {
      assert Clean(cs[0]);
      ResolveKeepsClean(stack + [cs[0]], cs[1..]);
      assert stack + [cs[0]] + cs[1..] == stack + cs;
    }
  }

  lemma {:induction false} SegLenPrefix(c: string, t: string)
    requires IsComp(c) && (t == "" || t[0] == SLASH)
    ensures SegLen(c + t) == |c|
    decreases |c|
  {
    if |c| == 1 {
      assert (c + t)[1..] == t;
    } else {
      assert IsComp(c[1..]);
      SegLenPrefix(c[1..], t);
      assert (c + t)[1..] == c[1..] + t;
    }
  }

  /** One component in front of a path that starts with a slash, or of nothing. */
  lemma CompsCons(c: string, t: string)
    requires IsComp(c) && (t == "" || t[0] == SLASH)
    ensures Comps([SLASH] + c + t) == [c] + Comps(t)
  {
    var s := c + t;
    assert ([SLASH] + c + t)[1..] == s;
    SegLenPrefix(c, t);
    assert s[..|c|] == c && s[|c|..] == t;
    assert s[0] == c[0];
  }

  lemma {:induction false} SlashedAppend(cs: seq<string>, t: string)
    requires AllClean(cs) && (t == "" || t[0] == SLASH)
    ensures Comps(Slashed(cs) + t) == cs + Comps(t)
    decreases |cs|
  {
    hide Comps;
    if cs == [] {
      assert Slashed(cs) + t == t && cs + Comps(t) == Comps(t);
    } else {
      var init, c := cs[..|cs| - 1], cs[|cs| - 1];
      var rest := [SLASH] + c + t;
      assert Slashed(cs) + t == Slashed(init) + rest;
      SlashedAppend(init, rest);
      CompsCons(c, t);
      assert cs == init + [c];
      assert init + ([c] + Comps(t)) == cs + Comps(t);
    }
  }

  /** Joining clean components and splitting again is the identity. */
  lemma CompsOfJoin(cs: seq<string>)
    requires AllClean(cs)
    ensures Comps(Join(cs)) == cs
  {
    if cs == [] {
      assert [SLASH][1..] == "";
    } else {
      SlashedAppend(cs, "");
      assert Slashed(cs) + "" == Slashed(cs);
    }
  }

  /** A canonical path has no empty, "." or ".." component and is absolute. */
  lemma CanonIsClean(s: string)
    ensures AllClean(Comps(Canon(s))) && Canon(s) != "" && Canon(s)[0] == SLASH
    ensures Comps(Canon(s)) == Resolve([], Comps(s))
  {
    CompsAreComps(s);
    ResolveClean([], Comps(s));
    CompsOfJoin(Resolve([], Comps(s)));
    SlashedHead(Resolve([], Comps(s)));
  }

  lemma {:induction false} SlashedHead(cs: seq<string>)
    ensures cs != [] ==> Slashed(cs) != "" && Slashed(cs)[0] == SLASH
    decreases |cs|
  {
    if |cs| > 1 { SlashedHead(cs[..|cs| - 1]); }
  }

  lemma CanonIdempotent(s: string)
    ensures Canon(Canon(s)) == Canon(s)
  {
    CanonIsClean(s);
    var cs := Resolve([], Comps(s));
    ResolveKeepsClean([], cs);
    assert [] + cs == cs;
  }

  // ---- canonicalize -----------------------------------------------------

  /** `p` holds a C string of length `n`. */
  ghost predicate CString(p: array<char>, n: nat)
    reads p
  {
    n < p.Length && p[n] == NUL && forall i :: 0 <= i < n ==> p[i] != NUL
  }

  /** From index `r` on the buffer still holds the input `s`. */
  ghost predicate Unread(p: array<char>, r: nat, s: string)
    reads p
  {
    && r <= |s| < p.Length && p[|s|] == NUL
    && forall i :: r <= i < |s| ==> p[i] == s[i] && s[i] != NUL
  }

  method SkipSlashes(p: array<char>, r0: nat, ghost s: string) returns (r: nat)
    requires Unread(p, r0, s)
    ensures r0 <= r <= |s| && (r < |s| ==> s[r] != SLASH)
    ensures r0 < |s| && s[r0] == SLASH ==> r0 < r
    ensures Comps(s[r..]) == Comps(s[r0..])
  {
    r := r0;
    while p[r] == SLASH
      invariant r0 <= r <= |s|
      invariant r0 < |s| && s[r0] == SLASH ==> r > r0 || r == r0
      invariant Comps(s[r..]) == Comps(s[r0..])
      decreases |s| - r
    {
      assert s[r..][1..] == s[r + 1..];
      r := r + 1;
    }
  }

  method SegEnd(p: array<char>, seg: nat, ghost s: string) returns (r: nat)
    requires Unread(p, seg, s) && seg < |s| && s[seg] != SLASH
    ensures seg < r <= |s| && (r < |s| ==> s[r] == SLASH) && IsComp(s[seg..r])
    ensures Comps(s[seg..]) == [s[seg..r]] + Comps(s[r..])
  {
    r := seg;
    while p[r] != NUL && p[r] != SLASH
      invariant seg <= r <= |s|
      invariant forall i :: seg <= i < r ==> s[i] != SLASH
      decreases |s| - r
    {
      r := r + 1;
    }
    var c, t := s[seg..r], s[r..];
    assert s[seg..] == c + t;
    SegLenPrefix(c, t);
    assert (c + t)[..|c|] == c && (c + t)[|c|..] == t;
  }

  /** Drop the last component of the output: back over it and its slash. */
  method DropLast(p: array<char>, w0: nat, ghost stack: seq<string>) returns (w: nat)
    requires w0 <= p.Length && AllClean(stack) && p[..w0] == Slashed(stack)
    ensures w <= w0 && p[..w] == Slashed(Push(stack, ".."))
  {
    w := w0;
    ghost var init := if stack == [] then [] else stack[..|stack| - 1];
    ghost var a: int := if stack == [] then -1 else |Slashed(init)|;
    if stack != [] { LastSlash(p[..w0], stack); }
    while w > 0 && p[w - 1] != SLASH
      invariant a < w <= w0
    {
      w := w - 1;
    }
    if w > 0 {
      w := w - 1;
    }
    assert p[..w] == p[..w0][..w];
  }

  /** The last slash of the output is the one before its last component. */
  lemma LastSlash(out: string, stack: seq<string>)
    requires AllClean(stack) && out == Slashed(stack) && stack != []
    ensures var a := |Slashed(stack[..|stack| - 1])|;
            && a < |out| && out[a] == SLASH && out[..a] == Slashed(stack[..|stack| - 1])
            && forall i :: a < i < |out| ==> out[i] != SLASH
  {
    var init, c := stack[..|stack| - 1], stack[|stack| - 1];
    var a := |Slashed(init)|;
    assert Clean(c);
    assert out == Slashed(init) + [SLASH] + c;
    assert forall i :: a < i < |out| ==> out[i] == c[i - a - 1];
  }

  /** Append a slash and the component at `seg`..`r` to the output. The write
      index stays behind the unread input, so the forward copy never clobbers. */
  method CopySeg(p: array<char>, w0: nat, seg: nat, r: nat, ghost s: string, ghost stack: seq<string>) returns (w: nat)
    requires Unread(p, seg, s) && w0 < seg < r <= |s| && p[..w0] == Slashed(stack)
    modifies p
    ensures w == w0 + 1 + (r - seg) <= r && Unread(p, r, s)
    ensures p[..w] == Slashed(stack + [s[seg..r]])
  {
    hide Slashed;
    p[w0] := SLASH;
    w := w0 + 1;
    var i := seg;
    ghost var pre := Slashed(stack) + [SLASH];
    assert p[..w] == pre + s[seg..i];
    while i < r
      invariant seg <= i <= r && w == w0 + 1 + (i - seg)
      invariant Unread(p, i, s)
      invariant p[..w] == pre + s[seg..i]
    {
      p[w] := p[i];
      assert p[..w + 1] == p[..w] + [s[i]];
      assert s[seg..i + 1] == s[seg..i] + [s[i]];
      w := w + 1;
      i := i + 1;
    }
    SlashedPush(stack, s[seg..r]);
  }

  lemma SlashedPush(cs: seq<string>, c: string)
    ensures Slashed(cs + [c]) == Slashed(cs) + [SLASH] + c
  {
    assert (cs + [c])[..|cs|] == cs;
  }

  lemma ResolveStep(stack: seq<string>, c: string, cs: seq<string>)
    ensures Resolve(stack, [c] + cs) == Resolve(Push(stack, c), cs)
  {
    assert ([c] + cs)[1..] == cs;
  }

  lemma ResolveNothing(stack: seq<string>, s: string)
    requires s == ""
    ensures Resolve(stack, Comps(s)) == stack && (Slashed(stack) == "" <==> stack == [])
  {
  }

  lemma SlashedNothing()
    ensures Slashed([]) == ""
  {
  }

  /** Let the component at `seg`..`r` act on the output. */
  method Apply(p: array<char>, w0: nat, seg: nat, r: nat, ghost s: string, ghost stack: seq<string>) returns (w: nat)
    requires Unread(p, seg, s) && w0 < seg < r <= |s| && p[..w0] == Slashed(stack)
    requires AllClean(stack) && IsComp(s[seg..r])
    modifies p
    ensures w <= r && Unread(p, r, s)
    ensures p[..w] == Slashed(Push(stack, s[seg..r])) && AllClean(Push(stack, s[seg..r]))
  {
    hide Slashed, AllClean, Clean;
    ghost var c := s[seg..r];
    PushClean(stack, c);
    w := w0;
    if r - seg == 1 && p[seg] == '.' {
      assert c == ".";
    } else if r - seg == 2 && p[seg] == '.' && p[seg + 1] == '.' {
      assert c == "..";
      w := DropLast(p, w, stack);
    } else {
      w := CopySeg(p, w, seg, r, s, stack);
    }
  }

  method Canonicalize(p: array<char>, ghost n: nat) returns (ghost m: nat)
    requires CString(p, n)
    modifies p
    ensures old(p[0]) != SLASH ==> m == n && p[..] == old(p[..])
    ensures old(p[0]) == SLASH ==> 0 < m <= n && p[m] == NUL && p[..m] == Canon(old(p[..n]))
  {
    hide Comps, Resolve, Slashed, Push;
    ghost var s := p[..n];
    m := n;
    if p[0] != SLASH {
      return;
    }
    var r, w := 0, 0;
    ghost var stack: seq<string> := [];
    SlashedNothing();
    assert s[0..] == s;
    while p[r] != NUL
      invariant 0 <= w <= r <= n && Unread(p, r, s) && (r < n ==> s[r] == SLASH)
      invariant AllClean(stack) && p[..w] == Slashed(stack)
      invariant Resolve(stack, Comps(s[r..])) == Resolve([], Comps(s))
      decreases n - r
    {
      var seg := SkipSlashes(p, r, s);
      r := seg;
      if p[r] == NUL {
        break;
      }
      r := SegEnd(p, seg, s);
      ResolveStep(stack, s[seg..r], Comps(s[r..]));
      w := Apply(p, w, seg, r, s, stack);
      stack := Push(stack, s[seg..r]);
    }
    ResolveNothing(stack, s[r..]);
    if w == 0 {
      p[w] := SLASH;
      w := w + 1;
    }
    p[w] := NUL;
    m := w;
  }

  // ---- path_join_norm ---------------------------------------------------

  const TMP_SIZE: nat := 512
  const MAX_PARTS: nat := 64

  /** The path to normalise: `rel` itself when absolute, else below `base`. */
  function Full(base: string, rel: string): string {
    if rel != "" && rel[0] == SLASH then rel
    else if base == [SLASH] then [SLASH] + rel
    else base + [SLASH] + rel
  }

  /** A relative path goes on where the base leads. */
  lemma FullComps(base: string, rel: string)
    requires rel == "" || rel[0] != SLASH
    ensures Comps(Full(base, rel)) == Comps(base) + Comps(rel)
    ensures Resolve([], Comps(Full(base, rel))) == Resolve(Resolve([], Comps(base)), Comps(rel))
  {
    hide Resolve;
    var tail := [SLASH] + rel;
    assert Comps(tail) == Comps(rel) by { assert tail[1..] == rel; }
    if base == [SLASH] {
      assert base[1..] == "" && Comps(base) == [];
      assert [] + Comps(rel) == Comps(rel);
    } else {
      assert base + [SLASH] + rel == base + tail;
      CompsOfConcat(base, tail);
    }
    ResolveOfConcat([], Comps(base), Comps(rel));
  }

  /** Push, except that a 65th part is dropped. */
  function PushCapped(parts: seq<string>, c: string): seq<string> {
    if c != "." && c != ".." && |parts| >= MAX_PARTS then parts else Push(parts, c)
  }

  function ResolveCapped(parts: seq<string>, cs: seq<string>): seq<string>
    decreases |cs|
  {
    if cs == [] then parts else ResolveCapped(PushCapped(parts, cs[0]), cs[1..])
  }

  /** No prefix of the components resolves to more than 64 parts. */
  predicate ShallowEnough(parts: seq<string>, cs: seq<string>)
    decreases |cs|
  {
    |parts| <= MAX_PARTS && (cs == [] || ShallowEnough(Push(parts, cs[0]), cs[1..]))
  }

  lemma ResolveCappedStep(parts: seq<string>, c: string, cs: seq<string>)
    ensures ResolveCapped(parts, [c] + cs) == ResolveCapped(PushCapped(parts, c), cs)
  {
    assert ([c] + cs)[1..] == cs;
  }

  lemma {:induction false} SlashedCons(cs: seq<string>, n: nat)
    requires n < |cs|
    ensures Slashed(cs[..n + 1]) == Slashed(cs[..n]) + [SLASH] + cs[n]
    ensures |Slashed(cs[..n])| < |Slashed(cs)|
    decreases |cs| - n
  {
    assert cs[..n + 1][..n] == cs[..n];
    if n + 1 < |cs| {
      SlashedCons(cs, n + 1);
    } else {
      assert cs[..n + 1] == cs;
    }
  }

  lemma {:induction false} SlashedPrefix(cs: seq<string>, n: nat)
    requires n <= |cs|
    ensures Slashed(cs[..n]) <= Slashed(cs)
    decreases |cs| - n
  {
    if n < |cs| {
      SlashedCons(cs, n);
      SlashedPrefix(cs, n + 1);
    } else {
      assert cs[..n] == cs;
    }
  }

  /** Split the path into parts, resolving as it goes. */
  method SplitParts(tmp: string) returns (parts: seq<string>)
    ensures parts == ResolveCapped([], Comps(tmp))
  {
    hide ResolveCapped;
    parts := [];
    var r := 0;
    assert tmp[0..] == tmp;
    while r < |tmp|
      invariant 0 <= r <= |tmp|
      invariant ResolveCapped(parts, Comps(tmp[r..])) == ResolveCapped([], Comps(tmp))
    {
      assert tmp[r..][1..] == tmp[r + 1..];
      if tmp[r] == SLASH {
        r := r + 1;
      } else {
        var start, len := r, SegLen(tmp[r..]);
        var part := tmp[start..start + len];
        assert tmp[r..][..len] == part && tmp[r..][len..] == tmp[r + len..];
        ResolveCappedStep(parts, part, Comps(tmp[r + len..]));
        r := r + len;
        if part == "." {
        } else if part == ".." {
          if |parts| > 0 {
            parts := parts[..|parts| - 1];
          }
        } else if |parts| < MAX_PARTS {
          parts := parts + [part];
        }
      }
    }
    assert tmp[r..] == "";
    CappedNothing(parts);
  }

  lemma CappedNothing(parts: seq<string>)
    ensures ResolveCapped(parts, []) == parts
  {
  }

  /** What the shell makes of a path: cut to the buffer, resolved with at most 64
      parts, cut to the caller's size. */
  function Norm(full: string, outsz: nat): string
    requires 0 < outsz
  {
    Cut(Join(ResolveCapped([], Comps(Cut(full, TMP_SIZE)))), outsz)
  }

  method PathJoinNorm(base: string, rel: string, outsz: nat) returns (out: string)
    requires 0 < outsz
    ensures out == Norm(Full(base, rel), outsz)
  {
    hide Comps, ResolveCapped, Slashed;
    SlashedNothing();
    var tmp := Cut(Full(base, rel), TMP_SIZE);
    var parts := SplitParts(tmp);
    if |parts| == 0 {
      return Cut([SLASH], outsz);
    }
    out := "";
    var i := 0;
    while i < |parts|
      invariant 0 <= i <= |parts|
      invariant out == Slashed(parts[..i]) && |out| < outsz
    {
      SlashedCons(parts, i);
      SlashedPrefix(parts, i + 1);
      var piece := [SLASH] + parts[i];
      if |out| + |piece| >= outsz {
        assert out + piece == Slashed(parts[..i + 1]);
        assert (out + piece)[..outsz - 1] == out + piece[..outsz - 1 - |out|];
        assert Slashed(parts)[..outsz - 1] == (out + piece)[..outsz - 1];
        return out + piece[..outsz - 1 - |out|];
      }
      out := out + piece;
      i := i + 1;
    }
    assert parts[..i] == parts;
  }

  // ---- when the limits do not show --------------------------------------

  /** After the last visit to the root there are never more than 64 parts. */
  ghost predicate SettlesShallow(cs: seq<string>) {
    exists i :: 0 <= i <= |cs| && RootThenShallow([], cs, i)
  }

  ghost predicate RootThenShallow(parts: seq<string>, cs: seq<string>, i: nat)
    requires i <= |cs|
  {
    Resolve(parts, cs[..i]) == [] && ShallowEnough([], cs[i..])
  }

  /** `a` is `b` with some elements left out. */
  predicate Sub(a: seq<string>, b: seq<string>) {
    || a == []
    || (b != [] && (|| (a[|a| - 1] == b[|b| - 1] && Sub(a[..|a| - 1], b[..|b| - 1]))
                    || Sub(a, b[..|b| - 1])))
  }

  /** The capped parts are behind the real ones, or the same. */
  predicate Behind(c: seq<string>, r: seq<string>) {
    |c| <= MAX_PARTS && |c| <= |r| && (|c| == |r| ==> c == r) && Sub(c, r)
  }

  lemma {:induction false} SubInit(a: seq<string>, b: seq<string>)
    requires Sub(a, b) && a != []
    ensures Sub(a[..|a| - 1], b) && Sub(a[..|a| - 1], b[..|b| - 1])
    decreases |b|
  {
    if Sub(a, b[..|b| - 1]) {
      SubInit(a, b[..|b| - 1]);
    }
  }

  lemma BehindPush(c: seq<string>, r: seq<string>, x: string)
    requires Behind(c, r)
    ensures Behind(PushCapped(c, x), Push(r, x))
    ensures |c| < |r| && |PushCapped(c, x)| == |Push(r, x)| ==> Push(r, x) == []
    ensures |c| == |r| && |Push(r, x)| <= MAX_PARTS ==> PushCapped(c, x) == Push(r, x)
  {
    if x == ".." {
      if c != [] { SubInit(c, r); }
    } else if x != "." {
      assert (r + [x])[..|r|] == r && (c + [x])[..|c|] == c;
    }
  }

  lemma {:induction false} BehindResolve(c: seq<string>, r: seq<string>, cs: seq<string>)
    requires Behind(c, r)
    ensures Behind(ResolveCapped(c, cs), Resolve(r, cs))
    decreases |cs|
  {
    if cs != [] {
      BehindPush(c, r, cs[0]);
      BehindResolve(PushCapped(c, cs[0]), Push(r, cs[0]), cs[1..]);
    }
  }

  lemma RootLater(r: seq<string>, cs: seq<string>, i: nat)
    requires cs != [] && i < |cs|
    ensures RootThenShallow(r, cs, i + 1) <==> RootThenShallow(Push(r, cs[0]), cs[1..], i)
  {
    assert cs[..i + 1][0] == cs[0] && cs[..i + 1][1..] == cs[1..][..i] && cs[i + 1..] == cs[1..][i..];
  }

  /** The cap leaves no trace exactly when it was not met since the root. */
  lemma {:induction false} CapTraceless(c: seq<string>, r: seq<string>, cs: seq<string>)
    requires Behind(c, r)
    ensures ResolveCapped(c, cs) == Resolve(r, cs) <==>
      (|c| == |r| && ShallowEnough(r, cs)) || exists i :: 0 <= i <= |cs| && RootThenShallow(r, cs, i)
    decreases |cs|
  {
    if cs == [] {
      assert cs[..0] == [] && cs[0..] == [];
      assert RootThenShallow(r, cs, 0) <==> r == [];
    } else {
      var c', r', rest := PushCapped(c, cs[0]), Push(r, cs[0]), cs[1..];
      BehindPush(c, r, cs[0]);
      CapTraceless(c', r', rest);
      if i :| 0 <= i <= |cs| && RootThenShallow(r, cs, i) {
        if i > 0 {
          RootLater(r, cs, i - 1);
        } else {
          assert cs[..0] == [] && cs[0..] == cs;
        }
      }
      if i :| 0 <= i <= |rest| && RootThenShallow(r', rest, i) {
        RootLater(r, cs, i);
        assert RootThenShallow(r, cs, i + 1);
      }
      if |c'| == |r'| && ShallowEnough(r', rest) && |c| < |r| {
        assert rest[..0] == [] && rest[0..] == rest;
        assert RootThenShallow(r', rest, 0);
        RootLater(r, cs, 0);
        assert RootThenShallow(r, cs, 1);
      }
    }
  }

  lemma CapExact(cs: seq<string>)
    ensures ResolveCapped([], cs) == Resolve([], cs) <==> SettlesShallow(cs)
  {
    CapTraceless([], [], cs);
    if ShallowEnough([], cs) {
      assert cs[..0] == [] && cs[0..] == cs;
      assert RootThenShallow([], cs, 0);
    }
  }

  lemma {:induction false} SubShorter(a: seq<string>, b: seq<string>)
    requires Sub(a, b)
    ensures |Slashed(a)| <= |Slashed(b)|
    decreases |b|
  {
    if a != [] {
      if Sub(a, b[..|b| - 1]) {
        SubShorter(a, b[..|b| - 1]);
      } else {
        SubShorter(a[..|a| - 1], b[..|b| - 1]);
      }
    }
  }

  /** On a path that fits its buffer the shell's normaliser gives the canonical
      form, and so agrees with `canonicalize`, exactly when the part limit left no
      trace and the result fits. */
  lemma JoinNormIsCanon(base: string, rel: string, outsz: nat)
    requires 0 < outsz && |Full(base, rel)| < TMP_SIZE
    ensures Norm(Full(base, rel), outsz) == Canon(Full(base, rel)) <==>
      SettlesShallow(Comps(Full(base, rel))) && |Canon(Full(base, rel))| < outsz
    ensures rel != "" && rel[0] == SLASH ==> Full(base, rel) == rel
  {
    NormExact(Full(base, rel), outsz);
  }

  lemma NormExact(full: string, outsz: nat)
    requires 0 < outsz && |full| < TMP_SIZE
    ensures Norm(full, outsz) == Canon(full) <==> SettlesShallow(Comps(full)) && |Canon(full)| < outsz
  {
    hide Slashed, Comps, Resolve, ResolveCapped, SettlesShallow, Sub, Join, AllClean;
    var cs := Comps(full);
    var c, r := ResolveCapped([], cs), Resolve([], cs);
    CapExact(cs);
    CappedInside(full);
    if Join(c) == Join(r) {
      CompsOfJoin(c);
      CompsOfJoin(r);
    }
  }

  /** The capped result is a clean path no longer than the canonical one. */
  lemma CappedInside(full: string)
    ensures var c, r := ResolveCapped([], Comps(full)), Resolve([], Comps(full));
            AllClean(c) && AllClean(r) && |Join(c)| <= |Join(r)|
  {
    var cs := Comps(full);
    CompsAreComps(full);
    CappedClean([], cs);
    ResolveClean([], cs);
    BehindResolve([], [], cs);
    SubShorter(ResolveCapped([], cs), Resolve([], cs));
    SlashedHead(Resolve([], cs));
  }

  lemma {:induction false} CappedClean(parts: seq<string>, cs: seq<string>)
    requires AllClean(parts) && forall i :: 0 <= i < |cs| ==> IsComp(cs[i])
    ensures AllClean(ResolveCapped(parts, cs))
    decreases |cs|
  {
    if cs != [] { CappedClean(PushCapped(parts, cs[0]), cs[1..]); }
  }

  // ---- the buffer -------------------------------------------------------

  predicate Boundary(a: string, b: string) {
    a == "" || b == "" || a[|a| - 1] == SLASH || b[0] == SLASH
  }

  lemma {:induction false} CompsOfConcat(a: string, b: string)
    requires Boundary(a, b)
    ensures Comps(a + b) == Comps(a) + Comps(b)
    decreases |a|
  {
    if a == "" {
      assert a + b == b;
    } else if a[0] == SLASH {
      assert (a + b)[1..] == a[1..] + b;
      CompsOfConcat(a[1..], b);
    } else {
      var n := SegLen(a);
      SegLenOfConcat(a, b);
      assert (a + b)[..n] == a[..n] && (a + b)[n..] == a[n..] + b;
      CompsOfConcat(a[n..], b);
    }
  }

  lemma {:induction false} SegLenOfConcat(a: string, b: string)
    requires Boundary(a, b) && a != ""
    ensures SegLen(a + b) == SegLen(a)
    decreases |a|
  {
    assert (a + b)[1..] == a[1..] + b;
    if a[0] != SLASH && |a| > 1 {
      SegLenOfConcat(a[1..], b);
    } else if |a| == 1 {
      assert a[1..] + b == b;
    }
  }

  lemma {:induction false} ResolveOfConcat(stack: seq<string>, a: seq<string>, b: seq<string>)
    ensures Resolve(stack, a + b) == Resolve(Resolve(stack, a), b)
    decreases |a|
  {
    if a == [] {
      assert a + b == b;
    } else {
      assert (a + b)[1..] == a[1..] + b;
      ResolveOfConcat(Push(stack, a[0]), a[1..], b);
    }
  }

  // ---- what canonical paths are about -----------------------------------

  lemma CompsOfTail(p: string, c: string)
    requires IsComp(c)
    ensures Comps(p + ([SLASH] + c)) == Comps(p) + [c]
  {
    hide Comps;
    CompsOfConcat(p, [SLASH] + c);
    assert [SLASH] + c + "" == [SLASH] + c;
    CompsCons(c, "");
    assert Comps("") == [] by { NoComps(); }
  }

  lemma NoComps()
    ensures Comps("") == [] && Comps([SLASH]) == []
  {
    assert [SLASH][1..] == "";
  }

  /** A name leads one level down. */
  lemma CanonChild(p: string, c: string)
    requires Clean(c)
    ensures Canon(p + ([SLASH] + c)) == (if Canon(p) == [SLASH] then "" else Canon(p)) + [SLASH] + c
  {
    hide Comps, Resolve;
    CompsOfTail(p, c);
    ResolveOfConcat([], Comps(p), [c]);
    var stack := Resolve([], Comps(p));
    ResolveOne(stack, c);
    SlashedPush(stack, c);
    assert Slashed([]) == "" by { SlashedNothing(); }
    CanonIsRoot(p);
  }

  lemma CanonIsRoot(p: string)
    ensures Canon(p) == [SLASH] <==> Resolve([], Comps(p)) == []
  {
    hide Comps, Resolve;
    CanonIsClean(p);
    NoComps();
  }

  /** Two dots undo it, and at the root they lead nowhere. */
  lemma CanonParent(p: string, c: string)
    requires Clean(c)
    ensures Canon(p + ([SLASH] + c) + ([SLASH] + "..")) == Canon(p)
    ensures Canon([SLASH] + "..") == Canon([SLASH]) == [SLASH]
  {
    hide Comps, Resolve;
    CompsOfTail(p, c);
    CompsOfTail(p + ([SLASH] + c), "..");
    ResolveOfConcat([], Comps(p), [c]);
    ResolveOfConcat([], Comps(p) + [c], [".."]);
    var stack := Resolve([], Comps(p));
    ResolveOne(stack, c);
    ResolveOne(stack + [c], "..");
    assert (stack + [c])[..|stack|] == stack;
    NoComps();
    CompsOfTail("", "..");
    assert "" + ([SLASH] + "..") == [SLASH] + "..";
    ResolveOne([], "..");
    assert [] + [".."] == [".."];
    NothingToResolve([]);
  }

  lemma NothingToResolve(stack: seq<string>)
    ensures Resolve(stack, []) == stack
  {
  }

  /** A dot and further slashes make no difference. */
  lemma CanonDot(p: string)
    ensures Canon(p + ([SLASH] + ".")) == Canon(p) && Canon(p + [SLASH]) == Canon(p)
  {
    hide Comps, Resolve;
    CompsOfTail(p, ".");
    ResolveOfConcat([], Comps(p), ["."]);
    ResolveOne(Resolve([], Comps(p)), ".");
    CompsOfConcat(p, [SLASH]);
    NoComps();
    assert Comps(p) + [] == Comps(p);
  }

  /** Where the component that holds position `k` starts. */
  function SegStart(s: string, k: nat): (b: nat)
    requires k <= |s|
    ensures b <= k && (b == 0 || s[b - 1] == SLASH)
  {
    if k == 0 || s[k - 1] == SLASH then k else SegStart(s, k - 1)
  }

  /** The net effect of components wherever they start: so many levels up, and then
      down by some names. */
  datatype Net = Net(ups: nat, downs: seq<string>) {
    function Then(c: string): Net {
      if c == "." then this
      else if c != ".." then Net(ups, downs + [c])
      else if downs == [] then Net(ups + 1, []) else Net(ups, downs[..|downs| - 1])
    }
  }

  function NetOf(cs: seq<string>): Net {
    if cs == [] then Net(0, []) else NetOf(cs[..|cs| - 1]).Then(cs[|cs| - 1])
  }

  /** How many levels of a stack of `depth` are left. */
  function Left(depth: nat, n: Net): nat { if depth > n.ups then depth - n.ups else 0 }

  lemma {:induction false} ResolveIsNet(stack: seq<string>, cs: seq<string>)
    ensures Resolve(stack, cs) == stack[..Left(|stack|, NetOf(cs))] + NetOf(cs).downs
    decreases |cs|
  {
    hide Resolve, Push, Left;
    if cs == [] {
      NetNothing(stack);
    } else {
      var pre, c := cs[..|cs| - 1], cs[|cs| - 1];
      ResolveIsNet(stack, pre);
      assert cs == pre + [c];
      ResolveOfConcat(stack, pre, [c]);
      ResolveOne(Resolve(stack, pre), c);
      NetStep(stack, NetOf(pre), c);
    }
  }

  lemma NetStep(stack: seq<string>, n: Net, c: string)
    ensures Push(stack[..Left(|stack|, n)] + n.downs, c) == stack[..Left(|stack|, n.Then(c))] + n.Then(c).downs
  {
    var l := Left(|stack|, n);
    if c == ".." && n.downs == [] {
      assert stack[..l] + n.downs == stack[..l];
    }
  }

  lemma NetNothing(stack: seq<string>)
    ensures Resolve(stack, []) == stack == stack[..Left(|stack|, Net(0, []))] + []
  {
  }

  lemma ResolveOne(stack: seq<string>, c: string)
    ensures Resolve(stack, [c]) == Push(stack, c)
  {
    assert [c][1..] == [];
  }

  /** From `stack` both effects end in the same place: the one that leaves more
      levels standing goes down by what the other adds to them. */
  predicate Together(stack: seq<string>, a: Net, b: Net) {
    var i, j := Left(|stack|, a), Left(|stack|, b);
    if i <= j then a.downs == stack[i..j] + b.downs else b.downs == stack[j..i] + a.downs
  }

  lemma TogetherExact(stack: seq<string>, a: seq<string>, b: seq<string>)
    ensures Resolve(stack, a) == Resolve(stack, b) <==> Together(stack, NetOf(a), NetOf(b))
  {
    hide Resolve, NetOf;
    ResolveIsNet(stack, a);
    ResolveIsNet(stack, b);
    var i, j := Left(|stack|, NetOf(a)), Left(|stack|, NetOf(b));
    if i <= j {
      SamePrefix(stack, i, j, NetOf(a).downs, NetOf(b).downs);
    } else {
      SamePrefix(stack, j, i, NetOf(b).downs, NetOf(a).downs);
    }
  }

  lemma SamePrefix(stack: seq<string>, i: nat, j: nat, a: seq<string>, b: seq<string>)
    requires i <= j <= |stack|
    ensures stack[..i] + a == stack[..j] + b <==> a == stack[i..j] + b
  {
    assert stack[..j] + b == stack[..i] + (stack[i..j] + b);
    assert (stack[..i] + a)[i..] == a;
    assert (stack[..i] + (stack[i..j] + b))[i..] == stack[i..j] + b;
  }

  /** Where the last component that starts inside the buffer begins. */
  function CutStart(full: string): (k: nat)
    requires |full| >= TMP_SIZE
    ensures k <= TMP_SIZE - 1
  {
    if full[TMP_SIZE - 1] == SLASH then TMP_SIZE - 1 else SegStart(full, TMP_SIZE - 1)
  }

  lemma CutBoundary(full: string)
    requires |full| >= TMP_SIZE
    ensures var k := CutStart(full);
            Boundary(full[..k], full[k..TMP_SIZE - 1]) && Boundary(full[..k], full[k..])
  {
    hide SegStart;
  }

  /** From there, what is inside the buffer and all of the rest have the same
      effect. */
  predicate LeadsBack(full: string)
    requires |full| >= TMP_SIZE
  {
    var k := CutStart(full);
    Together(Resolve([], Comps(full[..k])), NetOf(Comps(full[k..TMP_SIZE - 1])), NetOf(Comps(full[k..])))
  }

  lemma LeadsBackExact(full: string)
    requires |full| >= TMP_SIZE
    ensures Resolve([], Comps(full[..TMP_SIZE - 1])) == Resolve([], Comps(full)) <==> LeadsBack(full)
  {
    hide Comps, Resolve, NetOf, Together, CutStart, Boundary;
    var cut, k := TMP_SIZE - 1, CutStart(full);
    CutBoundary(full);
    assert full[..cut] == full[..k] + full[k..cut] && full == full[..k] + full[k..];
    CompsOfConcat(full[..k], full[k..cut]);
    CompsOfConcat(full[..k], full[k..]);
    ResolveOfConcat([], Comps(full[..k]), Comps(full[k..cut]));
    ResolveOfConcat([], Comps(full[..k]), Comps(full[k..]));
    TogetherExact(Resolve([], Comps(full[..k])), Comps(full[k..cut]), Comps(full[k..]));
  }

  /** The components that the part limit lets through, `depth` parts being there. */
  function Taken(depth: nat, cs: seq<string>): seq<string>
    decreases |cs|
  {
    if cs == [] then []
    else if cs[0] == "." then [cs[0]] + Taken(depth, cs[1..])
    else if cs[0] == ".." then [cs[0]] + Taken(if depth > 0 then depth - 1 else 0, cs[1..])
    else if depth >= MAX_PARTS then Taken(depth, cs[1..])
    else [cs[0]] + Taken(depth + 1, cs[1..])
  }

  lemma {:induction false} CappedIsTaken(parts: seq<string>, cs: seq<string>)
    ensures ResolveCapped(parts, cs) == Resolve(parts, Taken(|parts|, cs))
    decreases |cs|
  {
    if cs != [] {
      CappedIsTaken(PushCapped(parts, cs[0]), cs[1..]);
      ResolveStep(parts, cs[0], Taken(|PushCapped(parts, cs[0])|, cs[1..]));
    }
  }

  /** From the root, what is taken of the first 511 bytes and the whole path go down
      by the same names. */
  predicate SameEffect(full: string)
    requires |full| >= TMP_SIZE
  {
    NetOf(Taken(0, Comps(full[..TMP_SIZE - 1]))).downs == NetOf(Comps(full)).downs
  }

  lemma SameEffectExact(full: string)
    requires |full| >= TMP_SIZE
    ensures ResolveCapped([], Comps(full[..TMP_SIZE - 1])) == Resolve([], Comps(full)) <==> SameEffect(full)
  {
    hide Comps, Resolve, ResolveCapped, NetOf, Taken;
    var cs := Comps(full[..TMP_SIZE - 1]);
    CappedIsTaken([], cs);
    FromRoot(Taken(0, cs));
    FromRoot(Comps(full));
  }

  lemma FromRoot(cs: seq<string>)
    ensures Resolve([], cs) == NetOf(cs).downs
  {
    hide Resolve, NetOf;
    ResolveIsNet([], cs);
    assert [][..Left(0, NetOf(cs))] + NetOf(cs).downs == NetOf(cs).downs;
  }

  /** The shell sees the first 511 bytes of a longer path. The result is right
      exactly when the components taken of those have the net effect of the whole
      path, or, where the output is cut, when the cut falls on the right path. If the
      part limit leaves no trace the former means that the rest leads back. */
  lemma BufferCut(full: string, outsz: nat)
    requires 0 < outsz && |full| >= TMP_SIZE
    ensures var t := full[..TMP_SIZE - 1];
            var parts := ResolveCapped([], Comps(t));
            && Norm(full, outsz) == Norm(t, outsz)
            && (Norm(full, outsz) == Canon(full) <==>
                 if |Join(parts)| < outsz then SameEffect(full)
                 else |Canon(full)| == outsz - 1 && Canon(full) <= Join(parts))
            && (SettlesShallow(Comps(t)) ==>
                 (Norm(full, outsz) == Canon(full) <==>
                   if |Canon(t)| < outsz then LeadsBack(full)
                   else |Canon(full)| == outsz - 1 && Canon(full) <= Canon(t)))
  {
    hide Comps, Resolve, ResolveCapped, SettlesShallow, Slashed, Join, AllClean, LeadsBack, SameEffect;
    var t := full[..TMP_SIZE - 1];
    var parts := ResolveCapped([], Comps(t));
    CapExact(Comps(t));
    LeadsBackExact(full);
    SameEffectExact(full);
    CanonParts(t);
    CanonParts(full);
    CappedInside(t);
    CompsOfJoin(parts);
  }

  lemma CanonParts(s: string)
    ensures Comps(Canon(s)) == Resolve([], Comps(s))
  {
    CanonIsClean(s);
  }

  lemma {:induction false} ResolveLen(stack: seq<string>, s: string)
    requires s == "" || s[0] == SLASH
    ensures |Slashed(Resolve(stack, Comps(s)))| <= |Slashed(stack)| + |s|
    decreases |s|
  {
    if |s| > 1 {
      var t := s[1..];
      if t[0] == SLASH {
        ResolveLen(stack, t);
      } else {
        var n := SegLen(t);
        var up := Push(stack, t[..n]);
        assert Comps(t) == [t[..n]] + Comps(t[n..]);
        ResolveStep(stack, t[..n], Comps(t[n..]));
        assert (stack + [t[..n]])[..|stack|] == stack;
        ResolveLen(up, t[n..]);
      }
    } else if |s| == 1 {
      assert s[1..] == "";
    }
  }

  /** No canonical path of 512 bytes or more survives. */
  lemma LongPathLost(full: string, outsz: nat)
    requires 0 < outsz && |full| >= TMP_SIZE && Canon(full) == full
    ensures Norm(full, outsz) != Canon(full)
  {
    hide Comps, Resolve, ResolveCapped, Slashed, AllClean;
    var t := full[..TMP_SIZE - 1];
    CanonIsClean(full);
    CappedInside(t);
    ResolveLen([], t);
    SlashedNothing();
  }

  // ---- the part limit ---------------------------------------------------

  function Deep(n: nat): seq<string> { seq(n, _ => "d") }

  /** A path of 65 directories loses the last one. */
  lemma PartLimitBites(outsz: nat)
    requires 0 < outsz
    ensures var full := Join(Deep(MAX_PARTS + 1));
            Canon(full) == full && Norm(full, outsz) != full
  {
    hide Comps, SettlesShallow, Slashed, ResolveCapped;
    var cs := Deep(MAX_PARTS + 1);
    ResolveKeepsClean([], cs);
    CapBound([], cs);
    CapExact(cs);
    assert |Resolve([], cs)| == MAX_PARTS + 1;
    assert AllClean(cs);
    CompsOfJoin(cs);
    DeepLength(MAX_PARTS + 1);
    assert [] + cs == cs;
    NormExact(Join(cs), outsz);
  }

  lemma {:induction false} DeepLength(n: nat)
    ensures |Slashed(Deep(n))| == 2 * n
  {
    if n > 0 {
      assert Deep(n)[..n - 1] == Deep(n - 1);
      DeepLength(n - 1);
    }
  }

  lemma {:induction false} CapBound(parts: seq<string>, cs: seq<string>)
    requires |parts| <= MAX_PARTS
    ensures |ResolveCapped(parts, cs)| <= MAX_PARTS
    decreases |cs|
  {
    if cs != [] { CapBound(PushCapped(parts, cs[0]), cs[1..]); }
  }
}
