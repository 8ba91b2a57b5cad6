/** The expression evaluator of apps/calc.c: exact 64-bit arithmetic with
    truncating division, by recursive descent over globals. `Grammar` says which
    strings are expressions and what they are worth; `CalcParser` is the parser as
    a function, proved sound and complete for the grammar within the depth cap;
    `Calc` is the C program's control flow over a cursor, an error flag and a depth
    counter, proved to compute that function. */
module Grammar {
  import opened Characters

  const LONG_MAX: int := 0x7FFF_FFFF_FFFF_FFFF
  const LONG_MIN: int := -0x8000_0000_0000_0000

  datatype Op = Add | Sub | Mul | Div | Mod
  datatype Expr = Num(n: nat) | Paren(e: Expr) | Neg(e: Expr) | Pos(e: Expr) | Bin(op: Op, l: Expr, r: Expr)

  datatype Err = Syntax | DivZero | Overflow
  datatype Val = Value(v: int) | Fail(err: Err)

  predicate Fits64(v: int) { LONG_MIN <= v <= LONG_MAX }

  /** Division rounding towards zero, and its remainder. */
  function TruncDiv(a: int, b: int): int
    requires b != 0
  {
    if (a >= 0) == (b > 0) then Abs(a) / Abs(b) else -(Abs(a) / Abs(b))
  }

  function TruncMod(a: int, b: int): int
    requires b != 0
  {
    a - b * TruncDiv(a, b)
  }

  function Abs(a: int): nat { if a < 0 then -a else a }

  function Checked(v: int): Val { if Fits64(v) then Value(v) else Fail(Overflow) }

  function Apply(op: Op, a: int, b: int): Val {
    match op
    case Add => Checked(a + b)
    case Sub => Checked(a - b)
    case Mul => Checked(a * b)
    case Div => if b == 0 then Fail(DivZero) else Checked(TruncDiv(a, b))
    case Mod => if b == 0 then Fail(DivZero) else Checked(TruncMod(a, b))
  }

  /** The exact value, or the first error met left to right. Every intermediate
      result has to fit 64 bits. */
  function Eval(e: Expr): (r: Val)
    ensures r.Value? ==> Fits64(r.v)
  {
    match e
    case Num(n) => Checked(n)
    case Paren(x) => Eval(x)
    case Pos(x) => Eval(x)
    case Neg(x) => var a := Eval(x); if a.Fail? then a else Checked(-a.v)
    case Bin(op, l, r) =>
      var a := Eval(l);
      if a.Fail? then a else
      var b := Eval(r);
      if b.Fail? then b else Apply(op, a.v, b.v)
  }

  /** The unbounded value, where it exists. */
  function Exact(e: Expr): (r: Val) {
    match e
    case Num(n) => Value(n)
    case Paren(x) => Exact(x)
    case Pos(x) => Exact(x)
    case Neg(x) => var a := Exact(x); if a.Fail? then a else Value(-a.v)
    case Bin(op, l, r) =>
      var a := Exact(l);
      if a.Fail? then a else
      var b := Exact(r);
      if b.Fail? then b else
      match op
      case Add => Value(a.v + b.v)
      case Sub => Value(a.v - b.v)
      case Mul => Value(a.v * b.v)
      case Div => if b.v == 0 then Fail(DivZero) else Value(TruncDiv(a.v, b.v))
      case Mod => if b.v == 0 then Fail(DivZero) else Value(TruncMod(a.v, b.v))
  }

  /** A value that evaluation reports is the exact one. */
  lemma {:induction false} EvalIsExact(e: Expr)
    requires Eval(e).Value?
    ensures Exact(e) == Eval(e)
  {
    match e
    case Num(n) =>
    case Paren(x) => EvalIsExact(x);
    case Pos(x) => EvalIsExact(x);
    case Neg(x) => EvalIsExact(x);
    case Bin(op, l, r) => EvalIsExact(l); EvalIsExact(r);
  }

  // ---- strings ----------------------------------------------------------

  function OpChar(op: Op): char {
    match op case Add => '+' case Sub => '-' case Mul => '*' case Div => '/' case Mod => '%'
  }

  predicate IsAdditive(op: Op) { op == Add || op == Sub }

  predicate Blank(s: string, i: nat, j: nat) {
    i <= j <= |s| && forall k :: i <= k < j ==> IsBlank(s[k])
  }

  /** The value of the digits s[i..j]. */
  function NumVal(s: string, i: nat, j: nat): nat
    requires i <= j <= |s|
    requires forall k :: i <= k < j ==> IsDigit(s[k])
  {
    if i == j then 0 else NumVal(s, i, j - 1) * 10 + DigitValue(s[j - 1])
  }

  predicate DigitsAt(s: string, i: nat, j: nat) {
    i < j <= |s| && forall k :: i <= k < j ==> IsDigit(s[k])
  }

  // primary := number | '(' expr ')'
  ghost predicate PrimaryAt(s: string, i: nat, j: nat, e: Expr)
    decreases e, 0
  {
    match e
    case Num(n) => exists k: nat :: Blank(s, i, k) && DigitsAt(s, k, j) && NumVal(s, k, j) == n
    case Paren(x) =>
      exists k: nat, m: nat, q: nat ::
        && Blank(s, i, k) && k < |s| && s[k] == '(' && ExprAt(s, k + 1, m, x)
        && Blank(s, m, q) && q < |s| && s[q] == ')' && j == q + 1
    case _ => false
  }

  // unary := ('-' | '+') unary | primary
  ghost predicate UnaryAt(s: string, i: nat, j: nat, e: Expr)
    decreases e, 1
  {
    match e
    case Neg(x) => exists k: nat :: Blank(s, i, k) && k < |s| && s[k] == '-' && UnaryAt(s, k + 1, j, x)
    case Pos(x) => exists k: nat :: Blank(s, i, k) && k < |s| && s[k] == '+' && UnaryAt(s, k + 1, j, x)
    case _ => PrimaryAt(s, i, j, e)
  }

  // term := unary (('*' | '/' | '%') unary)*
  ghost predicate TermAt(s: string, i: nat, j: nat, e: Expr)
    decreases e, 2
  {
    if e.Bin? && !IsAdditive(e.op) then
      exists k: nat, m: nat ::
        TermAt(s, i, k, e.l) && Blank(s, k, m) && m < |s| && s[m] == OpChar(e.op) && UnaryAt(s, m + 1, j, e.r)
    else UnaryAt(s, i, j, e)
  }

  // expr := term (('+' | '-') term)*
  ghost predicate ExprAt(s: string, i: nat, j: nat, e: Expr)
    decreases e, 3
  {
    if e.Bin? && IsAdditive(e.op) then
      exists k: nat, m: nat ::
        ExprAt(s, i, k, e.l) && Blank(s, k, m) && m < |s| && s[m] == OpChar(e.op) && TermAt(s, m + 1, j, e.r)
    else TermAt(s, i, j, e)
  }

  /** The whole string is the expression `e`, trailing blanks aside. */
  ghost predicate Sentence(s: string, e: Expr) {
    exists j: nat :: ExprAt(s, 0, j, e) && Blank(s, j, |s|)
  }

  // ---- the depth cap ----------------------------------------------------

  const MAX_DEPTH: nat := 64

  /** Parsing `e` as an expression from nesting depth `d` stays within the cap. */
  predicate ExprFits(e: Expr, d: nat)
    decreases e, 3
  {
    if e.Bin? && IsAdditive(e.op) then ExprFits(e.l, d) && TermFits(e.r, d + 1)
    else d < MAX_DEPTH && TermFits(e, d + 1)
  }

  predicate TermFits(e: Expr, d: nat)
    decreases e, 2
  {
    if e.Bin? && !IsAdditive(e.op) then TermFits(e.l, d) && UnaryFits(e.r, d)
    else UnaryFits(e, d)
  }

  predicate UnaryFits(e: Expr, d: nat)
    decreases e, 1
  {
    d < MAX_DEPTH &&
    match e
    case Neg(x) => UnaryFits(x, d + 1)
    case Pos(x) => UnaryFits(x, d + 1)
    case Paren(x) => ExprFits(x, d + 1)
    case _ => true
  }
}

module CalcParser {
  import opened Characters
  import opened Grammar
  import opened Numerals

  datatype Parse = Ok(v: int, pos: nat) | Bad(err: Err)

  /** The character under the cursor; NUL at the end. */
  function Peek(s: string, p: nat): char { if p < |s| then s[p] else '\0' }

  function Skip(s: string, p: nat): (q: nat)
    requires p <= |s|
    ensures p <= q <= |s| && Blank(s, p, q) && (q < |s| ==> !IsBlank(s[q]))
    decreases |s| - p
  {
    if p < |s| && IsBlank(s[p]) then Skip(s, p + 1) else p
  }

  /** Digits from `p` on, appended to `v`. */
  function Digits(s: string, p: nat, v: nat): (r: Parse)
    requires p <= |s| && v <= LONG_MAX
    ensures r.Ok? ==> p <= r.pos <= |s| && 0 <= r.v <= LONG_MAX
    decreases |s| - p
  {
    if p < |s| && IsDigit(s[p]) then
      var d := DigitValue(s[p]);
      if v > (LONG_MAX - d) / 10 then Bad(Overflow) else Digits(s, p + 1, v * 10 + d)
    else Ok(v, p)
  }

  function Primary(s: string, p: nat, d: nat): (r: Parse)
    requires p <= |s|
    ensures r.Ok? ==> p < r.pos <= |s| && Fits64(r.v)
    decreases |s| - p, 0
  {
    var k := Skip(s, p);
    if Peek(s, k) == '(' then
      var r := ParseExpr(s, k + 1, d);
      if r.Bad? then r
      else if Peek(s, Skip(s, r.pos)) != ')' then Bad(Syntax)
      else Ok(r.v, Skip(s, r.pos) + 1)
    else if !IsDigit(Peek(s, k)) then Bad(Syntax)
    else Digits(s, k, 0)
  }

  function Unary(s: string, p: nat, d: nat): (r: Parse)
    requires p <= |s|
    ensures r.Ok? ==> p < r.pos <= |s| && Fits64(r.v)
    decreases |s| - p, 1
  {
    if d >= MAX_DEPTH then Bad(Syntax)
    else
      var k := Skip(s, p);
      if Peek(s, k) == '-' then
        var r := Unary(s, k + 1, d + 1);
        if r.Bad? then r else if r.v == LONG_MIN then Bad(Overflow) else Ok(-r.v, r.pos)
      else if Peek(s, k) == '+' then Unary(s, k + 1, d + 1)
      else Primary(s, k, d + 1)
  }

  predicate IsTermOp(c: char) { c == '*' || c == '/' || c == '%' }
  predicate IsExprOp(c: char) { c == '+' || c == '-' }

  function OpOf(c: char): Op {
    if c == '+' then Add else if c == '-' then Sub else if c == '*' then Mul else if c == '/' then Div else Mod
  }

  function ParseTerm(s: string, p: nat, d: nat): (r: Parse)
    requires p <= |s|
    ensures r.Ok? ==> p < r.pos <= |s| && Fits64(r.v)
    decreases |s| - p, 2
  {
    var r := Unary(s, p, d);
    if r.Bad? then r else TermRest(s, r.pos, r.v, d)
  }

  function TermRest(s: string, p: nat, v: int, d: nat): (r: Parse)
    requires p <= |s| && Fits64(v)
    ensures r.Ok? ==> p <= r.pos <= |s| && Fits64(r.v)
    decreases |s| - p, 2
  {
    var k := Skip(s, p);
    var op := Peek(s, k);
    if !IsTermOp(op) then Ok(v, k)
    else
      var r := Unary(s, k + 1, d);
      if r.Bad? then r else
      var a := Apply(OpOf(op), v, r.v);
      if a.Fail? then Bad(a.err) else assert Fits64(a.v); TermRest(s, r.pos, a.v, d)
  }

  function ParseExpr(s: string, p: nat, d: nat): (r: Parse)
    requires p <= |s|
    ensures r.Ok? ==> p < r.pos <= |s| && Fits64(r.v)
    decreases |s| - p, 3
  {
    if d >= MAX_DEPTH then Bad(Syntax)
    else
      var r := ParseTerm(s, p, d + 1);
      if r.Bad? then r else ExprRest(s, r.pos, r.v, d)
  }

  function ExprRest(s: string, p: nat, v: int, d: nat): (r: Parse)
    requires p <= |s| && Fits64(v)
    ensures r.Ok? ==> p <= r.pos <= |s| && Fits64(r.v)
    decreases |s| - p, 3
  {
    var k := Skip(s, p);
    var op := Peek(s, k);
    if !IsExprOp(op) then Ok(v, k)
    else
      var r := ParseTerm(s, k + 1, d + 1);
      if r.Bad? then r else
      var a := Apply(OpOf(op), v, r.v);
      if a.Fail? then Bad(a.err) else assert Fits64(a.v); ExprRest(s, r.pos, a.v, d)
  }

  /** The whole program: an expression, then nothing but blanks. */
  function Run(s: string): Val {
    var r := ParseExpr(s, 0, 0);
    if r.Bad? then Fail(r.err)
    else if Skip(s, r.pos) < |s| then Fail(Syntax)
    else Value(r.v)
  }

  // ---- skipping and numbers ---------------------------------------------

  lemma {:induction false} SkipTo(s: string, i: nat, k: nat)
    requires Blank(s, i, k) && (k < |s| ==> !IsBlank(s[k]))
    ensures Skip(s, i) == k
    decreases k - i
  {
    if i < k { SkipTo(s, i + 1, k); }
  }

  lemma SkipBlank(s: string, i: nat, k: nat)
    requires Blank(s, i, k)
    ensures Skip(s, i) == Skip(s, k)
  {
    SkipTo(s, i, Skip(s, k));
  }

  predicate NoDigit(s: string, j: nat) { j <= |s| && (j < |s| ==> !IsDigit(s[j])) }

  lemma {:induction false} NumValGrows(s: string, i: nat, k: nat, j: nat)
    requires i <= k <= j <= |s| && forall x :: i <= x < j ==> IsDigit(s[x])
    ensures NumVal(s, i, k) <= NumVal(s, i, j)
    decreases j - k
  {
    if k < j { NumValGrows(s, i, k, j - 1); }
  }

  /** Reading the digits i..j from k on, or overflowing on the way. */
  lemma {:induction false} DigitsRead(s: string, i: nat, k: nat, j: nat)
    requires i <= k <= j <= |s| && (forall x :: i <= x < j ==> IsDigit(s[x])) && NoDigit(s, j)
    requires NumVal(s, i, k) <= LONG_MAX
    ensures Digits(s, k, NumVal(s, i, k))
         == if NumVal(s, i, j) <= LONG_MAX then Ok(NumVal(s, i, j), j) else Bad(Overflow)
    decreases j - k
  {
    if k < j {
      assert NumVal(s, i, k + 1) == NumVal(s, i, k) * 10 + DigitValue(s[k]);
      if NumVal(s, i, k + 1) <= LONG_MAX {
        DigitsRead(s, i, k + 1, j);
      } else {
        NumValGrows(s, i, k + 1, j);
      }
    }
  }

  /** Conversely a number that was read is a run of digits. */
  lemma {:induction false} DigitsWere(s: string, i: nat, k: nat)
    requires i <= k <= |s| && (forall x :: i <= x < k ==> IsDigit(s[x])) && NumVal(s, i, k) <= LONG_MAX
    requires Digits(s, k, NumVal(s, i, k)).Ok?
    ensures var r := Digits(s, k, NumVal(s, i, k));
            (forall x :: i <= x < r.pos ==> IsDigit(s[x])) && r.v == NumVal(s, i, r.pos)
    decreases |s| - k
  {
    if k < |s| && IsDigit(s[k]) {
      DigitsWere(s, i, k + 1);
    }
  }

  // ---- completeness: what the grammar derives, the parser computes ------

  /** `r` is what evaluating `e` gives, ending at `j`. */
  predicate Gives(r: Parse, e: Expr, j: nat) {
    match Eval(e)
    case Value(v) => r == Ok(v, j)
    case Fail(err) => r == Bad(err)
  }

  lemma CompleteNumber(s: string, i: nat, j: nat, e: Expr, d: nat)
    requires i <= |s| && e.Num? && PrimaryAt(s, i, j, e) && NoDigit(s, j)
    ensures Gives(Primary(s, i, d), e, j)
  {
    hide ParseExpr;
    var k: nat :| Blank(s, i, k) && DigitsAt(s, k, j) && NumVal(s, k, j) == e.n;
    SkipTo(s, i, k);
    DigitsRead(s, k, k, j);
  }

  /** The two parentheses and what is between them. */
  lemma SplitParen(s: string, i: nat, j: nat, e: Expr) returns (k: nat, m: nat)
    requires i <= |s| && e.Paren? && PrimaryAt(s, i, j, e)
    ensures k < |s| && Skip(s, i) == k && s[k] == '(' && ExprAt(s, k + 1, m, e.e) && m < j <= |s|
    ensures NoDigit(s, m) && Skip(s, m) == j - 1 && Skip(s, j - 1) == j - 1 && s[j - 1] == ')'
  {
    hide ExprAt;
    var q: nat;
    k, m, q :| Blank(s, i, k) && k < |s| && s[k] == '(' && ExprAt(s, k + 1, m, e.e)
      && Blank(s, m, q) && q < |s| && s[q] == ')' && j == q + 1;
    SkipTo(s, i, k);
    SkipTo(s, m, q);
    SkipTo(s, q, q);
  }

  lemma {:induction false} CompletePrimary(s: string, i: nat, j: nat, e: Expr, d: nat)
    requires i <= |s| && PrimaryAt(s, i, j, e) && NoDigit(s, j)
    requires e.Paren? ==> ExprFits(e.e, d)
    ensures Gives(Primary(s, i, d), e, j)
    decreases e, 0
  {
    hide ParseExpr, ExprAt, ExprFits, Skip, Digits, Blank;
    match e
    case Num(n) =>
      CompleteNumber(s, i, j, e, d);
    case Paren(x) =>
      var k, m := SplitParen(s, i, j, e);
      CompleteExpr(s, k + 1, m, x, d);
  }

  lemma {:induction false} CompleteUnary(s: string, i: nat, j: nat, e: Expr, d: nat)
    requires i <= |s| && UnaryAt(s, i, j, e) && NoDigit(s, j) && UnaryFits(e, d)
    ensures Gives(Unary(s, i, d), e, j)
    decreases e, 2
  {
    hide Unary, Gives;
    match e
    case Neg(_) =>
      CompleteSigned(s, i, j, e, d);
    case Pos(_) =>
      CompleteSigned(s, i, j, e, d);
    case Num(_) =>
      CompleteStart(s, i, j, e, d);
    case Paren(_) =>
      CompleteStart(s, i, j, e, d);
    case Bin(_, _, _) =>
  }

  lemma {:induction false} CompleteSigned(s: string, i: nat, j: nat, e: Expr, d: nat)
    requires i <= |s| && UnaryAt(s, i, j, e) && NoDigit(s, j) && UnaryFits(e, d) && (e.Neg? || e.Pos?)
    ensures Gives(Unary(s, i, d), e, j)
    decreases e, 1
  {
    hide Primary, PrimaryAt, ExprFits;
    var c := if e.Neg? then '-' else '+';
    var k: nat :| Blank(s, i, k) && k < |s| && s[k] == c && UnaryAt(s, k + 1, j, e.e);
    SkipTo(s, i, k);
    CompleteUnary(s, k + 1, j, e.e, d + 1);
  }

  lemma {:induction false} CompleteStart(s: string, i: nat, j: nat, e: Expr, d: nat)
    requires i <= |s| && PrimaryAt(s, i, j, e) && NoDigit(s, j) && d < MAX_DEPTH
    requires e.Paren? ==> ExprFits(e.e, d + 1)
    ensures Gives(Unary(s, i, d), e, j)
    decreases e, 1
  {
    hide Primary, PrimaryAt, Digits, ExprFits, Eval;
    PrimaryStart(s, i, j, e);
    CompletePrimary(s, Skip(s, i), j, e, d + 1);
  }

  /** A primary starts, after blanks, with a digit or a parenthesis. */
  lemma PrimaryStart(s: string, i: nat, j: nat, e: Expr)
    requires i <= |s| && PrimaryAt(s, i, j, e)
    ensures var k := Skip(s, i);
            k < |s| && (IsDigit(s[k]) || s[k] == '(') && PrimaryAt(s, k, j, e)
  {
    match e
    case Num(n) =>
      var k: nat :| Blank(s, i, k) && DigitsAt(s, k, j) && NumVal(s, k, j) == n;
      SkipTo(s, i, k);
      assert Blank(s, k, k);
    case Paren(x) =>
      var k: nat, m: nat, q: nat :| Blank(s, i, k) && k < |s| && s[k] == '(' && ExprAt(s, k + 1, m, x)
        && Blank(s, m, q) && q < |s| && s[q] == ')' && j == q + 1;
      SkipTo(s, i, k);
      assert Blank(s, k, k);
  }

  /** What parsing a term comes to when the part up to `j` has been read. */
  predicate GivesTerm(s: string, r: Parse, e: Expr, j: nat, d: nat)
    requires j <= |s|
  {
    match Eval(e)
    case Value(v) => r == TermRest(s, j, v, d)
    case Fail(err) => r == Bad(err)
  }

  predicate GivesExpr(s: string, r: Parse, e: Expr, j: nat, d: nat)
    requires j <= |s|
  {
    match Eval(e)
    case Value(v) => r == ExprRest(s, j, v, d)
    case Fail(err) => r == Bad(err)
  }

  /** The last operator of a term and what it joins. */
  lemma SplitTerm(s: string, i: nat, j: nat, e: Expr, d: nat) returns (k: nat, m: nat)
    requires i <= |s| && TermAt(s, i, j, e) && TermFits(e, d) && e.Bin? && !IsAdditive(e.op)
    ensures TermAt(s, i, k, e.l) && Blank(s, k, m) && m < |s| && s[m] == OpChar(e.op) && UnaryAt(s, m + 1, j, e.r)
    ensures NoDigit(s, k) && TermFits(e.l, d) && UnaryFits(e.r, d)
  {
    hide UnaryAt, UnaryFits;
    k, m :| TermAt(s, i, k, e.l) && Blank(s, k, m) && m < |s| && s[m] == OpChar(e.op) && UnaryAt(s, m + 1, j, e.r);
  }

  lemma {:induction false} CompleteTerm(s: string, i: nat, j: nat, e: Expr, d: nat)
    requires i <= |s| && TermAt(s, i, j, e) && NoDigit(s, j) && TermFits(e, d)
    ensures GivesTerm(s, ParseTerm(s, i, d), e, j, d)
    decreases e, 3
  {
    hide UnaryAt, UnaryFits, Unary;
    if e.Bin? && !IsAdditive(e.op) {
      var k, m := SplitTerm(s, i, j, e, d);
      CompleteTerm(s, i, k, e.l, d);
      SkipTo(s, k, m);
      CompleteUnary(s, m + 1, j, e.r, d);
    } else {
      CompleteUnary(s, i, j, e, d);
    }
  }

  /** After blanks, no operator of a term follows. */
  predicate TermStops(s: string, j: nat) { NoDigit(s, j) && !IsTermOp(Peek(s, Skip(s, j))) }

  lemma TermRestStops(s: string, j: nat, v: int, d: nat)
    requires TermStops(s, j) && Fits64(v)
    ensures TermRest(s, j, v, d) == Ok(v, Skip(s, j))
  {
  }

  lemma ExprRestSkip(s: string, j: nat, v: int, d: nat)
    requires j <= |s| && Fits64(v)
    ensures ExprRest(s, Skip(s, j), v, d) == ExprRest(s, j, v, d)
  {
    SkipBlank(s, j, Skip(s, j));
  }

  /** An expression that is a single term. */
  lemma ExprOfTerm(s: string, i: nat, j: nat, e: Expr, d: nat)
    requires i <= |s| && d < MAX_DEPTH && TermStops(s, j) && GivesTerm(s, ParseTerm(s, i, d + 1), e, j, d + 1)
    ensures GivesExpr(s, ParseExpr(s, i, d), e, j, d)
  {
    hide ParseTerm, TermRest, ExprRest, Eval, TermStops;
    match Eval(e)
    case Value(v) =>
      TermRestStops(s, j, v, d + 1);
      ExprRestSkip(s, j, v, d);
    case Fail(_) =>
  }

  /** One more term: the operator at `m`, its operand up to `j`. */
  lemma ExprStep(s: string, r: Parse, k: nat, m: nat, j: nat, e: Expr, d: nat)
    requires e.Bin? && IsAdditive(e.op) && TermStops(s, j)
    requires Blank(s, k, m) && m < |s| && s[m] == OpChar(e.op)
    requires GivesExpr(s, r, e.l, k, d) && GivesTerm(s, ParseTerm(s, m + 1, d + 1), e.r, j, d + 1)
    ensures GivesExpr(s, r, e, j, d)
  {
    hide ParseTerm, TermRest;
    SkipTo(s, k, m);
    if Eval(e.r).Value? {
      TermRestStops(s, j, Eval(e.r).v, d + 1);
    }
    if Eval(e).Value? {
      ExprRestSkip(s, j, Eval(e).v, d);
    }
  }

  /** The last operator of an expression and what it joins. */
  lemma SplitExpr(s: string, i: nat, j: nat, e: Expr, d: nat) returns (k: nat, m: nat)
    requires i <= |s| && ExprAt(s, i, j, e) && TermStops(s, j) && ExprFits(e, d) && e.Bin? && IsAdditive(e.op)
    ensures ExprAt(s, i, k, e.l) && Blank(s, k, m) && m < |s| && s[m] == OpChar(e.op) && TermAt(s, m + 1, j, e.r)
    ensures k <= |s| && TermStops(s, k) && ExprFits(e.l, d) && TermFits(e.r, d + 1)
  {
    hide TermAt, TermFits;
    k, m :| ExprAt(s, i, k, e.l) && Blank(s, k, m) && m < |s| && s[m] == OpChar(e.op) && TermAt(s, m + 1, j, e.r);
    SkipTo(s, k, m);
  }

  lemma OneTerm(s: string, i: nat, j: nat, e: Expr, d: nat)
    requires ExprAt(s, i, j, e) && ExprFits(e, d) && !(e.Bin? && IsAdditive(e.op))
    ensures TermAt(s, i, j, e) && TermFits(e, d + 1) && d < MAX_DEPTH
  {
  }

  lemma {:induction false} CompleteExpr'(s: string, i: nat, j: nat, e: Expr, d: nat)
    requires i <= |s| && ExprAt(s, i, j, e) && TermStops(s, j) && ExprFits(e, d)
    ensures GivesExpr(s, ParseExpr(s, i, d), e, j, d)
    decreases e, 4
  {
    hide ParseExpr, TermAt, TermFits, GivesExpr, GivesTerm, ExprAt, ExprFits, Blank;
    if e.Bin? && IsAdditive(e.op) {
      var k, m := SplitExpr(s, i, j, e, d);
      CompleteExpr'(s, i, k, e.l, d);
      CompleteTerm(s, m + 1, j, e.r, d + 1);
      ExprStep(s, ParseExpr(s, i, d), k, m, j, e, d);
    } else {
      OneTerm(s, i, j, e, d);
      CompleteTerm(s, i, j, e, d + 1);
      ExprOfTerm(s, i, j, e, d);
    }
  }

  /** ... and none of an expression either: the parse ends there. */
  lemma {:induction false} CompleteExpr(s: string, i: nat, j: nat, e: Expr, d: nat)
    requires i <= |s| && ExprAt(s, i, j, e) && TermStops(s, j) && !IsExprOp(Peek(s, Skip(s, j))) && ExprFits(e, d)
    ensures Gives(ParseExpr(s, i, d), e, Skip(s, j))
    decreases e, 5
  {
    CompleteExpr'(s, i, j, e, d);
  }

  // ---- soundness: what the parser accepts, the grammar derives ----------

  lemma {:induction false} SoundPrimary(s: string, p: nat, d: nat) returns (e: Expr)
    requires p <= |s| && Primary(s, p, d).Ok?
    ensures PrimaryAt(s, p, Primary(s, p, d).pos, e) && Eval(e) == Value(Primary(s, p, d).v)
    ensures (e.Num? || e.Paren?) && (e.Paren? ==> ExprFits(e.e, d))
    decreases |s| - p, 0
  {
    var k := Skip(s, p);
    if Peek(s, k) == '(' {
      var r := ParseExpr(s, k + 1, d);
      var x, j := SoundExpr(s, k + 1, d);
      e := Paren(x);
      var q := Skip(s, r.pos);
      SkipBlank(s, j, r.pos);
      assert Blank(s, j, q);
      assert PrimaryAt(s, p, q + 1, e);
    } else {
      DigitsWere(s, k, k);
      var r := Digits(s, k, 0);
      e := Num(r.v);
      assert Digits(s, k, 0) == Digits(s, k + 1, DigitValue(s[k]));
      assert DigitsAt(s, k, r.pos);
    }
  }

  lemma SignEval(x: Expr)
    requires Eval(x).Value?
    ensures Eval(Pos(x)) == Eval(x)
    ensures Eval(Neg(x)) == if Eval(x).v == LONG_MIN then Fail(Overflow) else Value(-Eval(x).v)
  {
  }

  lemma {:induction false} SoundUnary(s: string, p: nat, d: nat) returns (e: Expr)
    requires p <= |s| && Unary(s, p, d).Ok?
    ensures UnaryAt(s, p, Unary(s, p, d).pos, e) && Eval(e) == Value(Unary(s, p, d).v)
    ensures UnaryFits(e, d) && !e.Bin?
    decreases |s| - p, 1
  {
    hide Eval, PrimaryAt;
    var k := Skip(s, p);
    if Peek(s, k) == '-' {
      var x := SoundUnary(s, k + 1, d + 1);
      e := Neg(x);
      SignEval(x);
    } else if Peek(s, k) == '+' {
      var x := SoundUnary(s, k + 1, d + 1);
      e := Pos(x);
      SignEval(x);
    } else {
      e := SoundPrimary(s, k, d + 1);
      PrimaryBlank(s, p, k, Unary(s, p, d).pos, e);
    }
  }

  lemma PrimaryBlank(s: string, p: nat, k: nat, j: nat, e: Expr)
    requires Blank(s, p, k) && PrimaryAt(s, k, j, e)
    ensures PrimaryAt(s, p, j, e)
  {
    match e
    case Num(n) =>
      var m: nat :| Blank(s, k, m) && DigitsAt(s, m, j) && NumVal(s, m, j) == n;
      assert Blank(s, p, m);
    case Paren(x) =>
      var a: nat, m: nat, q: nat :| Blank(s, k, a) && a < |s| && s[a] == '(' && ExprAt(s, a + 1, m, x)
        && Blank(s, m, q) && q < |s| && s[q] == ')' && j == q + 1;
      assert Blank(s, p, a);
  }

  lemma {:induction false} SoundTerm(s: string, p: nat, d: nat) returns (e: Expr, j: nat)
    requires p <= |s| && ParseTerm(s, p, d).Ok?
    ensures p < j <= |s| && TermAt(s, p, j, e) && Skip(s, j) == ParseTerm(s, p, d).pos
    ensures Eval(e) == Value(ParseTerm(s, p, d).v) && TermFits(e, d) && !(e.Bin? && IsAdditive(e.op))
    decreases |s| - p, 2
  {
    var r := Unary(s, p, d);
    var u := SoundUnary(s, p, d);
    e, j := SoundTermRest(s, p, r.pos, u, d);
  }

  /** The term read so far is `t`, ending at `p`. */
  lemma {:induction false} SoundTermRest(s: string, i: nat, p: nat, t: Expr, d: nat) returns (e: Expr, j: nat)
    requires i < p <= |s| && TermAt(s, i, p, t) && TermFits(t, d) && !(t.Bin? && IsAdditive(t.op))
    requires Eval(t).Value? && TermRest(s, p, Eval(t).v, d).Ok?
    ensures i < j <= |s| && TermAt(s, i, j, e) && Skip(s, j) == TermRest(s, p, Eval(t).v, d).pos
    ensures Eval(e) == Value(TermRest(s, p, Eval(t).v, d).v) && TermFits(e, d) && !(e.Bin? && IsAdditive(e.op))
    decreases |s| - p, 2
  {
    hide UnaryFits, UnaryAt;
    var k := Skip(s, p);
    var op := Peek(s, k);
    if !IsTermOp(op) {
      e, j := t, p;
    } else {
      var r := Unary(s, k + 1, d);
      var u := SoundUnary(s, k + 1, d);
      var t' := Bin(OpOf(op), t, u);
      assert TermAt(s, i, r.pos, t');
      assert Eval(t') == Apply(OpOf(op), Eval(t).v, r.v);
      e, j := SoundTermRest(s, i, r.pos, t', d);
    }
  }

  lemma {:induction false} SoundExpr(s: string, p: nat, d: nat) returns (e: Expr, j: nat)
    requires p <= |s| && ParseExpr(s, p, d).Ok?
    ensures j <= |s| && ExprAt(s, p, j, e) && Skip(s, j) == ParseExpr(s, p, d).pos
    ensures Eval(e) == Value(ParseExpr(s, p, d).v) && ExprFits(e, d)
    decreases |s| - p, 3
  {
    var r := ParseTerm(s, p, d + 1);
    var t, k := SoundTerm(s, p, d + 1);
    ExprRestSkip(s, k, r.v, d);
    e, j := SoundExprRest(s, p, k, t, d);
  }

  /** The expression read so far is `t`, ending at `p`. */
  lemma {:induction false} SoundExprRest(s: string, i: nat, p: nat, t: Expr, d: nat) returns (e: Expr, j: nat)
    requires i < p <= |s| && ExprAt(s, i, p, t) && ExprFits(t, d)
    requires Eval(t).Value? && ExprRest(s, p, Eval(t).v, d).Ok?
    ensures j <= |s| && ExprAt(s, i, j, e) && Skip(s, j) == ExprRest(s, p, Eval(t).v, d).pos
    ensures Eval(e) == Value(ExprRest(s, p, Eval(t).v, d).v) && ExprFits(e, d)
    decreases |s| - p, 3
  {
    hide TermFits, TermAt, ParseTerm;
    var k := Skip(s, p);
    var op := Peek(s, k);
    if !IsExprOp(op) {
      e, j := t, p;
    } else {
      var r := ParseTerm(s, k + 1, d + 1);
      var u, m := SoundTerm(s, k + 1, d + 1);
      var t' := Bin(OpOf(op), t, u);
      assert ExprAt(s, i, m, t');
      assert Eval(t') == Apply(OpOf(op), Eval(t).v, r.v);
      ExprRestSkip(s, m, Eval(t').v, d);
      e, j := SoundExprRest(s, i, m, t', d);
    }
  }

  // ---- the theorem ------------------------------------------------------

  /** calc prints `v` exactly when its input is an expression within the depth
      cap whose evaluation is exact, fits 64 bits throughout and yields `v`. */
  lemma CalcIsExact(s: string, v: int)
    ensures Run(s) == Value(v) <==> exists e :: Sentence(s, e) && ExprFits(e, 0) && Eval(e) == Value(v)
  {
    if Run(s) == Value(v) {
      var e, j := SoundExpr(s, 0, 0);
      var q := ParseExpr(s, 0, 0).pos;
      SkipBlank(s, j, q);
      assert Blank(s, j, |s|);
      assert Sentence(s, e);
    }
    if e :| Sentence(s, e) && ExprFits(e, 0) && Eval(e) == Value(v) {
      CalcEvaluates(s, e);
    }
  }

  /** On an expression within the depth cap calc reports its value, or the first
      overflow or division by zero met left to right. */
  lemma CalcEvaluates(s: string, e: Expr)
    requires Sentence(s, e) && ExprFits(e, 0)
    ensures Run(s) == Eval(e)
  {
    var j: nat :| ExprAt(s, 0, j, e) && Blank(s, j, |s|);
    SkipTo(s, j, |s|);
    SkipTo(s, |s|, |s|);
    assert NoDigit(s, j);
    CompleteExpr(s, 0, j, e, 0);
  }

  // ---- printed trees ----------------------------------------------------

  function Print(e: Expr): string {
    match e
    case Num(n) => Decimal(n)
    case Paren(x) => "(" + Print(x) + ")"
    case Neg(x) => "-" + Print(x)
    case Pos(x) => "+" + Print(x)
    case Bin(op, l, r) => Print(l) + [OpChar(op)] + Print(r)
  }

  /** The tree has parentheses wherever the grammar wants them. */
  predicate ShapedExpr(e: Expr)
    decreases e, 3
  {
    if e.Bin? && IsAdditive(e.op) then ShapedExpr(e.l) && ShapedTerm(e.r) else ShapedTerm(e)
  }

  predicate ShapedTerm(e: Expr)
    decreases e, 2
  {
    if e.Bin? && !IsAdditive(e.op) then ShapedTerm(e.l) && ShapedUnary(e.r) else ShapedUnary(e)
  }

  predicate ShapedUnary(e: Expr)
    decreases e, 1
  {
    match e
    case Neg(x) => ShapedUnary(x)
    case Pos(x) => ShapedUnary(x)
    case Num(_) => true
    case Paren(x) => ShapedExpr(x)
    case Bin(_, _, _) => false
  }

  /** Every tree the grammar has is of that shape. */
  lemma {:induction false} UnaryShaped(s: string, i: nat, j: nat, e: Expr)
    requires UnaryAt(s, i, j, e)
    ensures ShapedUnary(e)
    decreases e, 1
  {
    match e
    case Neg(x) =>
      var k: nat :| UnaryAt(s, k + 1, j, x);
      UnaryShaped(s, k + 1, j, x);
    case Pos(x) =>
      var k: nat :| UnaryAt(s, k + 1, j, x);
      UnaryShaped(s, k + 1, j, x);
    case Num(_) =>
    case Paren(x) =>
      var k: nat, m: nat :| ExprAt(s, k + 1, m, x);
      ExprShaped(s, k + 1, m, x);
    case Bin(_, _, _) =>
  }

  lemma {:induction false} TermShaped(s: string, i: nat, j: nat, e: Expr)
    requires TermAt(s, i, j, e)
    ensures ShapedTerm(e)
    decreases e, 2
  {
    if e.Bin? && !IsAdditive(e.op) {
      var k: nat, m: nat :| TermAt(s, i, k, e.l) && UnaryAt(s, m + 1, j, e.r);
      TermShaped(s, i, k, e.l);
      UnaryShaped(s, m + 1, j, e.r);
    } else {
      UnaryShaped(s, i, j, e);
    }
  }

  lemma {:induction false} ExprShaped(s: string, i: nat, j: nat, e: Expr)
    requires ExprAt(s, i, j, e)
    ensures ShapedExpr(e)
    decreases e, 3
  {
    if e.Bin? && IsAdditive(e.op) {
      var k: nat, m: nat :| ExprAt(s, i, k, e.l) && TermAt(s, m + 1, j, e.r);
      ExprShaped(s, i, k, e.l);
      TermShaped(s, m + 1, j, e.r);
    } else {
      TermShaped(s, i, j, e);
    }
  }

  lemma {:induction false} DecimalDigits(n: nat)
    ensures |Decimal(n)| > 0 && forall i :: 0 <= i < |Decimal(n)| ==> IsDigit(Decimal(n)[i])
  {
    if n >= 10 { DecimalDigits(n / 10); }
  }

  lemma DecimalStep(n: nat)
    ensures Decimal(n) == if n < 10 then [DigitChar(n)] else Decimal(n / 10) + [DigitChar(n % 10)]
  {
  }

  lemma {:induction false} DecimalValue(n: nat, a: string, b: string)
    ensures var s := a + Decimal(n) + b;
            DigitsAt(s, |a|, |a| + |Decimal(n)|) && NumVal(s, |a|, |a| + |Decimal(n)|) == n
    decreases n
  {
    hide Decimal;
    DecimalDigits(n);
    DecimalStep(n);
    var s, j := a + Decimal(n) + b, |a| + |Decimal(n)|;
    assert forall i :: |a| <= i < j ==> s[i] == Decimal(n)[i - |a|];
    if n >= 10 {
      var c := [('0' as int + n % 10) as char];
      assert s == a + Decimal(n / 10) + (c + b);
      DecimalValue(n / 10, a, c + b);
    }
  }

  lemma {:induction false} PrintUnary(e: Expr, a: string, b: string)
    requires ShapedUnary(e)
    ensures UnaryAt(a + Print(e) + b, |a|, |a| + |Print(e)|, e)
    decreases e, 1
  {
    hide NumVal, DigitsAt;
    var s, i, j := a + Print(e) + b, |a|, |a| + |Print(e)|;
    assert Blank(s, i, i);
    match e
    case Num(n) =>
      DecimalValue(n, a, b);
    case Neg(x) =>
      assert s == (a + "-") + Print(x) + b;
      PrintUnary(x, a + "-", b);
      assert s[i] == '-';
    case Pos(x) =>
      assert s == (a + "+") + Print(x) + b;
      PrintUnary(x, a + "+", b);
      assert s[i] == '+';
    case Paren(x) =>
      PrintParen(x, a, b);
  }

  lemma PrintParen(x: Expr, a: string, b: string)
    requires ShapedExpr(x)
    ensures UnaryAt(a + Print(Paren(x)) + b, |a|, |a| + |Print(Paren(x))|, Paren(x))
    decreases x, 4
  {
    var s, i, j := a + Print(Paren(x)) + b, |a|, |a| + |Print(Paren(x))|;
    assert s == (a + "(") + Print(x) + (")" + b);
    PrintExpr(x, a + "(", ")" + b);
    assert s[i] == '(' && s[j - 1] == ')';
    assert Blank(s, i, i) && Blank(s, j - 1, j - 1);
  }

  lemma UnaryIsTerm(s: string, i: nat, j: nat, e: Expr)
    requires UnaryAt(s, i, j, e) && !(e.Bin? && !IsAdditive(e.op))
    ensures TermAt(s, i, j, e)
  {
  }

  lemma TermIsExpr(s: string, i: nat, j: nat, e: Expr)
    requires TermAt(s, i, j, e) && !(e.Bin? && IsAdditive(e.op))
    ensures ExprAt(s, i, j, e)
  {
  }

  lemma JoinTerm(s: string, i: nat, m: nat, j: nat, e: Expr)
    requires e.Bin? && !IsAdditive(e.op) && TermAt(s, i, m, e.l)
    requires m < |s| && s[m] == OpChar(e.op) && UnaryAt(s, m + 1, j, e.r)
    ensures TermAt(s, i, j, e)
  {
    hide UnaryAt;
    assert Blank(s, m, m);
  }

  lemma JoinExpr(s: string, i: nat, m: nat, j: nat, e: Expr)
    requires e.Bin? && IsAdditive(e.op) && ExprAt(s, i, m, e.l)
    requires m < |s| && s[m] == OpChar(e.op) && TermAt(s, m + 1, j, e.r)
    ensures ExprAt(s, i, j, e)
  {
    hide TermAt;
    assert Blank(s, m, m);
  }

  lemma {:induction false} PrintTerm(e: Expr, a: string, b: string)
    requires ShapedTerm(e)
    ensures TermAt(a + Print(e) + b, |a|, |a| + |Print(e)|, e)
    decreases e, 2
  {
    hide UnaryAt, TermAt;
    if e.Bin? && !IsAdditive(e.op) {
      var s, m := a + Print(e) + b, |a| + |Print(e.l)|;
      var o := [OpChar(e.op)];
      assert s == a + Print(e.l) + (o + Print(e.r) + b);
      PrintTerm(e.l, a, o + Print(e.r) + b);
      assert s == (a + Print(e.l) + o) + Print(e.r) + b;
      PrintUnary(e.r, a + Print(e.l) + o, b);
      JoinTerm(s, |a|, m, |a| + |Print(e)|, e);
    } else {
      PrintUnary(e, a, b);
      UnaryIsTerm(a + Print(e) + b, |a|, |a| + |Print(e)|, e);
    }
  }

  lemma {:induction false} PrintExpr(e: Expr, a: string, b: string)
    requires ShapedExpr(e)
    ensures ExprAt(a + Print(e) + b, |a|, |a| + |Print(e)|, e)
    decreases e, 3
  {
    hide ExprAt, TermAt;
    if e.Bin? && IsAdditive(e.op) {
      var s, m := a + Print(e) + b, |a| + |Print(e.l)|;
      var o := [OpChar(e.op)];
      assert s == a + Print(e.l) + (o + Print(e.r) + b);
      PrintExpr(e.l, a, o + Print(e.r) + b);
      assert s == (a + Print(e.l) + o) + Print(e.r) + b;
      PrintTerm(e.r, a + Print(e.l) + o, b);
      JoinExpr(s, |a|, m, |a| + |Print(e)|, e);
    } else {
      PrintTerm(e, a, b);
      TermIsExpr(a + Print(e) + b, |a|, |a| + |Print(e)|, e);
    }
  }

  /** Print a tree, feed it to calc: the answer is the tree's evaluation. */
  lemma PrintThenCalc(e: Expr)
    requires ShapedExpr(e) && ExprFits(e, 0)
    ensures Run(Print(e)) == Eval(e)
  {
    PrintExpr(e, "", "");
    assert "" + Print(e) + "" == Print(e);
    assert Blank(Print(e), |Print(e)|, |Print(e)|);
    assert Sentence(Print(e), e);
    CalcEvaluates(Print(e), e);
  }

  /** Exactly the trees of that shape have a text. */
  lemma ShapedExactly(e: Expr)
    ensures ShapedExpr(e) <==> exists s :: Sentence(s, e)
  {
    if ShapedExpr(e) {
      PrintExpr(e, "", "");
      assert "" + Print(e) + "" == Print(e);
      assert Blank(Print(e), |Print(e)|, |Print(e)|);
      assert Sentence(Print(e), e);
    }
    if s :| Sentence(s, e) {
      var j: nat :| ExprAt(s, 0, j, e) && Blank(s, j, |s|);
      ExprShaped(s, 0, j, e);
    }
  }
}

module Calc {
  import opened Characters
  import opened Grammar
  import opened CalcParser

  datatype Flag = NoError | Error(err: Err)

  /** Division by anything but -1 cannot leave 64 bits. */
  lemma DivisionFits(a: int, b: int)
    requires Fits64(a) && b != 0
    ensures b == -1 ==> TruncDiv(a, b) == -a && TruncMod(a, b) == 0
    ensures b != -1 ==> Fits64(TruncDiv(a, b))
    ensures Fits64(TruncMod(a, b))
  {
    RemainderAbs(a, b);
    if Abs(b) >= 2 {
      HalfAtMost(Abs(a), Abs(b));
    } else {
      assert Abs(a) / 1 == Abs(a);
    }
  }

  /** Division rounds towards zero: the rest is smaller than the divisor and has the
      sign of the dividend. */
  lemma Division(a: int, b: int)
    requires b != 0
    ensures a == b * TruncDiv(a, b) + TruncMod(a, b)
    ensures Abs(TruncMod(a, b)) < Abs(b)
    ensures (a >= 0 ==> TruncMod(a, b) >= 0) && (a <= 0 ==> TruncMod(a, b) <= 0)
  {
    RemainderAbs(a, b);
  }

  /** The 64-bit range is used to its ends, and no further. */
  lemma Extremes()
    ensures var max := 0x7FFF_FFFF_FFFF_FFFF;
            && Eval(Num(max)) == Value(max) && Eval(Num(max + 1)) == Fail(Overflow)
            && Eval(Bin(Add, Num(max), Num(1))) == Fail(Overflow)
            && Eval(Bin(Sub, Neg(Num(max)), Num(1))) == Value(-max - 1)
            && Eval(Bin(Sub, Neg(Num(max)), Num(2))) == Fail(Overflow)
            && Eval(Neg(Paren(Bin(Sub, Neg(Num(max)), Num(1))))) == Fail(Overflow)
  {
    var max := 0x7FFF_FFFF_FFFF_FFFF;
    assert Eval(Num(max)) == Value(max) && Eval(Neg(Num(max))) == Value(-max);
    assert Eval(Bin(Sub, Neg(Num(max)), Num(1))) == Value(-max - 1);
  }

  lemma RemainderAbs(a: int, b: int)
    requires b != 0
    ensures TruncMod(a, b) == if a >= 0 then Abs(a) % Abs(b) else -(Abs(a) % Abs(b))
    ensures Abs(a) % Abs(b) <= Abs(a)
  {
    var n: int, m: int := Abs(a), Abs(b);
    DivideAndRest(n, m);
    Signed(b, n / m);
    Signed(b, -(n / m));
  }

  lemma DivideAndRest(n: nat, m: nat)
    requires 0 < m
    ensures n == m * (n / m) + n % m && n % m <= n
  {
    assert 0 <= m * (n / m);
  }

  lemma Signed(b: int, q: int)
    ensures b * q == if b > 0 then Abs(b) * q else -(Abs(b) * q)
    ensures Abs(b) * -q == -(Abs(b) * q)
  {
  }

  lemma HalfAtMost(n: nat, m: nat)
    requires 2 <= m
    ensures n / m <= n / 2
  {
    var q := n / m;
    assert m * q <= n;
    assert 2 * q <= m * q;
  }

  class Calculator {
    const s: string
    var p: nat          // g_p
    var err: Flag       // g_err
    var depth: nat      // g_depth

    constructor (s: string)
      ensures this.s == s && p == 0 && err == NoError && depth == 0
    {
      this.s, p, err, depth := s, 0, NoError, 0;
    }

    /** The globals after a call that should have computed `r`. */
    ghost predicate Agrees(r: Parse, v: int)
      reads this
    {
      p <= |s| && if r.Ok? then err == NoError && v == r.v && p == r.pos else err == Error(r.err)
    }

    method SkipWs()
      requires p <= |s|
      modifies this`p
      ensures p == Skip(s, old(p))
    {
      while Peek(s, p) == ' ' || Peek(s, p) == '\t'
        invariant p <= |s| && Skip(s, p) == Skip(s, old(p))
        decreases |s| - p
      {
        p := p + 1;
      }
    }

    method Number() returns (v: int)
      requires p <= |s| && err == NoError
      modifies this`p, this`err
      ensures Agrees(Digits(s, old(p), 0), v)
    {
      v := 0;
      while '0' <= Peek(s, p) <= '9'
        invariant p <= |s| && err == NoError && 0 <= v <= LONG_MAX
        invariant Digits(s, p, v) == Digits(s, old(p), 0)
        decreases |s| - p
      {
        var d := DigitValue(Peek(s, p));
        if v > (LONG_MAX - d) / 10 {
          err := Error(Overflow);
          return 0;
        }
        v := v * 10 + d;
        p := p + 1;
      }
    }

    method PrimaryM() returns (v: int)
      requires p <= |s| && err == NoError
      modifies this
      ensures Agrees(Primary(s, old(p), old(depth)), v) && depth == old(depth)
      decreases |s| - p, 0
    {
      SkipWs();
      if Peek(s, p) == '(' {
        p := p + 1;
        v := ExprM();
        SkipWs();
        if Peek(s, p) != ')' {
          if err == NoError {
            err := Error(Syntax);
          }
          return 0;
        }
        p := p + 1;
        return;
      }
      if Peek(s, p) < '0' || Peek(s, p) > '9' {
        err := Error(Syntax);
        return 0;
      }
      v := Number();
    }

    method UnaryM() returns (v: int)
      requires p <= |s| && err == NoError
      modifies this
      ensures Agrees(Unary(s, old(p), old(depth)), v) && depth == old(depth)
      decreases |s| - p, 1
    {
      if depth >= MAX_DEPTH {
        err := Error(Syntax);
        return 0;
      }
      SkipWs();
      if Peek(s, p) == '-' {
        p := p + 1;
        depth := depth + 1;
        v := UnaryM();
        depth := depth - 1;
        if err != NoError {
          return 0;
        }
        if v == LONG_MIN {
          err := Error(Overflow);
          return 0;
        }
        return -v;
      }
      if Peek(s, p) == '+' {
        p := p + 1;
        depth := depth + 1;
        v := UnaryM();
        depth := depth - 1;
        return;
      }
      depth := depth + 1;
      v := PrimaryM();
      depth := depth - 1;
    }

    /** v op r, with the divide fault of LONG_MIN / -1 avoided. */
    method TermOp(op: char, v: int, r: int) returns (w: int)
      requires IsTermOp(op) && Fits64(v) && Fits64(r) && err == NoError
      modifies this`err
      ensures var a := Apply(OpOf(op), v, r);
              if a.Value? then err == NoError && w == a.v else err == Error(a.err)
    {
      w := 0;
      if r != 0 {
        DivisionFits(v, r);
      }
      if op == '*' {
        w := v * r;
        if !Fits64(w) {
          err := Error(Overflow);
        }
      } else if r == 0 {
        err := Error(DivZero);
      } else if r == -1 {
        if op != '/' {
          w := 0;
        } else if v == LONG_MIN {
          err := Error(Overflow);
        } else {
          w := -v;
        }
      } else if op == '/' {
        w := TruncDiv(v, r);
      } else {
        w := TruncMod(v, r);
      }
    }

    method TermM() returns (v: int)
      requires p <= |s| && err == NoError
      modifies this
      ensures Agrees(ParseTerm(s, old(p), old(depth)), v) && depth == old(depth)
      decreases |s| - p, 2
    {
      hide Unary;
      v := UnaryM();
      if err != NoError {
        return 0;
      }
      ghost var r0 := ParseTerm(s, old(p), old(depth));
      while true
        invariant p <= |s| && p > old(p) && err == NoError && depth == old(depth) && Fits64(v)
        invariant r0 == TermRest(s, p, v, depth)
        decreases |s| - p
      {
        SkipWs();
        var op := Peek(s, p);
        if op != '*' && op != '/' && op != '%' {
          return;
        }
        p := p + 1;
        var r := UnaryM();
        if err != NoError {
          return 0;
        }
        v := TermOp(op, v, r);
        if err != NoError {
          return 0;
        }
      }
    }

    method ExprM() returns (v: int)
      requires p <= |s| && err == NoError
      modifies this
      ensures Agrees(ParseExpr(s, old(p), old(depth)), v) && depth == old(depth)
      decreases |s| - p, 3
    {
      hide ParseTerm, Skip;
      if depth >= MAX_DEPTH {
        err := Error(Syntax);
        return 0;
      }
      depth := depth + 1;
      v := TermM();
      depth := depth - 1;
      if err != NoError {
        return 0;
      }
      ghost var r0 := ParseExpr(s, old(p), old(depth));
      while true
        invariant p <= |s| && p > old(p) && err == NoError && depth == old(depth) && Fits64(v)
        invariant r0 == ExprRest(s, p, v, depth)
        decreases |s| - p
      {
        SkipWs();
        var op := Peek(s, p);
        if op != '+' && op != '-' {
          return;
        }
        p := p + 1;
        v := Operand(op, v);
        if err != NoError {
          return 0;
        }
      }
    }

    /** Read the operand of an additive operator and apply it. */
    method Operand(op: char, v: int) returns (w: int)
      requires p <= |s| && err == NoError && IsExprOp(op) && Fits64(v)
      modifies this
      ensures var r := ParseTerm(s, old(p), old(depth) + 1);
              p <= |s| && depth == old(depth) &&
              if r.Bad? then err == Error(r.err) else
              var a := Apply(OpOf(op), v, r.v);
              if a.Fail? then err == Error(a.err) else err == NoError && w == a.v && p == r.pos
      decreases |s| - p, 3
    {
      hide ParseTerm;
      depth := depth + 1;
      var r := TermM();
      depth := depth - 1;
      if err != NoError {
        return 0;
      }
      w := if op == '+' then v + r else v - r;
      if !Fits64(w) {
        err := Error(Overflow);
      }
    }

    /** The whole program on a fresh calculator. */
    method Evaluate() returns (r: Val)
      requires p == 0 && err == NoError && depth == 0
      modifies this
      ensures r == Run(s)
    {
      var v := ExprM();
      SkipWs();
      if err == NoError && p < |s| {
        err := Error(Syntax);
      }
      r := if err == NoError then Value(v) else Fail(err.err);
    }
  }
}
