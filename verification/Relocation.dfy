/** Symbol lookup and relocation of kernel/elf.c, once all objects are mapped. Which
    writes the memory manager allows is an oracle. */
module Relocations {
  import opened Bytes
  import opened Options

  const WORD: nat := 0x1_0000_0000_0000_0000

  /** A symbol table entry; `name` is None where the string table does not hold one. */
  datatype Symbol = Symbol(name: Option<string>, defined: bool, value: nat, weak: bool)

  /** A relocation, by what its type asks for. */
  datatype Reloc =
    | Nothing
    | Relative(offset: nat, addend: int)
    | Symbolic(offset: nat, sym: nat, addend: int)
    | Unknown

  /** What the dynamic section leads to: symbols, None where the file does not hold
      one, and two relocation tables, None where one is malformed. */
  datatype Dynamic = Dynamic(symbols: seq<Option<Symbol>>, rela: Option<seq<Reloc>>, plt: Option<seq<Reloc>>)

  /** A mapped object. */
  datatype Part = Part(base: nat, dyn: Dynamic)

  // ---- lookup -----------------------------------------------------------

  /** Symbol `s` of object `i` defines the name; entry 0 never does. */
  predicate Defines(parts: seq<Part>, i: nat, s: nat, name: string) {
    && i < |parts| && 1 <= s < |parts[i].dyn.symbols| && parts[i].dyn.symbols[s].Some?
    && parts[i].dyn.symbols[s].value.defined && parts[i].dyn.symbols[s].value.name == Some(name)
  }

  /** No earlier object, and no earlier symbol of the same object, defines it. */
  ghost predicate DefinesFirst(parts: seq<Part>, i: nat, s: nat, name: string) {
    && Defines(parts, i, s, name)
    && forall j: nat, t: nat :: Defines(parts, j, t, name) ==> i < j || (i == j && s <= t)
  }

  ghost predicate Undefined(parts: seq<Part>, name: string) {
    forall i: nat, s: nat :: !Defines(parts, i, s, name)
  }

  /** What a symbol reference of object `j` is bound to: its own definition, the
      first definition of its name anywhere, or for a weak one nothing. */
  ghost predicate Binds(parts: seq<Part>, j: nat, sym: nat, v: Option<nat>)
    requires j < |parts|
  {
    var syms := parts[j].dyn.symbols;
    if sym >= |syms| || syms[sym].None? then v == None
    else
      var wanted := syms[sym].value;
      if wanted.defined then v == Some((parts[j].base + wanted.value) % WORD)
      else if wanted.name.None? then v == None
      else
        && (forall i: nat, s: nat :: DefinesFirst(parts, i, s, wanted.name.value) ==>
              v == Some((parts[i].base + parts[i].dyn.symbols[s].value.value) % WORD))
        && (Undefined(parts, wanted.name.value) ==> v == if wanted.weak then Some(0) else None)
  }

  /** Some definition is the first. */
  lemma {:induction false} SomeFirst(parts: seq<Part>, i: nat, s: nat, name: string) returns (j: nat, t: nat)
    requires Defines(parts, i, s, name)
    ensures DefinesFirst(parts, j, t, name)
    decreases i, s
  {
    if k: nat, u: nat :| Defines(parts, k, u, name) && (k < i || (k == i && u < s)) {
      j, t := SomeFirst(parts, k, u, name);
    } else {
      j, t := i, s;
    }
  }

  /** A reference is bound in one way. */
  lemma BindsOnce(parts: seq<Part>, j: nat, sym: nat, v: Option<nat>, w: Option<nat>)
    requires j < |parts| && Binds(parts, j, sym, v) && Binds(parts, j, sym, w)
    ensures v == w
  {
    var syms := parts[j].dyn.symbols;
    if sym < |syms| && syms[sym].Some? && !syms[sym].value.defined && syms[sym].value.name.Some? {
      var name := syms[sym].value.name.value;
      if !Undefined(parts, name) {
        var i: nat, s: nat :| Defines(parts, i, s, name);
        var k, t := SomeFirst(parts, i, s, name);
      }
    }
  }

  /** The object that has the first definition of a name and every object that only
      refers to it agree on its address. */
  lemma OneAddress(parts: seq<Part>, i: nat, s: nat, name: string, j: nat, sym: nat, v: Option<nat>, w: Option<nat>)
    requires DefinesFirst(parts, i, s, name) && j < |parts| && sym < |parts[j].dyn.symbols|
    requires parts[j].dyn.symbols[sym].Some? && !parts[j].dyn.symbols[sym].value.defined
    requires parts[j].dyn.symbols[sym].value.name == Some(name)
    requires Binds(parts, i, s, v) && Binds(parts, j, sym, w)
    ensures v == w
  {
  }

  /** Loading the defining object elsewhere moves the address along. */
  lemma MovesAlong(parts: seq<Part>, i: nat, s: nat, d: nat, v: nat, w: nat)
    requires i < |parts| && s < |parts[i].dyn.symbols| && parts[i].dyn.symbols[s].Some?
    requires parts[i].dyn.symbols[s].value.defined
    requires Binds(parts, i, s, Some(v))
    requires Binds(parts[i := parts[i].(base := parts[i].base + d)], i, s, Some(w))
    ensures w == (v + d) % WORD
  {
    var x := parts[i].base + parts[i].dyn.symbols[s].value.value;
    assert (x % WORD + d) % WORD == (x + d) % WORD;
  }

  ghost function Value(parts: seq<Part>, j: nat, sym: nat): (v: Option<nat>)
    requires j < |parts|
    ensures Binds(parts, j, sym, v)
  {
    HasValue(parts, j, sym);
    var v :| Binds(parts, j, sym, v);
    v
  }

  lemma HasValue(parts: seq<Part>, j: nat, sym: nat)
    requires j < |parts|
    ensures exists v :: Binds(parts, j, sym, v)
  {
    var syms := parts[j].dyn.symbols;
    if sym >= |syms| || syms[sym].None? || (!syms[sym].value.defined && syms[sym].value.name.None?) {
      assert Binds(parts, j, sym, None);
    } else if syms[sym].value.defined {
      assert Binds(parts, j, sym, Some((parts[j].base + syms[sym].value.value) % WORD));
    } else if Undefined(parts, syms[sym].value.name.value) {
      assert Binds(parts, j, sym, if syms[sym].value.weak then Some(0) else None);
    } else {
      var i: nat, s: nat :| Defines(parts, i, s, syms[sym].value.name.value);
      var k, t := SomeFirst(parts, i, s, syms[sym].value.name.value);
      assert Binds(parts, j, sym, Some((parts[k].base + parts[k].dyn.symbols[t].value.value) % WORD));
    }
  }

  // ---- relocation -------------------------------------------------------

  datatype Job = Job(part: nat, reloc: Reloc)

  datatype Write = Write(target: nat, value: nat)

  function Table(t: Option<seq<Reloc>>): seq<Reloc> { if t.Some? then t.value else [] }

  function Jobs(j: nat, rs: seq<Reloc>): (r: seq<Job>)
    ensures |r| == |rs|
  {
    seq(|rs|, i requires 0 <= i < |rs| => Job(j, rs[i]))
  }

  /** All relocations of the first `n` objects, in the order they are made. */
  function JobsUpTo(parts: seq<Part>, n: nat): seq<Job>
    requires n <= |parts|
  {
    if n == 0 then []
    else JobsUpTo(parts, n - 1) + Jobs(n - 1, Table(parts[n - 1].dyn.rela)) + Jobs(n - 1, Table(parts[n - 1].dyn.plt))
  }

  /** The value a relocation stores, and where; None if there is none. */
  ghost function WriteOf(parts: seq<Part>, job: Job): Option<Write> {
    if job.part >= |parts| then None
    else
      var base := parts[job.part].base;
      match job.reloc
      case Nothing => None
      case Relative(offset, addend) => Some(Write((base + offset) % WORD, (base + addend) % WORD))
      case Symbolic(offset, sym, addend) =>
        var v := Value(parts, job.part, sym);
        if v.None? then None else Some(Write((base + offset) % WORD, (v.value + addend) % WORD))
      case Unknown => None
  }

  /** The k-th relocation goes through. */
  ghost predicate JobOk(parts: seq<Part>, granted: (nat, nat) -> bool, job: Job, k: nat) {
    job.reloc.Nothing? || (var w := WriteOf(parts, job);
                           w.Some? && w.value.target + 8 < WORD && granted(k, w.value.target))
  }

  ghost predicate JobsOk(parts: seq<Part>, granted: (nat, nat) -> bool, jobs: seq<Job>, k: nat) {
    forall i :: 0 <= i < |jobs| ==> JobOk(parts, granted, jobs[i], k + i)
  }

  /** Every table is well formed and every relocation goes through. */
  ghost predicate Relocatable(parts: seq<Part>, granted: (nat, nat) -> bool) {
    && (forall j :: 0 <= j < |parts| ==> parts[j].dyn.rela.Some? && parts[j].dyn.plt.Some?)
    && JobsOk(parts, granted, JobsUpTo(parts, |parts|), 0)
  }

  // ---- memory -----------------------------------------------------------

  function ByteOf(v: nat, i: nat): Byte
    decreases i
  {
    if i == 0 then v % 256 else ByteOf(v / 256, i - 1)
  }

  /** Memory after storing a little-endian word. */
  function Stored(mem: nat -> Byte, w: Write): nat -> Byte {
    (x: nat) => if w.target <= x < w.target + 8 then ByteOf(w.value, x - w.target) else mem(x)
  }

  /** Memory after all the relocations. */
  ghost function Applied(mem: nat -> Byte, parts: seq<Part>, jobs: seq<Job>): nat -> Byte {
    if jobs == [] then mem
    else
      var before, w := Applied(mem, parts, jobs[..|jobs| - 1]), WriteOf(parts, jobs[|jobs| - 1]);
      if w.None? then before else Stored(before, w.value)
  }

  /** The word of `n` bytes at an address. */
  function WordAt(mem: nat -> Byte, at: nat, n: nat): nat
    decreases n
  {
    if n == 0 then 0 else mem(at) + 256 * WordAt(mem, at + 1, n - 1)
  }

  function Power(n: nat): nat { if n == 0 then 1 else 256 * Power(n - 1) }

  lemma {:induction false} BytesBack(mem: nat -> Byte, at: nat, n: nat, v: nat)
    requires v < Power(n) && forall i :: 0 <= i < n ==> mem(at + i) == ByteOf(v, i)
    ensures WordAt(mem, at, n) == v
    decreases n
  {
    if n > 0 {
      assert mem(at + 0) == ByteOf(v, 0);
      forall i | 0 <= i < n - 1
        ensures mem(at + 1 + i) == ByteOf(v / 256, i)
      {
        assert mem(at + (i + 1)) == ByteOf(v, i + 1);
      }
      BytesBack(mem, at + 1, n - 1, v / 256);
    }
  }

  ghost predicate Overlap(a: Write, b: Write) { a.target < b.target + 8 && b.target < a.target + 8 }

  /** Which relocations cover an address. */
  ghost predicate Covers(parts: seq<Part>, job: Job, x: nat) {
    var w := WriteOf(parts, job);
    w.Some? && w.value.target <= x < w.value.target + 8
  }

  /** A byte is that of the last relocation that covers it, or what it was. */
  lemma {:induction false} LastWins(mem: nat -> Byte, parts: seq<Part>, jobs: seq<Job>, x: nat, k: int)
    requires -1 <= k < |jobs| && (k >= 0 ==> Covers(parts, jobs[k], x))
    requires forall i :: k < i < |jobs| ==> !Covers(parts, jobs[i], x)
    ensures Applied(mem, parts, jobs)(x) ==
      if k < 0 then mem(x)
      else var w := WriteOf(parts, jobs[k]).value; ByteOf(w.value, x - w.target)
    decreases |jobs|
  {
    hide WriteOf, ByteOf;
    if jobs != [] && k < |jobs| - 1 {
      var pre := jobs[..|jobs| - 1];
      LastWins(mem, parts, pre, x, k);
    }
  }

  /** A relocated word that no later relocation touches holds its value. */
  lemma RelocatedWord(mem: nat -> Byte, parts: seq<Part>, jobs: seq<Job>, k: nat)
    requires k < |jobs| && WriteOf(parts, jobs[k]).Some?
    requires forall i :: k < i < |jobs| && WriteOf(parts, jobs[i]).Some? ==>
      !Overlap(WriteOf(parts, jobs[k]).value, WriteOf(parts, jobs[i]).value)
    ensures var w := WriteOf(parts, jobs[k]).value;
            WordAt(Applied(mem, parts, jobs), w.target, 8) == w.value
  {
    hide Applied, ByteOf;
    var w := WriteOf(parts, jobs[k]).value;
    forall i | 0 <= i < 8
      ensures Applied(mem, parts, jobs)(w.target + i) == ByteOf(w.value, i)
    {
      LastWins(mem, parts, jobs, w.target + i, k);
    }
    ValueFits(parts, jobs[k]);
    BytesBack(Applied(mem, parts, jobs), w.target, 8, w.value);
  }

  lemma ValueFits(parts: seq<Part>, job: Job)
    requires WriteOf(parts, job).Some?
    ensures WriteOf(parts, job).value.value < Power(8)
  {
    assert Power(8) == 256 * 256 * 256 * 256 * Power(4) && Power(4) == 256 * 256 * 256 * 256;
  }

  // ---- what relocation is for -------------------------------------------

  /** A place in the relocation tables. */
  datatype Entry = Entry(part: nat, plt: bool, index: nat)

  predicate Within(parts: seq<Part>, e: Entry) {
    e.part < |parts| && e.index < |Table(if e.plt then parts[e.part].dyn.plt else parts[e.part].dyn.rela)|
  }

  function RelocAt(parts: seq<Part>, e: Entry): Reloc
    requires Within(parts, e)
  {
    Table(if e.plt then parts[e.part].dyn.plt else parts[e.part].dyn.rela)[e.index]
  }

  /** Objects in order, of each the ordinary table first, and each table in order. */
  predicate Later(e: Entry, f: Entry) {
    e.part < f.part || (e.part == f.part && ((!e.plt && f.plt) || (e.plt == f.plt && e.index < f.index)))
  }

  predicate Moves(r: Reloc) { r.Relative? || r.Symbolic? }

  function TargetOf(parts: seq<Part>, e: Entry): nat
    requires Within(parts, e) && Moves(RelocAt(parts, e))
  {
    (parts[e.part].base + RelocAt(parts, e).offset) % WORD
  }

  /** No later relocation meets its eight bytes. */
  ghost predicate Lasting(parts: seq<Part>, e: Entry)
    requires Within(parts, e) && Moves(RelocAt(parts, e))
  {
    forall f :: Within(parts, f) && Later(e, f) && Moves(RelocAt(parts, f)) ==>
      TargetOf(parts, f) + 8 <= TargetOf(parts, e) || TargetOf(parts, e) + 8 <= TargetOf(parts, f)
  }

  /** What an entry asks for is in memory: a word relative to where the object was
      loaded, or the value of the symbol. */
  ghost predicate Holds(parts: seq<Part>, mem: nat -> Byte, e: Entry)
    requires Within(parts, e)
  {
    var base := parts[e.part].base;
    match RelocAt(parts, e)
    case Nothing => true
    case Unknown => false
    case Relative(offset, addend) =>
      Lasting(parts, e) ==> WordAt(mem, (base + offset) % WORD, 8) == (base + addend) % WORD
    case Symbolic(offset, sym, addend) =>
      exists v: nat :: Binds(parts, e.part, sym, Some(v)) &&
        (Lasting(parts, e) ==> WordAt(mem, (base + offset) % WORD, 8) == (v + addend) % WORD)
  }

  /** All tables have been worked off, and nothing else has changed. */
  ghost predicate Relocated(parts: seq<Part>, mem: nat -> Byte, mem': nat -> Byte) {
    && (forall e :: Within(parts, e) ==> Holds(parts, mem', e))
    && forall x: nat :: Untouched(parts, x) ==> mem'(x) == mem(x)
  }

  ghost predicate Untouched(parts: seq<Part>, x: nat) {
    forall e :: Within(parts, e) && Moves(RelocAt(parts, e)) ==> !(TargetOf(parts, e) <= x < TargetOf(parts, e) + 8)
  }

  /** When an entry is worked off. */
  function PosOf(parts: seq<Part>, e: Entry): nat
    requires Within(parts, e)
  {
    |JobsUpTo(parts, e.part)| + (if e.plt then |Table(parts[e.part].dyn.rela)| else 0) + e.index
  }

  lemma {:induction false} JobsGrow(parts: seq<Part>, n: nat, m: nat)
    requires n <= m <= |parts|
    ensures JobsUpTo(parts, n) <= JobsUpTo(parts, m)
    decreases m
  {
    if n < m { JobsGrow(parts, n, m - 1); }
  }

  lemma EntryHere(parts: seq<Part>, e: Entry)
    requires Within(parts, e)
    ensures var jobs := JobsUpTo(parts, e.part + 1);
            PosOf(parts, e) < |jobs| && jobs[PosOf(parts, e)] == Job(e.part, RelocAt(parts, e))
  {
  }

  lemma EntryJob(parts: seq<Part>, e: Entry)
    requires Within(parts, e)
    ensures var jobs := JobsUpTo(parts, |parts|);
            PosOf(parts, e) < |jobs| && jobs[PosOf(parts, e)] == Job(e.part, RelocAt(parts, e))
  {
    hide JobsUpTo;
    EntryHere(parts, e);
    JobsGrow(parts, e.part + 1, |parts|);
  }

  lemma {:induction false} JobEntry(parts: seq<Part>, n: nat, k: nat) returns (e: Entry)
    requires n <= |parts| && k < |JobsUpTo(parts, n)|
    ensures Within(parts, e) && PosOf(parts, e) == k
    decreases n
  {
    var done := |JobsUpTo(parts, n - 1)|;
    if k < done {
      e := JobEntry(parts, n - 1, k);
    } else {
      var first := |Table(parts[n - 1].dyn.rela)|;
      e := if k < done + first then Entry(n - 1, false, k - done) else Entry(n - 1, true, k - done - first);
    }
  }

  lemma PosInOrder(parts: seq<Part>, e: Entry, f: Entry)
    requires Within(parts, e) && Within(parts, f) && PosOf(parts, e) < PosOf(parts, f)
    ensures Later(e, f)
  {
    hide JobsUpTo;
    if f.part < e.part {
      EntryHere(parts, f);
      JobsGrow(parts, f.part + 1, e.part);
      assert false;
    }
  }

  /** The value and the target of an entry. */
  lemma EntryWrite(parts: seq<Part>, e: Entry)
    requires Within(parts, e)
    ensures var w, r := WriteOf(parts, Job(e.part, RelocAt(parts, e))), RelocAt(parts, e);
            && (w.Some? ==> Moves(r) && w.value.target == TargetOf(parts, e))
            && (r.Relative? ==> w == Some(Write(TargetOf(parts, e), (parts[e.part].base + r.addend) % WORD)))
            && (r.Symbolic? && w.Some? ==>
                  exists v: nat :: Binds(parts, e.part, r.sym, Some(v)) && w.value.value == (v + r.addend) % WORD)
  {
    hide Binds;
    var r := RelocAt(parts, e);
    if r.Symbolic? && Value(parts, e.part, r.sym).Some? {
      assert Binds(parts, e.part, r.sym, Some(Value(parts, e.part, r.sym).value));
    }
  }

  lemma EntryHolds(mem: nat -> Byte, parts: seq<Part>, granted: (nat, nat) -> bool, e: Entry)
    requires Within(parts, e) && Relocatable(parts, granted)
    ensures Holds(parts, Applied(mem, parts, JobsUpTo(parts, |parts|)), e)
  {
    hide WriteOf, Applied, Binds, JobsUpTo, WordAt, PosOf, Table, Lasting;
    var jobs, k := JobsUpTo(parts, |parts|), PosOf(parts, e);
    EntryJob(parts, e);
    assert JobOk(parts, granted, jobs[k], 0 + k);
    EntryWrite(parts, e);
    if Moves(RelocAt(parts, e)) && Lasting(parts, e) {
      LastingJob(parts, e);
      RelocatedWord(mem, parts, jobs, k);
    }
  }

  lemma LastingJob(parts: seq<Part>, e: Entry)
    requires Within(parts, e) && Moves(RelocAt(parts, e)) && Lasting(parts, e)
    requires WriteOf(parts, Job(e.part, RelocAt(parts, e))).Some?
    ensures var jobs, k := JobsUpTo(parts, |parts|), PosOf(parts, e);
            && k < |jobs| && jobs[k] == Job(e.part, RelocAt(parts, e))
            && forall i :: k < i < |jobs| && WriteOf(parts, jobs[i]).Some? ==>
                 !Overlap(WriteOf(parts, jobs[k]).value, WriteOf(parts, jobs[i]).value)
  {
    hide WriteOf, JobsUpTo, PosOf, Table;
    var jobs, k := JobsUpTo(parts, |parts|), PosOf(parts, e);
    EntryJob(parts, e);
    EntryWrite(parts, e);
    forall i | k < i < |jobs| && WriteOf(parts, jobs[i]).Some?
      ensures !Overlap(WriteOf(parts, jobs[k]).value, WriteOf(parts, jobs[i]).value)
    {
      var f := JobEntry(parts, |parts|, i);
      EntryJob(parts, f);
      EntryWrite(parts, f);
      PosInOrder(parts, e, f);
    }
  }

  /** Working off the tables does what they ask for. */
  lemma AllRelocated(mem: nat -> Byte, parts: seq<Part>, granted: (nat, nat) -> bool)
    requires Relocatable(parts, granted)
    ensures Relocated(parts, mem, Applied(mem, parts, JobsUpTo(parts, |parts|)))
  {
    hide Holds, Applied, JobsUpTo, Relocatable, Within;
    var mem' := Applied(mem, parts, JobsUpTo(parts, |parts|));
    forall e | Within(parts, e)
      ensures Holds(parts, mem', e)
    {
      EntryHolds(mem, parts, granted, e);
    }
    forall x: nat | Untouched(parts, x)
      ensures mem'(x) == mem(x)
    {
      UntouchedStays(mem, parts, x);
    }
  }

  lemma UntouchedStays(mem: nat -> Byte, parts: seq<Part>, x: nat)
    requires Untouched(parts, x)
    ensures Applied(mem, parts, JobsUpTo(parts, |parts|))(x) == mem(x)
  {
    hide Applied, JobsUpTo, WriteOf, PosOf, Table;
    var jobs := JobsUpTo(parts, |parts|);
    forall i | 0 <= i < |jobs|
      ensures !Covers(parts, jobs[i], x)
    {
      var f := JobEntry(parts, |parts|, i);
      EntryJob(parts, f);
      EntryWrite(parts, f);
    }
    LastWins(mem, parts, jobs, x, -1);
  }

  class Memory {
    const granted: (nat, nat) -> bool   // does the k-th store, at this address, go through?
    var bytes: nat -> Byte

    constructor (granted: (nat, nat) -> bool, bytes: nat -> Byte)
      ensures this.granted == granted && this.bytes == bytes
    {
      this.granted, this.bytes := granted, bytes;
    }

    /** resolve_symbol */
    static method ResolveSymbol(parts: seq<Part>, j: nat, sym: nat) returns (v: Option<nat>)
      requires j < |parts|
      ensures v == Value(parts, j, sym)
    {
      v := Lookup(parts, j, sym);
      BindsOnce(parts, j, sym, v, Value(parts, j, sym));
    }

    static method Lookup(parts: seq<Part>, j: nat, sym: nat) returns (v: Option<nat>)
      requires j < |parts|
      ensures Binds(parts, j, sym, v)
    {
      var syms := parts[j].dyn.symbols;
      if sym >= |syms| || syms[sym].None? {
        return None;
      }
      var wanted := syms[sym].value;
      if wanted.defined {
        return Some((parts[j].base + wanted.value) % WORD);
      }
      if wanted.name.None? {
        return None;
      }
      var i, s := FirstDefinition(parts, wanted.name.value);
      if i < |parts| {
        return Some((parts[i].base + parts[i].dyn.symbols[s].value.value) % WORD);
      }
      return if wanted.weak then Some(0) else None;
    }

    /** The two loops of resolve_symbol; `i` is |parts| if there is no definition. */
    static method FirstDefinition(parts: seq<Part>, name: string) returns (i: nat, s: nat)
      ensures i <= |parts| && if i < |parts| then DefinesFirst(parts, i, s, name) else Undefined(parts, name)
    {
      i, s := 0, 0;
      while i < |parts|
        invariant 0 <= i <= |parts|
        invariant forall j: nat, t: nat :: Defines(parts, j, t, name) ==> i <= j
      {
        s := 1;
        while s < |parts[i].dyn.symbols|
          invariant 1 <= s
          invariant forall t: nat :: t < s ==> !Defines(parts, i, t, name)
        {
          if Defines(parts, i, s, name) {
            return;
          }
          s := s + 1;
        }
        i := i + 1;
      }
    }

    /** One relocation. */
    method RelocateOne(parts: seq<Part>, job: Job, k: nat) returns (ok: bool)
      requires job.part < |parts|
      modifies this
      ensures ok <==> JobOk(parts, granted, job, k)
      ensures ok ==> bytes == if WriteOf(parts, job).None? then old(bytes)
                              else Stored(old(bytes), WriteOf(parts, job).value)
      ensures !ok ==> bytes == old(bytes)
    {
      hide Binds;
      var base := parts[job.part].base;
      var target, value;
      match job.reloc {
        case Nothing =>
          return true;
        case Unknown =>
          return false;
        case Relative(offset, addend) =>
          target, value := (base + offset) % WORD, (base + addend) % WORD;
        case Symbolic(offset, sym, addend) =>
          var v := ResolveSymbol(parts, job.part, sym);
          if v == None {
            return false;
          }
          target, value := (base + offset) % WORD, (v.value + addend) % WORD;
      }
      assert WriteOf(parts, job) == Some(Write(target, value));
      if target + 8 >= WORD || !granted(k, target) {
        return false;
      }
      bytes := Stored(bytes, Write(target, value));
      return true;
    }

    /** relocate_table, whose first entry is the k-th relocation. */
    method RelocateTable(parts: seq<Part>, j: nat, table: Option<seq<Reloc>>, k: nat) returns (ok: bool)
      requires j < |parts|
      modifies this
      ensures ok <==> table.Some? && JobsOk(parts, granted, Jobs(j, Table(table)), k)
      ensures ok ==> bytes == Applied(old(bytes), parts, Jobs(j, Table(table)))
    {
      hide JobOk, WriteOf, Stored;
      if table.None? {
        return false;
      }
      var rs := table.value;
      ghost var jobs := Jobs(j, rs);
      var i := 0;
      while i < |rs|
        invariant 0 <= i <= |rs| && bytes == Applied(old(bytes), parts, jobs[..i])
        invariant forall n :: 0 <= n < i ==> JobOk(parts, granted, jobs[n], k + n)
      {
        assert jobs[..i + 1][..i] == jobs[..i];
        ok := RelocateOne(parts, Job(j, rs[i]), k + i);
        if !ok {
          assert !JobOk(parts, granted, jobs[i], k + i);
          return;
        }
        i := i + 1;
      }
      assert jobs[..i] == jobs;
      return true;
    }

    /** The relocation loop of dynamic_link. */
    method Relocate(parts: seq<Part>) returns (ok: bool)
      modifies this
      ensures ok <==> Relocatable(parts, granted)
      ensures ok ==> bytes == Applied(old(bytes), parts, JobsUpTo(parts, |parts|))
      ensures ok ==> Relocated(parts, old(bytes), bytes)
    {
      hide JobsOk, Applied, Jobs, Table, Relocated;
      var i, k := 0, 0;
      NoJobs(bytes, parts, granted);
      while i < |parts|
        invariant 0 <= i <= |parts| && k == |JobsUpTo(parts, i)|
        invariant forall j :: 0 <= j < i ==> parts[j].dyn.rela.Some? && parts[j].dyn.plt.Some?
        invariant JobsOk(parts, granted, JobsUpTo(parts, i), 0)
        invariant bytes == Applied(old(bytes), parts, JobsUpTo(parts, i))
      {
        ghost var done, a, b := JobsUpTo(parts, i), Jobs(i, Table(parts[i].dyn.rela)), Jobs(i, Table(parts[i].dyn.plt));
        PartOfAll(parts, granted, i + 1);
        JobsSplit(parts, granted, done, a);
        JobsSplit(parts, granted, done + a, b);
        AppliedOfConcat(old(bytes), parts, done, a);
        AppliedOfConcat(old(bytes), parts, done + a, b);
        ok := RelocateTable(parts, i, parts[i].dyn.rela, k);
        if !ok {
          return;
        }
        k := k + |parts[i].dyn.rela.value|;
        TableSize(i, parts[i].dyn.rela);
        ok := RelocateTable(parts, i, parts[i].dyn.plt, k);
        if !ok {
          return;
        }
        k := k + |parts[i].dyn.plt.value|;
        TableSize(i, parts[i].dyn.plt);
        i := i + 1;
      }
      ok := true;
      AllRelocated(old(bytes), parts, granted);
    }
  }

  lemma TableSize(j: nat, t: Option<seq<Reloc>>)
    ensures |Jobs(j, Table(t))| == if t.Some? then |t.value| else 0
  {
  }

  lemma NoJobs(mem: nat -> Byte, parts: seq<Part>, granted: (nat, nat) -> bool)
    ensures Applied(mem, parts, []) == mem && JobsOk(parts, granted, [], 0)
  {
  }

  lemma JobsSplit(parts: seq<Part>, granted: (nat, nat) -> bool, a: seq<Job>, b: seq<Job>)
    ensures JobsOk(parts, granted, a + b, 0) <==> JobsOk(parts, granted, a, 0) && JobsOk(parts, granted, b, |a|)
  {
    hide JobOk;
    assert forall i :: 0 <= i < |a| ==> (a + b)[i] == a[i];
    forall i | 0 <= i < |b|
      ensures (a + b)[|a| + i] == b[i]
    {
    }
    if JobsOk(parts, granted, a + b, 0) {
      forall i | 0 <= i < |b|
        ensures JobOk(parts, granted, b[i], |a| + i)
      {
        assert JobOk(parts, granted, (a + b)[|a| + i], 0 + (|a| + i));
      }
    }
    if JobsOk(parts, granted, a, 0) && JobsOk(parts, granted, b, |a|) {
      forall i | 0 <= i < |a + b|
        ensures JobOk(parts, granted, (a + b)[i], 0 + i)
      {
        if i >= |a| { assert JobOk(parts, granted, b[i - |a|], |a| + (i - |a|)); }
      }
    }
  }

  lemma {:induction false} AppliedOfConcat(mem: nat -> Byte, parts: seq<Part>, a: seq<Job>, b: seq<Job>)
    ensures Applied(mem, parts, a + b) == Applied(Applied(mem, parts, a), parts, b)
    decreases |b|
  {
    hide WriteOf, Stored;
    if b == [] {
      assert a + b == a;
    } else {
      assert (a + b)[..|a + b| - 1] == a + b[..|b| - 1];
      AppliedOfConcat(mem, parts, a, b[..|b| - 1]);
    }
  }

  /** The relocations of the first objects are among all of them. */
  lemma {:induction false} PartOfAll(parts: seq<Part>, granted: (nat, nat) -> bool, n: nat)
    requires n <= |parts|
    ensures JobsOk(parts, granted, JobsUpTo(parts, |parts|), 0) ==> JobsOk(parts, granted, JobsUpTo(parts, n), 0)
    decreases |parts| - n
  {
    hide JobsOk, Jobs, Table;
    if n < |parts| {
      PartOfAll(parts, granted, n + 1);
      var a, b, c := JobsUpTo(parts, n), Jobs(n, Table(parts[n].dyn.rela)), Jobs(n, Table(parts[n].dyn.plt));
      JobsSplit(parts, granted, a + b, c);
      JobsSplit(parts, granted, a, b);
    }
  }
}
