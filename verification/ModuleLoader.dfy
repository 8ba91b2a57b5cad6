/** The ES module loader of apps/browser.c: recursive evaluation over an import
    graph that is discovered while it is walked. Text rewriting is reduced to the
    sequence of things in a module that matter to the graph; fetching and the
    script engine are oracles. */
module ModuleLoader {
  import opened Counting
  import opened Options

  const MODULE_MAX: nat := 64
  const MODULE_DEPTH_MAX: nat := 16

  type Url = string

  /** A module: the n-th inline script of the page, or what a URL holds. */
  datatype Body = Inline(serial: nat) | Fetched(url: Url)

  /** What transforming a module meets, in source order: a static import, a
      re-export or a literal dynamic import; or something it rejects. */
  datatype Item = Import(ref: string) | Unsupported

  /** The outside world. `inlineUrl` is the made-up URL of an inline script.
      `resolve` makes a reference absolute, relative to the page (None) or to a
      URL; `fetch` yields the URL a request ends at, if the response is usable;
      `runs` tells whether the engine accepts the module. */
  datatype World = World(
    inlineUrl: nat -> Url,
    resolve: (Option<Url>, string) -> Option<Url>,
    fetch: Url -> Option<Url>,
    source: Body -> seq<Item>,
    runs: Body -> bool)

  datatype State = New | Visiting | Done | Failed
  datatype Mod = Mod(body: Body, state: State)

  /** A module handed to the engine, and the inline scripts in the table then. */
  datatype Run = Run(mod: nat, shown: seq<nat>)

  function UrlOf(w: World, b: Body): Url {
    match b case Inline(n) => w.inlineUrl(n) case Fetched(u) => u
  }

  function BaseOf(b: Body): Option<Url> {
    match b case Inline(_) => None case Fetched(u) => Some(u)
  }

  /** A request that ends at `v` also ends there when started there. */
  ghost predicate Consistent(w: World) {
    forall u, v :: w.fetch(u) == Some(v) ==> w.fetch(v) == Some(v)
  }

  /** The inline scripts in the table, oldest first. */
  function Inlines(mods: seq<Mod>): seq<nat> {
    if mods == [] then []
    else
      var last := mods[|mods| - 1].body;
      Inlines(mods[..|mods| - 1]) + if last.Inline? then [last.serial] else []
  }

  /** Who answers to a URL when the inline scripts `p` are in the table: the newest
      of them with that URL. */
  function Named(w: World, p: seq<nat>, u: Url): Body {
    if p == [] then Fetched(u)
    else if w.inlineUrl(p[|p| - 1]) == u then Inline(p[|p| - 1])
    else Named(w, p[..|p| - 1], u)
  }

  /** The module a reference stands for; the table is asked before the network. */
  function Target(w: World, p: seq<nat>, base: Option<Url>, ref: string): Option<Body> {
    match w.resolve(base, ref)
    case None => None
    case Some(a) =>
      if Named(w, p, a).Inline? then Some(Named(w, p, a))
      else match w.fetch(a)
        case None => None
        case Some(f) => Some(Named(w, p, f))
  }

  ghost predicate Imports(w: World, p: seq<nat>, x: Body, y: Body) {
    exists ref :: Import(ref) in w.source(x) && Target(w, p, BaseOf(x), ref) == Some(y)
  }

  // ---- invariants -------------------------------------------------------

  /** `b` is done, and was evaluated among the first `n`. */
  ghost predicate DoneBefore(mods: seq<Mod>, runs: seq<Run>, n: nat, b: Body) {
    exists k :: 0 <= k < n && k < |runs| && runs[k].mod < |mods| && mods[runs[k].mod] == Mod(b, Done)
  }

  /** Every item is an import of a module done by then. */
  ghost predicate Ready(w: World, p: seq<nat>, mods: seq<Mod>, runs: seq<Run>, n: nat, b: Body, items: seq<Item>) {
    forall i :: 0 <= i < |items| ==>
      && items[i].Import? && Target(w, p, BaseOf(b), items[i].ref).Some?
      && DoneBefore(mods, runs, n, Target(w, p, BaseOf(b), items[i].ref).value)
  }

  /** No module twice; of two entries with one URL the newer is an inline script. */
  ghost predicate Table(w: World, mods: seq<Mod>) {
    && (forall i, j :: 0 <= i < j < |mods| ==> mods[i].body != mods[j].body)
    && (forall i, j :: 0 <= i < j < |mods| && UrlOf(w, mods[i].body) == UrlOf(w, mods[j].body) ==>
          mods[j].body.Inline?)
    && (forall i :: 0 <= i < |mods| && mods[i].body.Fetched? ==> w.fetch(mods[i].body.url) == Some(mods[i].body.url))
  }

  ghost predicate Good(w: World, mods: seq<Mod>, runs: seq<Run>) {
    && Consistent(w) && Table(w, mods)
    && (forall i, j :: 0 <= i < j < |runs| ==> runs[i].mod != runs[j].mod)
    && (forall i :: 0 <= i < |runs| ==>
          runs[i].mod < |mods| && (mods[runs[i].mod].state == Done || mods[runs[i].mod].state == Failed))
    && (forall i :: 0 <= i < |runs| ==> ReadyRun(w, mods, runs, i))
    && (forall m :: 0 <= m < |mods| && mods[m].state == Done ==> Ran(runs, m))
  }

  ghost predicate Ran(runs: seq<Run>, m: nat) { exists k :: 0 <= k < |runs| && runs[k].mod == m }

  /** The i-th module was handed over with its imports, as they were then, done, and
      is done itself only if the engine accepts it. */
  ghost predicate ReadyRun(w: World, mods: seq<Mod>, runs: seq<Run>, i: nat)
    requires i < |runs| && runs[i].mod < |mods|
  {
    var b := mods[runs[i].mod].body;
    && (mods[runs[i].mod].state == Done ==> w.runs(b))
    && Ready(w, runs[i].shown, mods, runs, i, b, w.source(b))
  }

  /** How the table may change during an evaluation: fetched modules are added,
      settled states stay, and no module is newly left visiting. */
  ghost predicate Grown(a: seq<Mod>, b: seq<Mod>) {
    && |a| <= |b|
    && (forall i :: 0 <= i < |a| ==>
          && b[i].body == a[i].body && (a[i].state != New ==> b[i].state == a[i].state)
          && (b[i].state == Visiting ==> a[i].state == Visiting))
    && (forall i :: |a| <= i < |b| ==> b[i].state != Visiting && b[i].body.Fetched?)
  }

  /** How the table may change while a page runs. */
  ghost predicate Later(a: seq<Mod>, b: seq<Mod>) {
    && |a| <= |b|
    && forall i :: 0 <= i < |a| ==> b[i].body == a[i].body && (a[i].state != New ==> b[i].state == a[i].state)
  }

  lemma GrownTrans(a: seq<Mod>, b: seq<Mod>, c: seq<Mod>)
    requires Grown(a, b) && Grown(b, c)
    ensures Grown(a, c)
  {
  }

  lemma {:induction false} SameInlines(a: seq<Mod>, b: seq<Mod>)
    requires |a| <= |b| && (forall i :: 0 <= i < |a| ==> b[i].body == a[i].body)
    requires forall i :: |a| <= i < |b| ==> b[i].body.Fetched?
    ensures Inlines(b) == Inlines(a)
    decreases |b|
  {
    if |a| < |b| {
      SameInlines(a, b[..|b| - 1]);
    } else if b != [] {
      SameInlines(a[..|a| - 1], b[..|b| - 1]);
    }
  }

  /** The newest entry of a URL is who answers to it. */
  lemma {:induction false} NewestAnswers(w: World, mods: seq<Mod>, k: int, u: Url)
    requires Table(w, mods) && -1 <= k < |mods| && (k >= 0 ==> UrlOf(w, mods[k].body) == u)
    requires forall i :: k < i < |mods| ==> UrlOf(w, mods[i].body) != u
    ensures Named(w, Inlines(mods), u) == if k >= 0 then mods[k].body else Fetched(u)
  {
    if mods != [] {
      var front, last := mods[..|mods| - 1], mods[|mods| - 1].body;
      if k == |mods| - 1 {
        if last.Fetched? { NoneAnswers(w, front, u); }
      } else {
        NewestAnswers(w, front, k, u);
      }
      NamedLast(w, Inlines(front), last, u);
    }
  }

  lemma NamedLast(w: World, p: seq<nat>, b: Body, u: Url)
    ensures Named(w, p + (if b.Inline? then [b.serial] else []), u)
         == if b.Inline? && UrlOf(w, b) == u then b else Named(w, p, u)
  {
    if b.Inline? {
      assert (p + [b.serial])[..|p|] == p;
    } else {
      assert p + [] == p;
    }
  }

  lemma {:induction false} NoneAnswers(w: World, mods: seq<Mod>, u: Url)
    requires forall i :: 0 <= i < |mods| && mods[i].body.Inline? ==> UrlOf(w, mods[i].body) != u
    ensures Named(w, Inlines(mods), u) == Fetched(u)
  {
    if mods != [] {
      NoneAnswers(w, mods[..|mods| - 1], u);
      NamedLast(w, Inlines(mods[..|mods| - 1]), mods[|mods| - 1].body, u);
    }
  }

  ghost predicate Longer(a: seq<Run>, b: seq<Run>) { |a| <= |b| && b[..|a|] == a }

  /** What an evaluation adds to the log happens with the inline scripts `p`. */
  ghost predicate During(p: seq<nat>, a: seq<Run>, b: seq<Run>) {
    Longer(a, b) && forall i :: |a| <= i < |b| ==> b[i].shown == p
  }

  lemma DuringTrans(p: seq<nat>, a: seq<Run>, b: seq<Run>, c: seq<Run>)
    requires During(p, a, b) && During(p, b, c)
    ensures During(p, a, c)
  {
    assert c[..|a|] == c[..|b|][..|a|] == b[..|a|];
    forall i | |a| <= i < |c|
      ensures c[i].shown == p
    {
      if i < |b| { assert c[i] == c[..|b|][i]; }
    }
  }

  /** What is done stays done. */
  lemma DoneStays(mods: seq<Mod>, runs: seq<Run>, mods': seq<Mod>, runs': seq<Run>, n: nat, n': nat, b: Body)
    requires DoneBefore(mods, runs, n, b) && n <= n' && Grown(mods, mods') && Longer(runs, runs')
    ensures DoneBefore(mods', runs', n', b)
  {
    var k :| 0 <= k < n && k < |runs| && runs[k].mod < |mods| && mods[runs[k].mod] == Mod(b, Done);
    assert runs'[k] == runs'[..|runs|][k] == runs[k];
    assert mods'[runs[k].mod] == Mod(b, Done);
  }

  lemma ReadyStays(w: World, p: seq<nat>, mods: seq<Mod>, runs: seq<Run>, mods': seq<Mod>, runs': seq<Run>, n: nat,
                   n': nat,
                   b: Body, items: seq<Item>)
    requires Ready(w, p, mods, runs, n, b, items) && n <= n' && Grown(mods, mods') && Longer(runs, runs')
    ensures Ready(w, p, mods', runs', n', b, items)
  {
    hide DoneBefore, Target;
    forall i | 0 <= i < |items|
      ensures DoneBefore(mods', runs', n', Target(w, p, BaseOf(b), items[i].ref).value)
    {
      DoneStays(mods, runs, mods', runs', n, n', Target(w, p, BaseOf(b), items[i].ref).value);
    }
  }

  /** Marking or adding a module that has not been evaluated changes nothing for
      those that have. */
  lemma UnevaluatedGood(w: World, mods: seq<Mod>, runs: seq<Run>, mods': seq<Mod>)
    requires Good(w, mods, runs) && |mods| <= |mods'| && Table(w, mods')
    requires forall i :: 0 <= i < |mods| && Ran(runs, i) ==> mods'[i] == mods[i]
    requires forall i :: 0 <= i < |mods'| && !(i < |mods| && Ran(runs, i)) ==> mods'[i].state != Done
    ensures Good(w, mods', runs)
  {
    hide Table, Consistent;
    forall i | 0 <= i < |runs|
      ensures mods'[runs[i].mod] == mods[runs[i].mod]
    {
      assert Ran(runs, runs[i].mod);
    }
    forall i | 0 <= i < |runs|
      ensures ReadyRun(w, mods', runs, i)
    {
      assert ReadyRun(w, mods, runs, i);
      var b := mods[runs[i].mod].body;
      ReadyElsewhere(w, runs[i].shown, mods, runs, mods', runs, i, b, w.source(b));
    }
  }

  lemma ReadyElsewhere(w: World, p: seq<nat>, mods: seq<Mod>, runs: seq<Run>, mods': seq<Mod>, runs': seq<Run>, n: nat,
                       b: Body, items: seq<Item>)
    requires Ready(w, p, mods, runs, n, b, items) && |mods| <= |mods'| && n <= |runs| && Longer(runs, runs')
    requires forall k :: 0 <= k < |runs| && runs[k].mod < |mods| ==> mods'[runs[k].mod] == mods[runs[k].mod]
    ensures Ready(w, p, mods', runs', n, b, items)
  {
    hide Target;
    forall i | 0 <= i < |items|
      ensures DoneBefore(mods', runs', n, Target(w, p, BaseOf(b), items[i].ref).value)
    {
      var v := Target(w, p, BaseOf(b), items[i].ref).value;
      assert DoneBefore(mods, runs, n, v);
      var k :| 0 <= k < n && k < |runs| && runs[k].mod < |mods| && mods[runs[k].mod] == Mod(v, Done);
      assert runs'[k] == runs'[..|runs|][k] == runs[k];
    }
  }

  /** Handing a visited module whose imports are all done to the engine. */
  lemma EvaluatedGood(w: World, mods: seq<Mod>, runs: seq<Run>, m: nat, p: seq<nat>, ok: bool)
    requires Good(w, mods, runs) && m < |mods| && mods[m].state == Visiting
    requires Ready(w, p, mods, runs, |runs|, mods[m].body, w.source(mods[m].body)) && (ok ==> w.runs(mods[m].body))
    ensures Good(w, mods[m := mods[m].(state := if ok then Done else Failed)], runs + [Run(m, p)])
  {
    hide Table, Consistent, Ready, ReadyRun;
    var mods', runs' := mods[m := mods[m].(state := if ok then Done else Failed)], runs + [Run(m, p)];
    SameTable(w, mods, mods');
    forall i | 0 <= i < |runs'|
      ensures ReadyRun(w, mods', runs', i)
    {
      EvaluatedReady(w, mods, runs, m, p, ok, i);
    }
    forall k | 0 <= k < |mods'| && mods'[k].state == Done
      ensures Ran(runs', k)
    {
      if k == m {
        assert runs'[|runs|].mod == m;
      } else {
        var j :| 0 <= j < |runs| && runs[j].mod == k;
        assert runs'[j].mod == k;
      }
    }
  }

  lemma EvaluatedReady(w: World, mods: seq<Mod>, runs: seq<Run>, m: nat, p: seq<nat>, ok: bool, i: nat)
    requires Good(w, mods, runs) && m < |mods| && mods[m].state == Visiting && i <= |runs|
    requires Ready(w, p, mods, runs, |runs|, mods[m].body, w.source(mods[m].body)) && (ok ==> w.runs(mods[m].body))
    ensures ReadyRun(w, mods[m := mods[m].(state := if ok then Done else Failed)], runs + [Run(m, p)], i)
  {
    hide Table, Consistent, Ready;
    var mods', runs' := mods[m := mods[m].(state := if ok then Done else Failed)], runs + [Run(m, p)];
    var b := mods[runs'[i].mod].body;
    if i < |runs| { assert ReadyRun(w, mods, runs, i); }
    ReadyElsewhere(w, runs'[i].shown, mods, runs, mods', runs', i, b, w.source(b));
  }

  lemma SameTable(w: World, mods: seq<Mod>, mods': seq<Mod>)
    requires Table(w, mods) && |mods'| == |mods| && forall i :: 0 <= i < |mods| ==> mods'[i].body == mods[i].body
    ensures Table(w, mods')
  {
  }

  /** When the done module `b` was evaluated. */
  ghost function Place(mods: seq<Mod>, runs: seq<Run>, b: Body): (k: nat)
    requires DoneBefore(mods, runs, |runs|, b)
    ensures k < |runs| && runs[k].mod < |mods| && mods[runs[k].mod] == Mod(b, Done)
  {
    var k: nat :| k < |runs| && runs[k].mod < |mods| && mods[runs[k].mod] == Mod(b, Done);
    k
  }

  lemma PlaceIsUnique(w: World, mods: seq<Mod>, runs: seq<Run>, b: Body, k: nat)
    requires Good(w, mods, runs) && k < |runs| && mods[runs[k].mod] == Mod(b, Done)
    ensures DoneBefore(mods, runs, |runs|, b) && Place(mods, runs, b) == k
  {
    assert DoneBefore(mods, runs, |runs|, b);
    var j := Place(mods, runs, b);
    assert mods[runs[j].mod].body == mods[runs[k].mod].body;
    assert runs[j].mod == runs[k].mod;
  }

  /** Imports of a done module, as they were when it was evaluated, are done, and
      were evaluated strictly earlier. */
  lemma ImportsEarlier(w: World, mods: seq<Mod>, runs: seq<Run>, x: Body, y: Body)
    requires Good(w, mods, runs) && DoneBefore(mods, runs, |runs|, x)
    requires Imports(w, runs[Place(mods, runs, x)].shown, x, y)
    ensures DoneBefore(mods, runs, |runs|, y) && Place(mods, runs, y) < Place(mods, runs, x)
  {
    hide Target, Table, Consistent;
    var i := Place(mods, runs, x);
    assert ReadyRun(w, mods, runs, i);
    var ref :| Import(ref) in w.source(x) && Target(w, runs[i].shown, BaseOf(x), ref) == Some(y);
    var j :| 0 <= j < |w.source(x)| && w.source(x)[j] == Import(ref);
    assert DoneBefore(mods, runs, i, y);
    var k :| 0 <= k < i && k < |runs| && runs[k].mod < |mods| && mods[runs[k].mod] == Mod(y, Done);
    PlaceIsUnique(w, mods, runs, y, k);
  }

  /** Which inline scripts the references of `x` see: those in the table when it
      was evaluated, or for all others `p`. */
  ghost function Sees(mods: seq<Mod>, runs: seq<Run>, p: seq<nat>, x: Body): seq<nat> {
    if DoneBefore(mods, runs, |runs|, x) then runs[Place(mods, runs, x)].shown else p
  }

  /** The import graph at a moment of the page's life. */
  ghost function ImportGraph(w: World, mods: seq<Mod>, runs: seq<Run>, p: seq<nat>): (Body, Body) -> bool {
    (x: Body, y: Body) => Imports(w, Sees(mods, runs, p, x), x, y)
  }

  /** A module that becomes done reaches no cycle of the graph there was before,
      and everything it reaches is done. */
  lemma DoneIsAcyclic(w: World, mods0: seq<Mod>, runs0: seq<Run>, mods: seq<Mod>, runs: seq<Run>, p: seq<nat>, m: nat)
    requires Good(w, mods0, runs0) && Good(w, mods, runs) && Later(mods0, mods) && During(p, runs0, runs)
    requires m < |mods| && mods[m].state == Done
    ensures !ReachesCycle(ImportGraph(w, mods0, runs0, p), mods[m].body)
  {
    hide Good, DoneBefore, Imports, Later, During;
    var done := set k | 0 <= k < |mods| && DoneBefore(mods, runs, |runs|, mods[k].body) :: mods[k].body;
    var rank := map b | b in done :: Place(mods, runs, b) as int;
    var edge := ImportGraph(w, mods0, runs0, p);
    forall x, y | x in rank && edge(x, y)
      ensures y in rank && rank[y] < rank[x]
    {
      SeesSame(w, mods0, runs0, mods, runs, p, x);
      ImportsEarlier(w, mods, runs, x, y);
      assert mods[runs[Place(mods, runs, y)].mod].body == y;
    }
    assert Descends(edge, rank);
    DoneWasEvaluated(w, mods, runs, m);
    RankedIsAcyclic(edge, rank, mods[m].body);
  }

  /** An evaluation does not change what any module sees. */
  lemma SeesSame(w: World, mods0: seq<Mod>, runs0: seq<Run>, mods: seq<Mod>, runs: seq<Run>, p: seq<nat>, x: Body)
    requires Good(w, mods0, runs0) && Good(w, mods, runs) && Later(mods0, mods) && During(p, runs0, runs)
    requires DoneBefore(mods, runs, |runs|, x)
    ensures Sees(mods0, runs0, p, x) == runs[Place(mods, runs, x)].shown
  {
    hide Table, Consistent, Ready;
    var k := Place(mods, runs, x);
    if DoneBefore(mods0, runs0, |runs0|, x) {
      var j := Place(mods0, runs0, x);
      assert runs[j] == runs[..|runs0|][j] == runs0[j];
      assert mods[runs[j].mod] == Mod(x, Done);
      PlaceIsUnique(w, mods, runs, x, j);
    } else {
      assert forall j :: 0 <= j < |runs0| ==> runs[j] == runs[..|runs0|][j] == runs0[j];
    }
  }

  lemma DoneWasEvaluated(w: World, mods: seq<Mod>, runs: seq<Run>, m: nat)
    requires Good(w, mods, runs) && m < |mods| && mods[m].state == Done
    ensures DoneBefore(mods, runs, |runs|, mods[m].body)
  {
    var k :| 0 <= k < |runs| && runs[k].mod == m;
  }

  // ---- when the graph stands still --------------------------------------

  /** Neither the reference nor the request for it ends at the URL of an inline
      script. */
  ghost predicate MissesInlines(w: World, base: Option<Url>, ref: string) {
    var a := w.resolve(base, ref);
    a.Some? ==> && (forall n :: a.value != w.inlineUrl(n))
                && (w.fetch(a.value).Some? ==> forall n :: w.fetch(a.value).value != w.inlineUrl(n))
  }

  /** Exactly then the reference means the same at every moment. */
  lemma StaticTarget(w: World, base: Option<Url>, ref: string)
    ensures MissesInlines(w, base, ref) <==> forall p :: Target(w, p, base, ref) == Target(w, [], base, ref)
  {
    if w.resolve(base, ref).Some? {
      var a := w.resolve(base, ref).value;
      if MissesInlines(w, base, ref) {
        forall p
          ensures Target(w, p, base, ref) == Target(w, [], base, ref)
        {
          Unnamed(w, p, a);
          if w.fetch(a).Some? { Unnamed(w, p, w.fetch(a).value); }
        }
      } else {
        var u, n: nat :| (u == a || w.fetch(a) == Some(u)) && u == w.inlineUrl(n);
        assert Named(w, [n], u) == Inline(n);
        assert Target(w, [n], base, ref) != Target(w, [], base, ref);
      }
    }
  }

  /** The imports of a module do not depend on the moment if and only if none of
      its references can meet an inline script. */
  lemma StaticImports(w: World, x: Body)
    ensures (forall ref :: Import(ref) in w.source(x) ==> MissesInlines(w, BaseOf(x), ref)) <==>
      forall p, ref :: Import(ref) in w.source(x) ==> Target(w, p, BaseOf(x), ref) == Target(w, [], BaseOf(x), ref)
  {
    hide MissesInlines, Target;
    forall ref | Import(ref) in w.source(x)
      ensures MissesInlines(w, BaseOf(x), ref) <==>
        forall p :: Target(w, p, BaseOf(x), ref) == Target(w, [], BaseOf(x), ref)
    {
      StaticTarget(w, BaseOf(x), ref);
    }
  }

  lemma {:induction false} Unnamed(w: World, p: seq<nat>, u: Url)
    requires forall n :: u != w.inlineUrl(n)
    ensures Named(w, p, u) == Fetched(u)
  {
    if p != [] { Unnamed(w, p[..|p| - 1], u); }
  }

  // ---- when a module must succeed ---------------------------------------

  /** Modules that load and run, ranked so that imports go down. */
  datatype Plan = Plan(bodies: set<Body>, rank: Body -> nat)

  ghost predicate Settled(mods: seq<Mod>, b: Body) {
    exists i :: 0 <= i < |mods| && mods[i] == Mod(b, Done)
  }

  /** What is planned and not done yet runs, and imports only what is planned. */
  ghost predicate Feasible(w: World, plan: Plan, mods: seq<Mod>) {
    forall b :: b in plan.bodies && !Settled(mods, b) ==>
      w.runs(b) && forall item :: item in w.source(b) ==> Leads(w, plan, mods, b, item)
  }

  ghost predicate Leads(w: World, plan: Plan, mods: seq<Mod>, b: Body, item: Item) {
    && item.Import? && Target(w, Inlines(mods), BaseOf(b), item.ref).Some?
    && Below(plan, mods, b, Target(w, Inlines(mods), BaseOf(b), item.ref).value)
  }

  /** `t` is planned, and done or of lower rank than `b`. */
  ghost predicate Below(plan: Plan, mods: seq<Mod>, b: Body, t: Body) {
    t in plan.bodies && (Settled(mods, t) || plan.rank(t) < plan.rank(b))
  }

  ghost function Bodies(mods: seq<Mod>): set<Body> {
    set i | 0 <= i < |mods| :: mods[i].body
  }

  /** The table can hold the plan and has not failed any of it. */
  ghost predicate Open(plan: Plan, mods: seq<Mod>) {
    && |plan.bodies + Bodies(mods)| <= MODULE_MAX
    && forall i :: 0 <= i < |mods| && mods[i].body in plan.bodies ==> mods[i].state != Failed
  }

  /** Modules under evaluation rank at least `r`. */
  ghost predicate Above(plan: Plan, mods: seq<Mod>, r: nat) {
    forall i :: 0 <= i < |mods| && mods[i].body in plan.bodies && mods[i].state == Visiting ==>
      plan.rank(mods[i].body) >= r
  }

  /** `b` is done, or can be evaluated next. */
  ghost predicate Planned(w: World, plan: Plan, mods: seq<Mod>, b: Body) {
    && Feasible(w, plan, mods) && Open(plan, mods) && b in plan.bodies
    && (Settled(mods, b) || Above(plan, mods, plan.rank(b) + 1))
  }

  /** The m-th module is being evaluated. */
  ghost predicate Busy(w: World, plan: Plan, mods: seq<Mod>, m: nat) {
    && m < |mods| && mods[m].state == Visiting && mods[m].body in plan.bodies
    && Feasible(w, plan, mods) && Open(plan, mods) && Above(plan, mods, plan.rank(mods[m].body))
  }

  lemma SettledGrown(a: seq<Mod>, b: seq<Mod>, x: Body)
    requires Grown(a, b) && Settled(a, x)
    ensures Settled(b, x)
  {
    var i :| 0 <= i < |a| && a[i] == Mod(x, Done);
    assert b[i] == Mod(x, Done);
  }

  lemma FeasibleGrown(w: World, plan: Plan, a: seq<Mod>, b: seq<Mod>)
    requires Grown(a, b) && Feasible(w, plan, a)
    ensures Feasible(w, plan, b)
  {
    hide Settled, Grown, Target;
    GrownInlines(a, b);
    forall x | Settled(a, x)
      ensures Settled(b, x)
    {
      SettledGrown(a, b, x);
    }
    forall x, item | x in plan.bodies && !Settled(b, x) && item in w.source(x)
      ensures Leads(w, plan, b, x, item)
    {
      assert Leads(w, plan, a, x, item);
    }
  }

  lemma GrownInlines(a: seq<Mod>, b: seq<Mod>)
    requires Grown(a, b)
    ensures Inlines(b) == Inlines(a)
  {
    SameInlines(a, b);
  }

  /** A module that is being evaluated is not done. */
  lemma NotSettled(w: World, mods: seq<Mod>, m: nat)
    requires Table(w, mods) && m < |mods| && mods[m].state != Done
    ensures !Settled(mods, mods[m].body)
  {
  }

  lemma BusyLeads(w: World, plan: Plan, mods: seq<Mod>, m: nat, item: Item)
    requires Table(w, mods) && Busy(w, plan, mods, m)
    ensures w.runs(mods[m].body)
    ensures item in w.source(mods[m].body) ==> Leads(w, plan, mods, mods[m].body, item)
  {
    hide Settled, Table, Leads;
    NotSettled(w, mods, m);
  }

  lemma StaysBusy(w: World, plan: Plan, a: seq<Mod>, b: seq<Mod>, m: nat)
    requires Busy(w, plan, a, m) && Grown(a, b) && Open(plan, b)
    ensures Busy(w, plan, b, m)
  {
    hide Open, Feasible;
    FeasibleGrown(w, plan, a, b);
  }

  /** The import of a planned module is planned. */
  lemma ImportPlanned(w: World, plan: Plan, a: seq<Mod>, b: seq<Mod>, m: nat, ref: string)
    requires Table(w, a) && Busy(w, plan, a, m) && Grown(a, b) && Import(ref) in w.source(a[m].body)
    requires Open(plan, b)
    ensures Target(w, Inlines(a), BaseOf(a[m].body), ref).Some?
    ensures Planned(w, plan, b, Target(w, Inlines(a), BaseOf(a[m].body), ref).value)
  {
    hide Open, Feasible, Settled, Table, Target;
    BusyLeads(w, plan, a, m, Import(ref));
    FeasibleGrown(w, plan, a, b);
    var t := Target(w, Inlines(a), BaseOf(a[m].body), ref).value;
    if Settled(a, t) { SettledGrown(a, b, t); }
  }

  lemma StartBusy(w: World, plan: Plan, mods: seq<Mod>, m: nat)
    requires Table(w, mods) && m < |mods| && mods[m].state == New && Planned(w, plan, mods, mods[m].body)
    ensures Busy(w, plan, mods[m := mods[m].(state := Visiting)], m)
  {
    hide Table, Feasible, Settled;
    var mods' := mods[m := mods[m].(state := Visiting)];
    NotSettled(w, mods, m);
    SameBodies(mods, mods');
    MarkFeasible(w, plan, mods, m, Visiting);
  }

  /** Neither starting nor finishing a module takes anything from the plan. */
  lemma MarkFeasible(w: World, plan: Plan, mods: seq<Mod>, m: nat, state: State)
    requires m < |mods| && mods[m].state != Done && Feasible(w, plan, mods)
    ensures Feasible(w, plan, mods[m := mods[m].(state := state)])
  {
    hide Target;
    var mods' := mods[m := mods[m].(state := state)];
    SameInlines(mods, mods');
    forall x | Settled(mods, x)
      ensures Settled(mods', x)
    {
      var i :| 0 <= i < |mods| && mods[i] == Mod(x, Done);
      assert mods'[i] == mods[i];
    }
    forall x, item | x in plan.bodies && !Settled(mods', x) && item in w.source(x)
      ensures Leads(w, plan, mods', x, item)
    {
      assert Leads(w, plan, mods, x, item);
    }
  }

  lemma SameBodies(a: seq<Mod>, b: seq<Mod>)
    requires |a| == |b| && forall i :: 0 <= i < |a| ==> b[i].body == a[i].body
    ensures Bodies(b) == Bodies(a)
  {
    assert forall i :: 0 <= i < |a| ==> a[i].body in Bodies(b);
  }

  lemma OpenDone(plan: Plan, mods: seq<Mod>, m: nat)
    requires m < |mods| && Open(plan, mods)
    ensures Open(plan, mods[m := mods[m].(state := Done)])
  {
    SameBodies(mods, mods[m := mods[m].(state := Done)]);
  }

  /** There is room for a planned module that is not in the table yet. */
  lemma RoomFor(w: World, plan: Plan, mods: seq<Mod>, b: Body)
    requires Table(w, mods) && Open(plan, mods) && b in plan.bodies && b !in Bodies(mods)
    ensures |mods| < MODULE_MAX && Open(plan, mods + [Mod(b, New)])
  {
    hide Table;
    BodyCount(w, mods);
    var all, more := plan.bodies + Bodies(mods), mods + [Mod(b, New)];
    SubsetSize(Bodies(mods) + {b}, all);
    assert Bodies(more) == Bodies(mods) + {b} by {
      assert more[|mods|].body == b;
      assert forall i :: 0 <= i < |mods| ==> more[i] == mods[i];
    }
    assert plan.bodies + Bodies(more) == all;
  }

  lemma BodyCount(w: World, mods: seq<Mod>)
    requires Table(w, mods)
    ensures |Bodies(mods)| == |mods|
  {
    var names := seq(|mods|, i requires 0 <= i < |mods| => mods[i].body);
    DistinctSize(names);
    forall x
      ensures x in Elements(names) <==> x in Bodies(mods)
    {
      if x in Bodies(mods) {
        var i :| 0 <= i < |mods| && mods[i].body == x;
        assert names[i] == x;
      }
    }
    assert Elements(names) == Bodies(mods);
  }

  /** Some plan, of whatever depth, leads to `b`. */
  ghost predicate Loadable(w: World, mods: seq<Mod>, b: Body) {
    exists plan: Plan :: b in plan.bodies && Feasible(w, plan, mods) && Open(plan, mods)
  }

  /** What became done was loadable: everything it reaches loads and runs, fits the
      table, and can be ranked. */
  lemma DoneWasLoadable(w: World, mods0: seq<Mod>, runs0: seq<Run>, mods: seq<Mod>, runs: seq<Run>, m: nat)
    requires Good(w, mods0, runs0) && Good(w, mods, runs) && Grown(mods0, mods) && During(Inlines(mods0), runs0, runs)
    requires |mods| <= MODULE_MAX && m < |mods| && mods[m].state == Done
    ensures Loadable(w, mods0, mods[m].body)
  {
    hide Good, DoneBefore, Grown, During, Settled, Leads, Table;
    var plan := DonePlan(mods, runs);
    forall b | b in plan.bodies && !Settled(mods0, b)
      ensures w.runs(b) && forall item :: item in w.source(b) ==> Leads(w, plan, mods0, b, item)
    {
      DoneFeasible(w, mods0, runs0, mods, runs, b);
    }
    assert Feasible(w, plan, mods0);
    DoneOpen(w, mods0, mods, runs);
    DoneWasEvaluated(w, mods, runs, m);
  }

  /** Everything done, ranked by when it was evaluated. */
  ghost function DonePlan(mods: seq<Mod>, runs: seq<Run>): Plan {
    Plan(set i | 0 <= i < |mods| && DoneBefore(mods, runs, |runs|, mods[i].body) :: mods[i].body,
         b => if DoneBefore(mods, runs, |runs|, b) then Place(mods, runs, b) else 0)
  }

  lemma DoneOpen(w: World, mods0: seq<Mod>, mods: seq<Mod>, runs: seq<Run>)
    requires Good(w, mods, runs) && Grown(mods0, mods) && |mods| <= MODULE_MAX
    ensures Open(DonePlan(mods, runs), mods0)
  {
    hide Good, DoneBefore, Place, Table;
    var plan := DonePlan(mods, runs);
    RoomTaken(w, mods, runs);
    forall b | b in Bodies(mods0)
      ensures b in Bodies(mods)
    {
      var i :| 0 <= i < |mods0| && mods0[i].body == b;
      assert mods[i].body == b;
    }
    SubsetSize(plan.bodies + Bodies(mods0), Bodies(mods));
    forall i | 0 <= i < |mods0| && mods0[i].body in plan.bodies
      ensures mods0[i].state != Failed
    {
      DoneNotFailed(w, mods, runs, i);
    }
  }

  lemma RoomTaken(w: World, mods: seq<Mod>, runs: seq<Run>)
    requires Good(w, mods, runs)
    ensures |Bodies(mods)| == |mods|
  {
    BodyCount(w, mods);
  }

  lemma DoneNotFailed(w: World, mods: seq<Mod>, runs: seq<Run>, i: nat)
    requires Good(w, mods, runs) && i < |mods| && DoneBefore(mods, runs, |runs|, mods[i].body)
    ensures mods[i].state == Done
  {
    hide Ready, ReadyRun, Consistent;
    var k := Place(mods, runs, mods[i].body);
    assert mods[runs[k].mod].body == mods[i].body;
  }

  lemma DoneFeasible(w: World, mods0: seq<Mod>, runs0: seq<Run>, mods: seq<Mod>, runs: seq<Run>, b: Body)
    requires Good(w, mods0, runs0) && Good(w, mods, runs) && Grown(mods0, mods) && During(Inlines(mods0), runs0, runs)
    requires DoneBefore(mods, runs, |runs|, b) && !Settled(mods0, b)
    ensures w.runs(b) && forall item :: item in w.source(b) ==> Leads(w, DonePlan(mods, runs), mods0, b, item)
  {
    hide Consistent, Table, Settled, Target, Grown, During, Inlines, Ready, Leads, DonePlan;
    var k := Place(mods, runs, b);
    NewlyDone(w, mods0, runs0, mods, runs, b);
    assert ReadyRun(w, mods, runs, k);
    forall item | item in w.source(b)
      ensures Leads(w, DonePlan(mods, runs), mods0, b, item)
    {
      DoneLeads(w, mods0, mods, runs, b, item);
    }
  }

  lemma DoneLeads(w: World, mods0: seq<Mod>, mods: seq<Mod>, runs: seq<Run>, b: Body, item: Item)
    requires Good(w, mods, runs) && DoneBefore(mods, runs, |runs|, b) && item in w.source(b)
    requires runs[Place(mods, runs, b)].shown == Inlines(mods0)
    requires Ready(w, Inlines(mods0), mods, runs, Place(mods, runs, b), b, w.source(b))
    ensures Leads(w, DonePlan(mods, runs), mods0, b, item)
  {
    hide Good, Settled, Target, Inlines, DoneBefore;
    var j :| 0 <= j < |w.source(b)| && w.source(b)[j] == item;
    var t := Target(w, Inlines(mods0), BaseOf(b), item.ref).value;
    assert Imports(w, Inlines(mods0), b, t);
    ImportsEarlier(w, mods, runs, b, t);
    PlannedDone(mods, runs, t);
  }

  lemma PlannedDone(mods: seq<Mod>, runs: seq<Run>, t: Body)
    requires DoneBefore(mods, runs, |runs|, t)
    ensures t in DonePlan(mods, runs).bodies
  {
    assert mods[runs[Place(mods, runs, t)].mod].body == t;
  }

  lemma NewlyDone(w: World, mods0: seq<Mod>, runs0: seq<Run>, mods: seq<Mod>, runs: seq<Run>, b: Body)
    requires Good(w, mods0, runs0) && Good(w, mods, runs) && Grown(mods0, mods) && During(Inlines(mods0), runs0, runs)
    requires DoneBefore(mods, runs, |runs|, b) && !Settled(mods0, b)
    ensures runs[Place(mods, runs, b)].shown == Inlines(mods0)
  {
    hide Consistent, Table, Inlines, Ready, ReadyRun;
    var k := Place(mods, runs, b);
    assert forall j :: 0 <= j < |runs0| ==> runs[j] == runs[..|runs0|][j] == runs0[j];
  }

  // ---- how deep a module is first met -----------------------------------

  /** What the i-th item of `x` imports. */
  function Import1(w: World, p: seq<nat>, x: Body, i: nat): Option<Body> {
    if i < |w.source(x)| && w.source(x)[i].Import? then Target(w, p, BaseOf(x), w.source(x)[i].ref) else None
  }

  /** Where a path of item numbers leads from `root`, through modules that are not
      done in the table. */
  ghost function Node(w: World, table: seq<Mod>, root: Body, path: seq<nat>): Option<Body> {
    if path == [] then Some(root)
    else
      var x := Node(w, table, root, path[..|path| - 1]);
      if x.None? || Settled(table, x.value) then None
      else Import1(w, Inlines(table), x.value, path[|path| - 1])
  }

  /** `a` turns off to an earlier item than `b`. */
  ghost predicate LeftOf(a: seq<nat>, b: seq<nat>) {
    exists k :: 0 <= k < |a| && k < |b| && a[..k] == b[..k] && a[k] < b[k]
  }

  /** No path further left leads to the same module. */
  ghost predicate FirstPath(w: World, table: seq<Mod>, root: Body, path: seq<nat>) {
    && Node(w, table, root, path).Some?
    && forall q :: LeftOf(q, path) ==> Node(w, table, root, q) != Node(w, table, root, path)
  }

  /** The leftmost path to every module that is not done has at most 16 steps. */
  ghost predicate Shallow(w: World, table: seq<Mod>, root: Body) {
    ShallowUnder(w, table, root, [])
  }

  ghost predicate ShallowUnder(w: World, table: seq<Mod>, root: Body, path: seq<nat>) {
    forall q :: path <= q && FirstPath(w, table, root, q) && !Settled(table, Node(w, table, root, q).value) ==>
      |q| <= MODULE_DEPTH_MAX
  }

  /** A plan of rank 16 or less is enough for that. */
  lemma RankedIsShallow(w: World, plan: Plan, mods: seq<Mod>, root: Body)
    requires Feasible(w, plan, mods) && root in plan.bodies && plan.rank(root) <= MODULE_DEPTH_MAX
    ensures Shallow(w, mods, root)
  {
    hide Feasible, Settled, Node, LeftOf;
    forall q | Node(w, mods, root, q).Some? && !Settled(mods, Node(w, mods, root, q).value)
      ensures |q| <= MODULE_DEPTH_MAX
    {
      PathDescends(w, plan, mods, root, q);
    }
  }

  lemma {:induction false} PathDescends(w: World, plan: Plan, mods: seq<Mod>, root: Body, q: seq<nat>)
    requires Feasible(w, plan, mods) && root in plan.bodies && Node(w, mods, root, q).Some?
    ensures var x := Node(w, mods, root, q).value;
            x in plan.bodies && (Settled(mods, x) || plan.rank(x) + |q| <= plan.rank(root))
    decreases |q|
  {
    hide Settled, Inlines, Target;
    if q != [] {
      var pre, i := q[..|q| - 1], q[|q| - 1];
      PathDescends(w, plan, mods, root, pre);
      var y := Node(w, mods, root, pre).value;
      assert Leads(w, plan, mods, y, w.source(y)[i]);
    }
  }

  /** The evaluation of a root: its table and log at the start, and a plan. */
  datatype Search = Search(root: Body, table: seq<Mod>, log: seq<Run>, plan: Plan)

  /** `mods` and `runs` belong to the search. */
  ghost predicate Within(w: World, s: Search, mods: seq<Mod>, runs: seq<Run>) {
    && Good(w, s.table, s.log) && Later(s.table, mods) && Inlines(mods) == Inlines(s.table)
    && During(Inlines(s.table), s.log, runs)
  }

  /** Everything done since the start is met left of the path ... */
  ghost predicate MetLeft(w: World, s: Search, mods: seq<Mod>, path: seq<nat>) {
    forall b :: Settled(mods, b) && !Settled(s.table, b) ==> Meets(w, s, path, b)
  }

  ghost predicate Meets(w: World, s: Search, path: seq<nat>, b: Body) {
    exists q :: LeftOf(q, path) && Node(w, s.table, s.root, q) == Some(b)
  }

  /** ... and everything met left of the path is done. */
  ghost predicate LeftDone(w: World, s: Search, mods: seq<Mod>, path: seq<nat>) {
    forall q :: LeftOf(q, path) && Node(w, s.table, s.root, q).Some? ==>
      Settled(mods, Node(w, s.table, s.root, q).value)
  }

  /** The search has come to `b` by the path. */
  ghost predicate At(w: World, s: Search, mods: seq<Mod>, runs: seq<Run>, path: seq<nat>, b: Body) {
    Within(w, s, mods, runs) && Node(w, s.table, s.root, path) == Some(b) && MetLeft(w, s, mods, path)
  }

  /** Nothing stands in its way. */
  ghost predicate Clear(w: World, s: Search, mods: seq<Mod>, path: seq<nat>) {
    Shallow(w, s.table, s.root) && LeftDone(w, s, mods, path)
  }

  /** Everything done in between is met at the path or below it. */
  ghost predicate MetUnder(w: World, s: Search, mods: seq<Mod>, mods': seq<Mod>, path: seq<nat>) {
    forall b :: Settled(mods', b) && !Settled(mods, b) ==> MeetsUnder(w, s, path, b)
  }

  ghost predicate MeetsUnder(w: World, s: Search, path: seq<nat>, b: Body) {
    exists q :: path <= q && Node(w, s.table, s.root, q) == Some(b)
  }

  // paths

  lemma LeftBelow(q: seq<nat>, path: seq<nat>, more: seq<nat>)
    requires LeftOf(q, path)
    ensures LeftOf(q, path + more)
  {
    var k :| 0 <= k < |q| && k < |path| && q[..k] == path[..k] && q[k] < path[k];
    assert (path + more)[..k] == path[..k];
  }

  lemma LeftBoth(q: seq<nat>, path: seq<nat>, more: seq<nat>)
    requires LeftOf(q, path)
    ensures LeftOf(q + more, path + more)
  {
    var k :| 0 <= k < |q| && k < |path| && q[..k] == path[..k] && q[k] < path[k];
    assert (path + more)[..k] == path[..k] && (q + more)[..k] == q[..k];
  }

  /** Left of the i-th step is left of the path, or an earlier step. */
  lemma LeftOfStep(q: seq<nat>, path: seq<nat>, i: nat)
    ensures LeftOf(q, path + [i]) <==> LeftOf(q, path) || (path < q && q[|path|] < i)
  {
    if LeftOf(q, path) { LeftBelow(q, path, [i]); }
    if path < q && q[|path|] < i {
      var k := |path|;
      assert (path + [i])[..k] == path == q[..k];
    }
    if LeftOf(q, path + [i]) {
      var k :| 0 <= k < |q| && k < |path + [i]| && q[..k] == (path + [i])[..k] && q[k] < (path + [i])[k];
      if k < |path| {
        assert (path + [i])[..k] == path[..k];
      } else {
        assert (path + [i])[..k] == path;
      }
    }
  }

  lemma NodeStep(w: World, table: seq<Mod>, root: Body, path: seq<nat>, i: nat)
    ensures var x := Node(w, table, root, path);
            Node(w, table, root, path + [i]) ==
              if x.None? || Settled(table, x.value) then None else Import1(w, Inlines(table), x.value, i)
  {
    assert (path + [i])[..|path|] == path;
  }

  /** Paths that meet go on together. */
  lemma {:induction false} SameBelow(w: World, table: seq<Mod>, root: Body, a: seq<nat>, b: seq<nat>, more: seq<nat>)
    requires Node(w, table, root, a) == Node(w, table, root, b)
    ensures Node(w, table, root, a + more) == Node(w, table, root, b + more)
    decreases |more|
  {
    hide Settled, Import1, Inlines;
    if more == [] {
      assert a + more == a && b + more == b;
    } else {
      var pre, i := more[..|more| - 1], more[|more| - 1];
      SameBelow(w, table, root, a, b, pre);
      assert a + more == (a + pre) + [i] && b + more == (b + pre) + [i];
      NodeStep(w, table, root, a + pre, i);
      NodeStep(w, table, root, b + pre, i);
    }
  }

  /** Nothing lies below a module that was done, or below nothing. */
  lemma {:induction false} EndsThere(w: World, table: seq<Mod>, root: Body, path: seq<nat>, more: seq<nat>)
    requires Node(w, table, root, path).None? || Settled(table, Node(w, table, root, path).value)
    ensures more != [] ==> Node(w, table, root, path + more) == None
    decreases |more|
  {
    hide Settled, Import1, Inlines;
    if more != [] {
      var pre, i := more[..|more| - 1], more[|more| - 1];
      EndsThere(w, table, root, path, pre);
      assert path + more == (path + pre) + [i] && (pre == [] ==> path + pre == path);
      NodeStep(w, table, root, path + pre, i);
    }
  }

  /** A module that is met again adds no first paths. */
  lemma MetAgain(w: World, s: Search, mods: seq<Mod>, runs: seq<Run>, path: seq<nat>, b: Body)
    requires At(w, s, mods, runs, path, b) && Settled(mods, b)
    ensures ShallowUnder(w, s.table, s.root, path)
  {
    hide Node, Settled, LeftOf, Within;
    forall q | path <= q && Node(w, s.table, s.root, q).Some? && !Settled(s.table, Node(w, s.table, s.root, q).value)
      ensures !FirstPath(w, s.table, s.root, q)
    {
      var more := q[|path|..];
      assert q == path + more && (more == [] ==> q == path);
      if Settled(s.table, b) {
        EndsThere(w, s.table, s.root, path, more);
      } else {
        var r :| LeftOf(r, path) && Node(w, s.table, s.root, r) == Some(b);
        SameBelow(w, s.table, s.root, r, path, more);
        LeftBoth(r, path, more);
      }
    }
  }

  /** First paths below a module are its own and those below its items. */
  lemma ShallowItems(w: World, table: seq<Mod>, root: Body, path: seq<nat>, b: Body)
    requires Node(w, table, root, path) == Some(b) && |path| <= MODULE_DEPTH_MAX
    requires forall i :: 0 <= i < |w.source(b)| ==> ShallowUnder(w, table, root, path + [i])
    ensures ShallowUnder(w, table, root, path)
  {
    hide Settled, LeftOf, Inlines, Target, Node;
    forall q | path <= q && FirstPath(w, table, root, q) && !Settled(table, Node(w, table, root, q).value)
      ensures |q| <= MODULE_DEPTH_MAX
    {
      if |path| < |q| {
        var i := q[|path|];
        var more := q[|path| + 1..];
        assert q == (path + [i]) + more && path + [i] <= q;
        assert more == [] ==> (path + [i]) + more == path + [i];
        NodeStep(w, table, root, path, i);
        if i >= |w.source(b)| { EndsThere(w, table, root, path + [i], more); }
      }
    }
  }

  // what the search keeps

  lemma AtStart(w: World, s: Search)
    requires Good(w, s.table, s.log)
    ensures At(w, s, s.table, s.log, [], s.root)
    ensures Shallow(w, s.table, s.root) ==> Clear(w, s, s.table, [])
  {
    hide Good, Settled, Inlines;
    DuringNothing(Inlines(s.table), s.log);
  }

  lemma WithinOn(w: World, s: Search, a: seq<Mod>, runs: seq<Run>, b: seq<Mod>, runs': seq<Run>)
    requires Within(w, s, a, runs) && Later(a, b) && Inlines(b) == Inlines(a) && During(Inlines(a), runs, runs')
    ensures Within(w, s, b, runs')
  {
    hide Good, Inlines, During;
    DuringTrans(Inlines(s.table), s.log, runs, runs');
  }

  /** A module under evaluation was not done at the start. */
  lemma NotDoneBefore(w: World, s: Search, mods: seq<Mod>, runs: seq<Run>, m: nat)
    requires Good(w, mods, runs) && Within(w, s, mods, runs) && m < |mods| && mods[m].state != Done
    ensures !Settled(s.table, mods[m].body)
  {
    hide Inlines, During, Ready, ReadyRun, Consistent;
  }

  /** What a newly done module imports is done. */
  lemma ImportDone(w: World, s: Search, mods: seq<Mod>, runs: seq<Run>, y: Body, i: nat)
    requires Good(w, mods, runs) && Within(w, s, mods, runs) && Settled(mods, y) && !Settled(s.table, y)
    requires Import1(w, Inlines(s.table), y, i).Some?
    ensures Settled(mods, Import1(w, Inlines(s.table), y, i).value)
  {
    hide Inlines, Target, Consistent, Table;
    var m :| 0 <= m < |mods| && mods[m] == Mod(y, Done);
    assert Ran(runs, m);
    var k :| 0 <= k < |runs| && runs[k].mod == m;
    ShownThen(w, s, mods, runs, k);
    assert ReadyRun(w, mods, runs, k);
    var x := Import1(w, Inlines(s.table), y, i).value;
    assert DoneBefore(mods, runs, k, x);
  }

  lemma ShownThen(w: World, s: Search, mods: seq<Mod>, runs: seq<Run>, k: nat)
    requires Good(w, mods, runs) && Within(w, s, mods, runs) && k < |runs| && mods[runs[k].mod].state == Done
    requires !Settled(s.table, mods[runs[k].mod].body)
    ensures runs[k].shown == Inlines(s.table)
  {
    hide Inlines, Ready, Consistent, Table, ReadyRun;
    assert forall j :: 0 <= j < |s.log| ==> runs[j] == runs[..|s.log|][j] == s.log[j];
  }

  /** So is everything below it. */
  lemma {:induction false} DoneBelow(w: World, s: Search, mods: seq<Mod>, runs: seq<Run>, path: seq<nat>, q: seq<nat>)
    requires Good(w, mods, runs) && Within(w, s, mods, runs) && path <= q
    requires Node(w, s.table, s.root, path).Some? && Settled(mods, Node(w, s.table, s.root, path).value)
    requires Node(w, s.table, s.root, q).Some?
    ensures Settled(mods, Node(w, s.table, s.root, q).value)
    decreases |q|
  {
    hide Good, Within, Settled, Inlines, Import1;
    if |path| == |q| {
      assert q == path;
    } else {
      var pre, i := q[..|q| - 1], q[|q| - 1];
      assert path <= pre;
      DoneBelow(w, s, mods, runs, path, pre);
      ImportDone(w, s, mods, runs, Node(w, s.table, s.root, pre).value, i);
    }
  }

  ghost predicate SameSettled(a: seq<Mod>, b: seq<Mod>) { forall x :: Settled(a, x) <==> Settled(b, x) }

  lemma MarkSettled(mods: seq<Mod>, m: nat, state: State)
    requires m < |mods| && mods[m].state != Done && state != Done
    ensures SameSettled(mods, mods[m := mods[m].(state := state)])
  {
    var mods' := mods[m := mods[m].(state := state)];
    assert forall i :: 0 <= i < |mods| && (mods[i].state == Done || mods'[i].state == Done) ==> mods'[i] == mods[i];
  }

  lemma EnteredSettled(a: seq<Mod>, b: seq<Mod>, m: nat)
    requires Entered(a, b, m)
    ensures SameSettled(a, b)
  {
    forall x | Settled(a, x)
      ensures Settled(b, x)
    {
      var i :| 0 <= i < |a| && a[i] == Mod(x, Done);
      assert b[i] == a[i];
    }
  }

  lemma LaterSettled(a: seq<Mod>, b: seq<Mod>, x: Body)
    requires Later(a, b) && Settled(a, x)
    ensures Settled(b, x)
  {
    var i :| 0 <= i < |a| && a[i] == Mod(x, Done);
    assert b[i] == Mod(x, Done);
  }

  /** A change that is nobody's success. */
  lemma AtMoved(w: World, s: Search, a: seq<Mod>, runs: seq<Run>, b: seq<Mod>, path: seq<nat>, x: Body)
    requires At(w, s, a, runs, path, x) && Later(a, b) && Inlines(b) == Inlines(a) && SameSettled(a, b)
    ensures At(w, s, b, runs, path, x)
  {
    hide Good, Settled, Inlines, Node, Meets, During;
    DuringNothing(Inlines(a), runs);
    WithinOn(w, s, a, runs, b, runs);
  }

  lemma ClearMoved(w: World, s: Search, a: seq<Mod>, b: seq<Mod>, path: seq<nat>)
    requires Clear(w, s, a, path) && SameSettled(a, b)
    ensures Clear(w, s, b, path)
  {
    hide Settled, Node, LeftOf, Shallow;
  }

  /** The search is at the i-th item of the m-th module. */
  ghost predicate AtItem(w: World, s: Search, mods: seq<Mod>, runs: seq<Run>, m: nat, path: seq<nat>, i: nat) {
    && m < |mods| && Within(w, s, mods, runs) && Node(w, s.table, s.root, path) == Some(mods[m].body)
    && MetLeft(w, s, mods, path + [i])
  }

  lemma FirstItem(w: World, s: Search, mods: seq<Mod>, runs: seq<Run>, m: nat, path: seq<nat>)
    requires m < |mods| && At(w, s, mods, runs, path, mods[m].body)
    ensures AtItem(w, s, mods, runs, m, path, 0)
    ensures Clear(w, s, mods, path) ==> Clear(w, s, mods, path + [0])
  {
    hide Within, Settled, Node, LeftOf, Shallow;
    forall q
      ensures LeftOf(q, path + [0]) <==> LeftOf(q, path)
    {
      LeftOfStep(q, path, 0);
    }
    forall b | Settled(mods, b) && !Settled(s.table, b)
      ensures Meets(w, s, path + [0], b)
    {
      assert Meets(w, s, path, b);
      var q :| LeftOf(q, path) && Node(w, s.table, s.root, q) == Some(b);
      assert LeftOf(q, path + [0]);
    }
  }

  /** From the item to what it imports. */
  lemma IntoItem(w: World, s: Search, mods: seq<Mod>, runs: seq<Run>, m: nat, path: seq<nat>, i: nat, x: Body)
    requires Good(w, mods, runs) && AtItem(w, s, mods, runs, m, path, i) && mods[m].state == Visiting
    requires Import1(w, Inlines(mods), mods[m].body, i) == Some(x)
    ensures At(w, s, mods, runs, path + [i], x)
  {
    hide Good, Settled, Import1, Inlines, MetLeft, Node;
    NotDoneBefore(w, s, mods, runs, m);
    NodeStep(w, s.table, s.root, path, i);
  }

  /** And on to the next item. */
  lemma NextItem(w: World, s: Search, a: seq<Mod>, runs: seq<Run>, b: seq<Mod>, runs': seq<Run>, m: nat,
                 path: seq<nat>, i: nat)
    requires AtItem(w, s, a, runs, m, path, i) && MetUnder(w, s, a, b, path + [i])
    requires Later(a, b) && Inlines(b) == Inlines(a) && During(Inlines(a), runs, runs')
    ensures AtItem(w, s, b, runs', m, path, i + 1)
  {
    hide Good, Settled, Node, LeftOf, Inlines, During, Within;
    WithinOn(w, s, a, runs, b, runs');
    forall x | Settled(b, x) && !Settled(s.table, x)
      ensures Meets(w, s, path + [i + 1], x)
    {
      if Settled(a, x) {
        assert Meets(w, s, path + [i], x);
        var q :| LeftOf(q, path + [i]) && Node(w, s.table, s.root, q) == Some(x);
        LeftOfStep(q, path, i);
        LeftOfStep(q, path, i + 1);
      } else {
        assert MeetsUnder(w, s, path + [i], x);
        var q :| path + [i] <= q && Node(w, s.table, s.root, q) == Some(x);
        LeftOfStep(q, path, i + 1);
      }
    }
  }

  lemma ClearNext(w: World, s: Search, a: seq<Mod>, b: seq<Mod>, runs: seq<Run>, path: seq<nat>, i: nat, x: Body)
    requires Clear(w, s, a, path + [i]) && Good(w, b, runs) && Within(w, s, b, runs) && Later(a, b)
    requires Node(w, s.table, s.root, path + [i]) == Some(x) && Settled(b, x)
    ensures Clear(w, s, b, path + [i + 1])
  {
    hide Good, Settled, Node, LeftOf, Within, Shallow, Later;
    forall q | LeftOf(q, path + [i + 1]) && Node(w, s.table, s.root, q).Some?
      ensures Settled(b, Node(w, s.table, s.root, q).value)
    {
      LeftOfStep(q, path, i);
      LeftOfStep(q, path, i + 1);
      if LeftOf(q, path + [i]) {
        LaterSettled(a, b, Node(w, s.table, s.root, q).value);
      } else {
        assert q[..|path| + 1] == path + [i];
        DoneBelow(w, s, b, runs, path + [i], q);
      }
    }
  }

  /** The path to a module that is not done yet is its first. */
  lemma NewIsShallow(w: World, s: Search, mods: seq<Mod>, runs: seq<Run>, path: seq<nat>, m: nat)
    requires Good(w, mods, runs) && m < |mods| && mods[m].state == New && At(w, s, mods, runs, path, mods[m].body)
    requires Clear(w, s, mods, path)
    ensures |path| <= MODULE_DEPTH_MAX
  {
    hide Good, Node, LeftOf, Within, MetLeft, Settled;
    StillNew(w, mods, runs, m);
    NotDoneBefore(w, s, mods, runs, m);
    assert [] <= path;
    assert FirstPath(w, s.table, s.root, path);
  }

  lemma StillNew(w: World, mods: seq<Mod>, runs: seq<Run>, m: nat)
    requires Good(w, mods, runs) && m < |mods| && mods[m].state != Done
    ensures !Settled(mods, mods[m].body)
  {
    hide Ready, ReadyRun, Consistent;
    NotSettled(w, mods, m);
  }

  // what is done below a path

  lemma UnderNothing(w: World, s: Search, a: seq<Mod>, b: seq<Mod>, path: seq<nat>)
    requires SameSettled(a, b)
    ensures MetUnder(w, s, a, b, path)
  {
    hide Settled;
  }

  lemma UnderTrans(w: World, s: Search, a: seq<Mod>, b: seq<Mod>, c: seq<Mod>, path: seq<nat>, i: nat)
    requires MetUnder(w, s, a, b, path) && MetUnder(w, s, b, c, path + [i])
    ensures MetUnder(w, s, a, c, path)
  {
    hide Settled, Node;
    forall x | Settled(c, x) && !Settled(a, x)
      ensures MeetsUnder(w, s, path, x)
    {
      if !Settled(b, x) {
        assert MeetsUnder(w, s, path + [i], x);
        var q :| path + [i] <= q && Node(w, s.table, s.root, q) == Some(x);
        assert path <= q;
      }
    }
  }

  lemma UnderMoved(w: World, s: Search, a: seq<Mod>, b: seq<Mod>, c: seq<Mod>, path: seq<nat>)
    requires SameSettled(a, b) && MetUnder(w, s, b, c, path)
    ensures MetUnder(w, s, a, c, path)
  {
    hide Settled, MeetsUnder;
  }

  lemma UnderOne(w: World, s: Search, a: seq<Mod>, b: seq<Mod>, m: nat, state: State, path: seq<nat>)
    requires MetUnder(w, s, a, b, path) && m < |b| && Node(w, s.table, s.root, path) == Some(b[m].body)
    ensures MetUnder(w, s, a, b[m := b[m].(state := state)], path)
  {
    hide Node;
    var c := b[m := b[m].(state := state)];
    forall x | Settled(c, x) && !Settled(a, x)
      ensures MeetsUnder(w, s, path, x)
    {
      if x == b[m].body {
        assert path <= path;
      } else {
        var i :| 0 <= i < |c| && c[i] == Mod(x, Done);
        assert b[i] == c[i];
        assert Settled(b, x);
      }
    }
  }

  // ---- the loader -------------------------------------------------------

  /** A module script of the page: with a source reference, or with code. */
  datatype Script = Src(ref: string) | Code

  class Loader {
    const world: World
    var mods: seq<Mod>      // oldest first
    var runs: seq<Run>      // the modules handed to the engine, in order
    var serial: nat         // the number of the next inline script

    constructor (world: World)
      requires Consistent(world)
      ensures this.world == world && mods == [] && runs == [] && serial == 0 && Valid() && Idle()
    {
      this.world, mods, runs, serial := world, [], [], 0;
    }

    ghost predicate Valid()
      reads this
    {
      Good(world, mods, runs) && |mods| <= MODULE_MAX && forall i :: 0 <= i < |mods| && mods[i].body.Inline? ==>
        mods[i].body.serial < serial
    }

    /** Nothing is being evaluated. */
    ghost predicate Idle()
      reads this`mods
    {
      forall i :: 0 <= i < |mods| ==> mods[i].state != Visiting
    }

    /** module_find: newest first. */
    method Find(url: Url) returns (m: int)
      requires Valid()
      ensures -1 <= m < |mods|
      // it finds whoever answers to the URL
      ensures if m >= 0 then UrlOf(world, mods[m].body) == url && Named(world, Inlines(mods), url) == mods[m].body
              else Named(world, Inlines(mods), url) == Fetched(url) && forall i :: 0 <= i < |mods| ==>
                UrlOf(world, mods[i].body) != url
    {
      m := |mods| - 1;
      while m >= 0 && UrlOf(world, mods[m].body) != url
        invariant -1 <= m < |mods|
        invariant forall i :: m < i < |mods| ==> UrlOf(world, mods[i].body) != url
      {
        m := m - 1;
      }
      NewestAnswers(world, mods, m, url);
    }

    /** module_add */
    method Add(body: Body) returns (m: int)
      requires Valid() && body !in Bodies(mods)
      requires body.Inline? ==> body.serial < serial
      requires body.Fetched? ==> world.fetch(body.url) == Some(body.url)
      requires body.Fetched? ==> forall i :: 0 <= i < |mods| ==> UrlOf(world, mods[i].body) != body.url
      modifies this`mods
      ensures Valid()
      ensures if |old(mods)| < MODULE_MAX then m == |old(mods)| && mods == old(mods) + [Mod(body, New)]
              else m == -1 && mods == old(mods)
    {
      if |mods| >= MODULE_MAX {
        return -1;
      }
      AddTable(world, mods, body);
      UnevaluatedGood(world, mods, runs, mods + [Mod(body, New)]);
      m := |mods|;
      mods := mods + [Mod(body, New)];
    }

    /** module_external: the entry of what a reference stands for, or -1. */
    method External(base: Option<Url>, ref: string) returns (m: int)
      requires Valid()
      modifies this`mods
      ensures Valid() && Grown(old(mods), mods)
      ensures -1 <= m < |mods|
      ensures m >= 0 ==> Target(world, Inlines(old(mods)), base, ref) == Some(mods[m].body)
      // it is found unless it does not load or there is no room for it
      ensures m < 0 ==> mods == old(mods) && NotFound(mods, Target(world, Inlines(mods), base, ref))
      ensures m >= 0 ==> mods == old(mods) || Entered(old(mods), mods, m)
    {
      hide Good;
      var a := world.resolve(base, ref);
      if a == None {
        return -1;
      }
      m := Find(a.value);
      if m >= 0 {
        InTable(world, mods, runs, m);
        return;
      }
      var f := world.fetch(a.value);
      if f == None {
        return -1;
      }
      m := Find(f.value);
      if m >= 0 {
        return;
      }
      Loads(world, mods, runs, a.value, f.value);
      NotListed(world, mods, f.value);
      m := Add(Fetched(f.value));
    }

    /** module_inline: every inline script is entered, under the next number. */
    method AddInline() returns (m: int)
      requires Valid()
      modifies this`mods, this`serial
      ensures Valid() && serial == old(serial) + 1
      ensures if |old(mods)| < MODULE_MAX then m == |old(mods)| && mods == old(mods) + [Mod(Inline(old(serial)), New)]
              else m == -1 && mods == old(mods)
    {
      hide Good;
      serial := serial + 1;
      m := Add(Inline(serial - 1));
    }

    /** module_transform: evaluate everything the module imports, in order. `path` is
        how the search came here. */
    method Transform(m: nat, depth: nat, ghost s: Search, ghost path: seq<nat>) returns (ok: bool)
      requires Valid() && m < |mods| && mods[m].state == Visiting && depth == |path| <= MODULE_DEPTH_MAX
      requires At(world, s, mods, runs, path, mods[m].body)
      modifies this`mods, this`runs
      ensures Valid() && Grown(old(mods), mods) && During(Inlines(old(mods)), old(runs), runs)
      ensures ok ==> Ready(world, Inlines(old(mods)), mods, runs, |runs|, mods[m].body, world.source(mods[m].body))
      ensures MetUnder(world, s, old(mods), mods, path) && (ok ==> ShallowUnder(world, s.table, s.root, path))
      ensures Busy(world, s.plan, old(mods), m) && Clear(world, s, old(mods), path) ==>
        ok && Busy(world, s.plan, mods, m)
      decreases MODULE_DEPTH_MAX - depth, 1
    {
      hide Good, Ready, Busy, During, Inlines, At, AtItem, MetUnder, ShallowUnder, Clear, SameSettled;
      var body := mods[m].body;
      var items := world.source(body);
      ghost var p := Inlines(mods);
      ghost var clear := Busy(world, s.plan, mods, m) && Clear(world, s, mods, path);
      var i := 0;
      StartItems(world, s, mods, runs, m, path);
      ReadyNothing(world, p, mods, runs, body, items);
      DuringNothing(p, runs);
      while i < |items|
        invariant 0 <= i <= |items|
        invariant Valid() && Grown(old(mods), mods) && During(p, old(runs), runs) && Inlines(mods) == p
        invariant Ready(world, p, mods, runs, |runs|, body, items[..i])
        invariant AtItem(world, s, mods, runs, m, path, i) && MetUnder(world, s, old(mods), mods, path)
        invariant forall j :: 0 <= j < i ==> ShallowUnder(world, s.table, s.root, path + [j])
        invariant clear ==> Busy(world, s.plan, mods, m) && Clear(world, s, mods, path + [i])
      {
        if items[i].Unsupported? {
          NoneUnsupported(world, s.plan, mods, runs, m, items[i]);
          return false;
        }
        ghost var mid, runs' := mods, runs;
        var done := ImportOne(m, i, depth, s, path);
        GrownTrans(old(mods), mid, mods);
        GrownInlines(mid, mods);
        DuringTrans(p, old(runs), runs', runs);
        UnderTrans(world, s, old(mods), mid, mods, path, i);
        if !done {
          return false;
        }
        NextItem(world, s, mid, runs', mods, runs, m, path, i);
        ReadyMore(world, p, mods, runs, body, items, i);
        i := i + 1;
      }
      assert items[..i] == items;
      ShallowHere(world, s, mods, runs, m, path, i);
      return true;
    }

    /** One import: resolve, then evaluate one level deeper. */
    method ImportOne(m: nat, i: nat, depth: nat, ghost s: Search, ghost path: seq<nat>) returns (ok: bool)
      requires Valid() && m < |mods| && mods[m].state == Visiting && depth == |path| <= MODULE_DEPTH_MAX
      requires i < |world.source(mods[m].body)| && world.source(mods[m].body)[i].Import?
      requires Ready(world, Inlines(mods), mods, runs, |runs|, mods[m].body, world.source(mods[m].body)[..i])
      requires AtItem(world, s, mods, runs, m, path, i)
      modifies this`mods, this`runs
      ensures Valid() && Grown(old(mods), mods) && During(Inlines(old(mods)), old(runs), runs)
      ensures Ready(world, Inlines(old(mods)), mods, runs, |runs|, mods[m].body, world.source(mods[m].body)[..i])
      ensures ok ==> Import1(world, Inlines(old(mods)), mods[m].body, i).Some?
      ensures ok ==> DoneBefore(mods, runs, |runs|, Import1(world, Inlines(old(mods)), mods[m].body, i).value)
      ensures MetUnder(world, s, old(mods), mods, path + [i])
      ensures ok ==> ShallowUnder(world, s.table, s.root, path + [i])
      ensures Busy(world, s.plan, old(mods), m) && Clear(world, s, old(mods), path + [i]) ==>
        ok && Busy(world, s.plan, mods, m) && Clear(world, s, mods, path + [i + 1])
      decreases MODULE_DEPTH_MAX - depth, 0
    {
      hide Good, Ready, DoneBefore, Target, Busy, Inlines, During, Planned, Open, Entered, NotFound, At, AtItem;
      hide MetUnder, ShallowUnder, Clear, SameSettled;
      ghost var p := Inlines(mods);
      ghost var clear := Busy(world, s.plan, mods, m) && Clear(world, s, mods, path + [i]);
      var ref := world.source(mods[m].body)[i].ref;
      var dep := External(BaseOf(mods[m].body), ref);
      DuringNothing(p, runs);
      if clear {
        FoundPlanned(world, s.plan, old(mods), runs, mods, m, ref, dep);
      }
      if dep < 0 {
        NoneSettled(mods);
        UnderNothing(world, s, mods, mods, path + [i]);
        return false;
      }
      ghost var mid := mods;
      GrownInlines(old(mods), mid);
      FoundAt(world, s, old(mods), runs, mid, m, path, i, dep);
      ok := Eval(dep, depth + 1, s, path + [i]);
      GrownTrans(old(mods), mid, mods);
      GrownInlines(mid, mods);
      DuringLonger(p, old(runs), runs);
      ReadyStays(world, p, old(mods), old(runs), mods, runs, |old(runs)|, |runs|, mods[m].body,
                 world.source(mods[m].body)[..i]);
      UnderMoved(world, s, old(mods), mid, mods, path + [i]);
      if clear {
        StaysBusy(world, s.plan, old(mods), mods, m);
        ClearOn(world, s, old(mods), old(runs), mods, runs, m, dep, path, i);
      }
    }

    /** module_eval */
    method Eval(m: nat, depth: nat, ghost s: Search, ghost path: seq<nat>) returns (ok: bool)
      requires Valid() && m < |mods| && depth == |path| && At(world, s, mods, runs, path, mods[m].body)
      modifies this`mods, this`runs
      ensures Valid() && Grown(old(mods), mods) && During(Inlines(old(mods)), old(runs), runs)
      ensures (ok <==> mods[m].state == Done) && (mods[m].state == New ==> depth > MODULE_DEPTH_MAX)
      ensures ok ==> DoneBefore(mods, runs, |runs|, mods[m].body)
      // what becomes done is met here or below, and on success no first path is too long
      ensures MetUnder(world, s, old(mods), mods, path) && (ok ==> ShallowUnder(world, s.table, s.root, path))
      // if no first path is too long, what is planned succeeds and leaves the plan open
      ensures Planned(world, s.plan, old(mods), old(mods)[m].body) && Clear(world, s, old(mods), path) ==>
        ok && Open(s.plan, mods)
      decreases MODULE_DEPTH_MAX - depth, 3
    {
      hide Good, DoneBefore, Inlines, Planned, Open, At, MetUnder, ShallowUnder, Clear, SameSettled;
      NoneSettled(mods);
      UnderNothing(world, s, mods, mods, path);
      if mods[m].state == Done {
        DoneWasEvaluated(world, mods, runs, m);
        PlannedOpen(world, s.plan, mods, runs, m);
        DoneIsSettled(mods, m);
        MetAgain(world, s, mods, runs, path, mods[m].body);
        return true;
      }
      if mods[m].state == Visiting || mods[m].state == Failed {
        PlannedOpen(world, s.plan, mods, runs, m);
        return false;
      }
      if Clear(world, s, mods, path) {
        NewIsShallow(world, s, mods, runs, path, m);
      }
      if depth > MODULE_DEPTH_MAX {
        return false;
      }
      ok := EvalNew(m, depth, s, path);
    }

    method EvalNew(m: nat, depth: nat, ghost s: Search, ghost path: seq<nat>) returns (ok: bool)
      requires Valid() && m < |mods| && mods[m].state == New && depth == |path| <= MODULE_DEPTH_MAX
      requires At(world, s, mods, runs, path, mods[m].body)
      modifies this`mods, this`runs
      ensures Valid() && Grown(old(mods), mods) && During(Inlines(old(mods)), old(runs), runs)
      ensures (ok <==> mods[m].state == Done) && mods[m].state != New
      ensures ok ==> DoneBefore(mods, runs, |runs|, mods[m].body)
      ensures MetUnder(world, s, old(mods), mods, path) && (ok ==> ShallowUnder(world, s.table, s.root, path))
      ensures Planned(world, s.plan, old(mods), old(mods)[m].body) && Clear(world, s, old(mods), path) ==>
        ok && Open(s.plan, mods)
      decreases MODULE_DEPTH_MAX - depth, 2
    {
      hide Good, Planned, Busy, Open, DoneBefore, Ready, Inlines, During, At, MetUnder, ShallowUnder, Clear;
      hide Node, SameSettled;
      ghost var was := mods;
      ghost var planned := Planned(world, s.plan, mods, mods[m].body) && Clear(world, s, mods, path);
      if planned { StartsBusy(world, s.plan, mods, runs, m); }
      Mark(m, Visiting);
      Started(world, s, was, runs, m, path);
      ghost var mid := mods;
      ok := Transform(m, depth, s, path);
      GrownInlines(mid, mods);
      UnderMoved(world, s, was, mid, mods, path);
      if !ok {
        UnderOne(world, s, was, mods, m, Failed, path);
        Mark(m, Failed);
        return;
      }
      ok := world.runs(mods[m].body);
      if planned { MustRun(world, s.plan, mods, runs, m); }
      EvaluatedGood(world, mods, runs, m, Inlines(old(mods)), ok);
      DuringMore(Inlines(old(mods)), old(runs), runs, m);
      UnderOne(world, s, was, mods, m, if ok then Done else Failed, path);
      Conclude(m, ok);
    }

    /** Log an evaluation and its outcome. */
    method Conclude(m: nat, ok: bool)
      requires m < |mods|
      modifies this`mods, this`runs
      ensures runs == old(runs) + [Run(m, Inlines(old(mods)))]
      ensures mods == old(mods)[m := old(mods)[m].(state := if ok then Done else Failed)]
      ensures ok ==> DoneBefore(mods, runs, |runs|, mods[m].body)
    {
      runs := runs + [Run(m, Inlines(mods))];
      mods := mods[m := mods[m].(state := if ok then Done else Failed)];
      if ok { JustDone(mods, runs, m); }
    }

    /** Change the state of a module that the engine has not seen. */
    method Mark(m: nat, state: State)
      requires Valid() && m < |mods| && state != Done && (mods[m].state == New || mods[m].state == Visiting)
      modifies this`mods
      ensures Valid() && mods == old(mods)[m := old(mods)[m].(state := state)]
    {
      hide Ready, Consistent, Table;
      var mods' := mods[m := mods[m].(state := state)];
      SameTable(world, mods, mods');
      UnevaluatedGood(world, mods, runs, mods');
      mods := mods';
    }

    /** A root: everything that matters about evaluating one module from outside. */
    method Root(m: nat) returns (ok: bool)
      requires Valid() && Idle() && m < |mods|
      modifies this`mods, this`runs
      // no module is left half-way, and the log only grows
      ensures Valid() && Idle() && Grown(old(mods), mods) && During(Inlines(old(mods)), old(runs), runs)
      ensures mods[m].state == if ok then Done else Failed
      // a root that succeeds reaches no import cycle
      ensures ok ==> !ReachesCycle(ImportGraph(world, old(mods), old(runs), Inlines(old(mods))), mods[m].body)
      // it succeeds exactly when everything it imports loads, runs, fits the table and
      // can be ranked, and is first met within the depth limit
      ensures ok <==> Loadable(world, old(mods), mods[m].body) && Shallow(world, old(mods), mods[m].body)
    {
      hide Good, Planned, Ready, DoneBefore, ReachesCycle, ImportGraph, During, Inlines, At, MetUnder, ShallowUnder;
      hide Clear, Open, Feasible;
      ghost var body := mods[m].body;
      ghost var plan := Plan({}, _ => 0);
      if Loadable(world, mods, body) {
        plan :| body in plan.bodies && Feasible(world, plan, mods) && Open(plan, mods);
        RootPlanned(world, plan, mods, body);
      }
      ghost var s := Search(body, mods, runs, plan);
      AtStart(world, s);
      ok := Eval(m, 0, s, []);
      if ok {
        DoneIsAcyclic(world, old(mods), old(runs), mods, runs, Inlines(old(mods)), m);
        DoneWasLoadable(world, old(mods), old(runs), mods, runs, m);
      }
    }

    /** One module script of the page: its entry in the table, if it got one, and
        whether it was evaluated. */
    method RunScript(script: Script) returns (m: int, ok: bool)
      requires Valid() && Idle()
      modifies this`mods, this`runs, this`serial
      ensures Valid() && Idle() && During(Inlines(mods), old(runs), runs)
      ensures serial == old(serial) + if script.Code? then 1 else 0
      ensures ScriptRun(world, old(mods), mods, Meant(world, old(mods), script, old(serial)), m)
      ensures ok <==> m >= 0 && mods[m].state == Done
      // it is done only if it reaches no cycle
      ensures ok ==> !ReachesCycle(ImportGraph(world, old(mods), old(runs), Inlines(mods)), mods[m].body)
    {
      hide Good, ImportGraph, ReachesCycle, Inlines, During, Named, Loadable, Shallow;
      if script.Src? {
        m := External(None, script.ref);
      } else {
        InlineIsNew(mods, serial);
        m := AddInline();
      }
      DuringNothing(Inlines(mods), runs);
      ok := false;
      if m >= 0 {
        ghost var mid := mods;
        EntryMade(world, old(mods), old(runs), mid, m);
        ok := Root(m);
        GrownInlines(mid, mods);
        if ok {
          DoneIsAcyclic(world, old(mods), old(runs), mods, runs, Inlines(mods), m);
        }
      }
    }
  }

  /** What a script of the page stands for. */
  function Meant(w: World, mods: seq<Mod>, script: Script, serial: nat): Option<Body> {
    match script
    case Src(ref) => Target(w, Inlines(mods), None, ref)
    case Code => Some(Inline(serial))
  }

  /** The table with an entry for `b`. */
  ghost function WithEntry(mods: seq<Mod>, b: Body): seq<Mod> {
    if b in Bodies(mods) then mods else mods + [Mod(b, New)]
  }

  /** A script that stands for `target` was run with the table `a`: it has no entry
      exactly when it leads nowhere or the table is full, and then nothing happens;
      else it ends done or failed, done exactly if everything it imports loads and is
      first met within the depth limit. */
  ghost predicate ScriptRun(w: World, a: seq<Mod>, b: seq<Mod>, target: Option<Body>, m: int) {
    && (m < 0 <==> NotFound(a, target))
    && if m < 0 then b == a
       else target.Some? && Concluded(w, WithEntry(a, target.value), b, target.value, m)
  }

  ghost predicate Concluded(w: World, a: seq<Mod>, b: seq<Mod>, body: Body, m: nat) {
    && Grown(a, b) && m < |b| && b[m].body == body && (b[m].state == Done || b[m].state == Failed)
    && (b[m].state == Done <==> Loadable(w, a, body) && Shallow(w, a, body))
  }

  lemma InlineIsNew(mods: seq<Mod>, serial: nat)
    requires forall i :: 0 <= i < |mods| && mods[i].body.Inline? ==> mods[i].body.serial < serial
    ensures Inline(serial) !in Bodies(mods)
  {
  }

  lemma EntryMade(w: World, a: seq<Mod>, runs: seq<Run>, b: seq<Mod>, m: nat)
    requires Good(w, a, runs) && m < |b| && (b == a || Entered(a, b, m))
    ensures b == WithEntry(a, b[m].body)
    ensures !NotFound(a, Some(b[m].body))
  {
    hide Good;
    if b == a { assert b[m].body in Bodies(a); }
  }

  /** How many of the scripts are inline. */
  function Codes(scripts: seq<Script>): nat {
    if scripts == [] then 0 else Codes(scripts[..|scripts| - 1]) + if scripts[|scripts| - 1].Code? then 1 else 0
  }

  /** The scripts run one after the other, `tables[k]` being the table before the
      k-th, and `entries[k]` its entry. */
  ghost predicate PageRun(w: World, scripts: seq<Script>, tables: seq<seq<Mod>>, entries: seq<int>) {
    && |entries| <= |scripts| && |tables| == |entries| + 1 && tables[0] == []
    && forall k, j :: 0 <= k && j == k + 1 <= |entries| ==>
         ScriptRun(w, tables[k], tables[j], Meant(w, tables[k], scripts[k], Codes(scripts[..k])), entries[k])
  }

  /** All module scripts of a page, in document order. */
  method Page(world: World, scripts: seq<Script>) returns (l: Loader, entries: seq<int>, ghost tables: seq<seq<Mod>>)
    requires Consistent(world)
    ensures fresh(l) && l.world == world && l.Valid() && l.Idle()
    // every script is run in turn
    ensures |entries| == |scripts| && PageRun(world, scripts, tables, entries) && tables[|scripts|] == l.mods
    // over the whole page no module is handed to the engine twice, each comes
    // after everything it imports, and no done one reaches a cycle
    ensures EvaluatedOnce(l.runs) && DependenciesFirst(world, l.mods, l.runs) && NoCycles(world, l.mods, l.runs)
    // references are relative to the module they are in, or to the page
    ensures ImportsFollowed(world, l.mods, l.runs) && ScriptsFollowed(world, scripts, tables, entries)
  {
    hide Good, Inlines, During, Codes, ScriptRun, PageRun, EvaluatedOnce, DependenciesFirst, NoCycles;
    hide ImportsFollowed, ScriptsFollowed;
    l := new Loader(world);
    entries, tables := [], [l.mods];
    NoneYet(world, scripts);
    while |entries| < |scripts|
      invariant fresh(l) && l.world == world && l.Valid() && l.Idle() && |entries| <= |scripts|
      invariant l.serial == Codes(scripts[..|entries|])
      invariant PageRun(world, scripts, tables, entries) && |tables| == |entries| + 1 && tables[|entries|] == l.mods
    {
      var m, _ := l.RunScript(scripts[|entries|]);
      OneMore(world, scripts, tables, entries, l.mods, m);
      entries, tables := entries + [m], tables + [l.mods];
    }
    RunsOnce(world, l.mods, l.runs);
    AllAcyclic(world, l.mods, l.runs);
    FollowImports(world, l.mods, l.runs);
    FollowScripts(world, scripts, tables, entries);
  }

  // ---- where references lead --------------------------------------------

  /** No inline script has this URL. */
  ghost predicate Ordinary(w: World, u: Url) { forall n :: w.inlineUrl(n) != u }

  /** What an ordinary reference ends at was done before the i-th module. */
  ghost predicate Followed(w: World, mods: seq<Mod>, runs: seq<Run>, i: nat, base: Option<Url>, ref: string) {
    && w.resolve(base, ref).Some?
    && var a := w.resolve(base, ref).value;
       Ordinary(w, a) ==>
         w.fetch(a).Some? && (Ordinary(w, w.fetch(a).value) ==> DoneBefore(mods, runs, i, Fetched(w.fetch(a).value)))
  }

  /** Every import of a module that was handed over: the references of a fetched module
      are relative to the URL it was fetched from, those of an inline script to the
      page. */
  ghost predicate ImportsFollowed(w: World, mods: seq<Mod>, runs: seq<Run>) {
    forall i, ref :: 0 <= i < |runs| && runs[i].mod < |mods| && Import(ref) in w.source(mods[runs[i].mod].body) ==>
      ImportFollowed(w, mods, runs, i, mods[runs[i].mod].body, ref)
  }

  ghost predicate ImportFollowed(w: World, mods: seq<Mod>, runs: seq<Run>, i: nat, b: Body, ref: string) {
    match b
    case Fetched(u) => Followed(w, mods, runs, i, Some(u), ref)
    case Inline(_) => Followed(w, mods, runs, i, None, ref)
  }

  /** The entry of an ordinary script is what its reference, relative to the page, ends
      at; that of an inline script is the next inline one. */
  ghost predicate ScriptsFollowed(w: World, scripts: seq<Script>, tables: seq<seq<Mod>>, entries: seq<int>) {
    && |entries| <= |scripts| && |tables| == |entries| + 1
    && forall k, j :: 0 <= k && j == k + 1 <= |entries| && entries[k] >= 0 ==>
         ScriptFollowed(w, scripts, tables[j], k, entries[k])
  }

  ghost function InlineBefore(scripts: seq<Script>, k: nat): set<nat>
    requires k <= |scripts|
  {
    set j: nat | j < k && scripts[j].Code?
  }

  ghost predicate ScriptFollowed(w: World, scripts: seq<Script>, mods: seq<Mod>, k: nat, m: nat)
    requires k < |scripts|
  {
    && m < |mods|
    && match scripts[k]
       case Code => mods[m].body == Inline(|InlineBefore(scripts, k)|)
       case Src(ref) =>
         && w.resolve(None, ref).Some?
         && var a := w.resolve(None, ref).value;
            Ordinary(w, a) ==>
              && w.fetch(a).Some?
              && (Ordinary(w, w.fetch(a).value) ==> mods[m].body == Fetched(w.fetch(a).value))
  }

  lemma {:induction false} OrdinaryName(w: World, p: seq<nat>, u: Url)
    requires Ordinary(w, u)
    ensures Named(w, p, u) == Fetched(u)
    decreases |p|
  {
    if p != [] { OrdinaryName(w, p[..|p| - 1], u); }
  }

  /** An ordinary reference means what the request for it ends at. */
  lemma OrdinaryTarget(w: World, p: seq<nat>, base: Option<Url>, ref: string)
    requires w.resolve(base, ref).Some? && Ordinary(w, w.resolve(base, ref).value)
    ensures var f := w.fetch(w.resolve(base, ref).value);
            && (f.None? ==> Target(w, p, base, ref) == None)
            && (f.Some? && Ordinary(w, f.value) ==> Target(w, p, base, ref) == Some(Fetched(f.value)))
  {
    hide Named, Ordinary;
    var a := w.resolve(base, ref).value;
    OrdinaryName(w, p, a);
    if w.fetch(a).Some? && Ordinary(w, w.fetch(a).value) { OrdinaryName(w, p, w.fetch(a).value); }
  }

  lemma FollowImports(w: World, mods: seq<Mod>, runs: seq<Run>)
    requires DependenciesFirst(w, mods, runs)
    ensures ImportsFollowed(w, mods, runs)
  {
    hide Ordinary, Target, DoneBefore;
    forall i, ref | 0 <= i < |runs| && runs[i].mod < |mods| && Import(ref) in w.source(mods[runs[i].mod].body)
      ensures ImportFollowed(w, mods, runs, i, mods[runs[i].mod].body, ref)
    {
      var b := mods[runs[i].mod].body;
      assert ReadyRun(w, mods, runs, i);
      var j :| 0 <= j < |w.source(b)| && w.source(b)[j] == Import(ref);
      assert Target(w, runs[i].shown, BaseOf(b), w.source(b)[j].ref).Some?;
      FollowOne(w, runs[i].shown, BaseOf(b), ref);
    }
  }

  lemma FollowOne(w: World, p: seq<nat>, base: Option<Url>, ref: string)
    requires Target(w, p, base, ref).Some?
    ensures w.resolve(base, ref).Some?
    ensures var a := w.resolve(base, ref).value;
            Ordinary(w, a) ==>
              && w.fetch(a).Some?
              && (Ordinary(w, w.fetch(a).value) ==> Target(w, p, base, ref) == Some(Fetched(w.fetch(a).value)))
  {
    hide Ordinary;
    if w.resolve(base, ref).Some? && Ordinary(w, w.resolve(base, ref).value) {
      OrdinaryTarget(w, p, base, ref);
    }
  }

  lemma {:induction false} CodesAreMany(scripts: seq<Script>, k: nat)
    requires k <= |scripts|
    ensures Codes(scripts[..k]) == |InlineBefore(scripts, k)|
    decreases k
  {
    if k == 0 {
      assert InlineBefore(scripts, k) == {};
    } else {
      CodesAreMany(scripts, k - 1);
      assert scripts[..k][..k - 1] == scripts[..k - 1];
      var b := InlineBefore(scripts, k - 1);
      assert InlineBefore(scripts, k) == if scripts[k - 1].Code? then b + {k - 1} else b;
    }
  }

  lemma FollowScripts(w: World, scripts: seq<Script>, tables: seq<seq<Mod>>, entries: seq<int>)
    requires PageRun(w, scripts, tables, entries)
    ensures ScriptsFollowed(w, scripts, tables, entries)
  {
    hide Ordinary, Target, Loadable, Shallow, Grown, NotFound, WithEntry, Inlines, Codes;
    forall k, j | 0 <= k && j == k + 1 <= |entries| && entries[k] >= 0
      ensures ScriptFollowed(w, scripts, tables[j], k, entries[k])
    {
      assert ScriptRun(w, tables[k], tables[j], Meant(w, tables[k], scripts[k], Codes(scripts[..k])), entries[k]);
      CodesAreMany(scripts, k);
      if scripts[k].Src? { FollowOne(w, Inlines(tables[k]), None, scripts[k].ref); }
    }
  }

  // ---- a reference that changes its meaning -----------------------------

  /** Every reference leads to the URL of the inline script, which cannot be
      fetched. */
  function Fragment(): World {
    World(_ => "page#inline-module-0", (_, _) => Some("page#inline-module-0"), _ => None, _ => [], _ => true)
  }

  /** The same reference first leads nowhere, and after the inline script it is the
      inline script. */
  method MovingTarget(ref: string) returns (l: Loader, entries: seq<int>)
    ensures |entries| == 3 && entries[0] < 0
    ensures 0 <= entries[1] < |l.mods| && 0 <= entries[2] < |l.mods|
    ensures l.mods[entries[1]] == l.mods[entries[2]] == Mod(Inline(0), Done)
  {
    hide EvaluatedOnce, DependenciesFirst, NoCycles, PageRun, ImportsFollowed, ScriptsFollowed;
    ghost var tables;
    l, entries, tables := Page(Fragment(), [Src(ref), Code, Src(ref)]);
    Moves(ref, tables, entries);
  }

  lemma Moves(ref: string, tables: seq<seq<Mod>>, entries: seq<int>)
    requires PageRun(Fragment(), [Src(ref), Code, Src(ref)], tables, entries) && |entries| == 3
    ensures entries[0] < 0
    ensures 0 <= entries[1] < |tables[3]| && 0 <= entries[2] < |tables[3]|
    ensures tables[3][entries[1]] == tables[3][entries[2]] == Mod(Inline(0), Done)
  {
    hide Shallow, Loadable;
    var w, scripts := Fragment(), [Src(ref), Code, Src(ref)];
    assert scripts[..0] == [] && scripts[..1] == [Src(ref)] && scripts[..2] == [Src(ref), Code];
    assert [Src(ref)][..0] == [] && [Src(ref), Code][..1] == [Src(ref)];
    assert Codes(scripts[..1]) == 0;
    assert ScriptRun(w, tables[0], tables[1], Meant(w, tables[0], scripts[0], Codes(scripts[..0])), entries[0]);
    assert tables[1] == [];
    assert ScriptRun(w, tables[1], tables[2], Meant(w, tables[1], scripts[1], Codes(scripts[..1])), entries[1]);
    var made := [Mod(Inline(0), New)];
    assert WithEntry([], Inline(0)) == made;
    assert Inlines(made) == [0] by { assert made[..0] == []; }
    Runnable(made);
    GrownInlines(made, tables[2]);
    assert ScriptRun(w, tables[2], tables[3], Meant(w, tables[2], scripts[2], Codes(scripts[..2])), entries[2]);
  }

  lemma Runnable(mods: seq<Mod>)
    requires mods == [Mod(Inline(0), New)]
    ensures Loadable(Fragment(), mods, Inline(0)) && Shallow(Fragment(), mods, Inline(0))
  {
    var w, plan := Fragment(), Plan({Inline(0)}, _ => 0);
    assert Bodies(mods) == {Inline(0)} by { assert mods[0].body == Inline(0); }
    assert plan.bodies + Bodies(mods) == {Inline(0)};
    assert Inline(0) in plan.bodies && Feasible(w, plan, mods) && Open(plan, mods);
    forall q | q != []
      ensures Node(w, mods, Inline(0), q) == None
    {
      var x := Node(w, mods, Inline(0), q[..|q| - 1]);
      assert x.Some? ==> w.source(x.value) == [];
    }
  }

  ghost predicate EvaluatedOnce(runs: seq<Run>) {
    forall i, j :: 0 <= i < j < |runs| ==> runs[i].mod != runs[j].mod
  }

  ghost predicate DependenciesFirst(w: World, mods: seq<Mod>, runs: seq<Run>) {
    forall i :: 0 <= i < |runs| ==> runs[i].mod < |mods| && ReadyRun(w, mods, runs, i)
  }

  ghost predicate NoCycles(w: World, mods: seq<Mod>, runs: seq<Run>) {
    forall m :: 0 <= m < |mods| && mods[m].state == Done ==>
      !ReachesCycle(ImportGraph(w, mods, runs, Inlines(mods)), mods[m].body)
  }

  lemma RunsOnce(w: World, mods: seq<Mod>, runs: seq<Run>)
    requires Good(w, mods, runs)
    ensures EvaluatedOnce(runs) && DependenciesFirst(w, mods, runs)
  {
  }

  lemma NoneYet(w: World, scripts: seq<Script>)
    ensures PageRun(w, scripts, [[]], []) && Codes(scripts[..0]) == 0
  {
  }

  lemma OneMore(w: World, scripts: seq<Script>, tables: seq<seq<Mod>>, entries: seq<int>, mods: seq<Mod>, m: int)
    requires PageRun(w, scripts, tables, entries) && |entries| < |scripts|
    requires ScriptRun(w, tables[|entries|], mods,
                       Meant(w, tables[|entries|], scripts[|entries|], Codes(scripts[..|entries|])), m)
    ensures PageRun(w, scripts, tables + [mods], entries + [m])
    ensures Codes(scripts[..|entries| + 1]) == Codes(scripts[..|entries|]) + if scripts[|entries|].Code? then 1 else 0
  {
    hide ScriptRun, Meant;
    assert scripts[..|entries| + 1][..|entries|] == scripts[..|entries|];
    var tables', entries' := tables + [mods], entries + [m];
    forall k, j | 0 <= k && j == k + 1 <= |entries'|
      ensures ScriptRun(w, tables'[k], tables'[j], Meant(w, tables'[k], scripts[k], Codes(scripts[..k])), entries'[k])
    {
      if j <= |entries| {
        assert ScriptRun(w, tables[k], tables[j], Meant(w, tables[k], scripts[k], Codes(scripts[..k])), entries[k]);
      }
    }
  }

  lemma AllAcyclic(w: World, mods: seq<Mod>, runs: seq<Run>)
    requires Good(w, mods, runs)
    ensures NoCycles(w, mods, runs)
  {
    hide Good, ImportGraph, ReachesCycle, Inlines;
    forall m | 0 <= m < |mods| && mods[m].state == Done
      ensures !ReachesCycle(ImportGraph(w, mods, runs, Inlines(mods)), mods[m].body)
    {
      DoneIsAcyclic(w, mods, runs, mods, runs, Inlines(mods), m);
    }
  }

  /** What a busy module imports is found, and planned. */
  lemma FoundPlanned(w: World, plan: Plan, a: seq<Mod>, runs: seq<Run>, b: seq<Mod>, m: nat, ref: string,
                     dep: int)
    requires Good(w, a, runs) && Busy(w, plan, a, m) && Grown(a, b) && Import(ref) in w.source(a[m].body)
    requires dep < |b| && if dep >= 0
                          then Target(w, Inlines(a), BaseOf(a[m].body), ref) == Some(b[dep].body)
                               && (b == a || Entered(a, b, dep))
                          else b == a && NotFound(a, Target(w, Inlines(a), BaseOf(a[m].body), ref))
    ensures dep >= 0 && Planned(w, plan, b, b[dep].body)
  {
    hide Feasible, Settled, Table, Target, Planned, Consistent, Above;
    BusyLeads(w, plan, a, m, Import(ref));
    var t := Target(w, Inlines(a), BaseOf(a[m].body), ref).value;
    if t !in Bodies(a) { RoomFor(w, plan, a, t); }
    ImportPlanned(w, plan, a, b, m, ref);
  }

  lemma PlannedOpen(w: World, plan: Plan, mods: seq<Mod>, runs: seq<Run>, m: nat)
    requires Good(w, mods, runs) && m < |mods| && mods[m].state != New
    ensures Planned(w, plan, mods, mods[m].body) ==> mods[m].state == Done && Open(plan, mods)
  {
    hide Consistent, Ready, Feasible;
    if Planned(w, plan, mods, mods[m].body) && mods[m].state != Done {
      NotSettled(w, mods, m);
      assert false;
    }
  }

  lemma StartsBusy(w: World, plan: Plan, mods: seq<Mod>, runs: seq<Run>, m: nat)
    requires Good(w, mods, runs) && m < |mods| && mods[m].state == New && Planned(w, plan, mods, mods[m].body)
    ensures Busy(w, plan, mods[m := mods[m].(state := Visiting)], m)
  {
    hide Busy, Planned, Table, Consistent, Ready;
    StartBusy(w, plan, mods, m);
  }

  lemma MustRun(w: World, plan: Plan, mods: seq<Mod>, runs: seq<Run>, m: nat)
    requires Good(w, mods, runs) && Busy(w, plan, mods, m)
    ensures w.runs(mods[m].body) && Open(plan, mods[m := mods[m].(state := Done)])
  {
    hide Open, Table, Consistent, Ready;
    BusyLeads(w, plan, mods, m, Unsupported);
    OpenDone(plan, mods, m);
  }

  lemma NoneUnsupported(w: World, plan: Plan, mods: seq<Mod>, runs: seq<Run>, m: nat, item: Item)
    requires Good(w, mods, runs) && m < |mods| && item in w.source(mods[m].body) && item.Unsupported?
    ensures !Busy(w, plan, mods, m)
  {
    hide Table, Consistent, Ready, Busy;
    if Busy(w, plan, mods, m) {
      BusyLeads(w, plan, mods, m, item);
      assert false;
    }
  }

  lemma RootPlanned(w: World, plan: Plan, mods: seq<Mod>, b: Body)
    requires b in plan.bodies && Feasible(w, plan, mods) && Open(plan, mods)
    requires forall i :: 0 <= i < |mods| ==> mods[i].state != Visiting
    ensures Planned(w, plan, mods, b)
  {
    hide Feasible, Open;
  }

  lemma NoneSettled(mods: seq<Mod>)
    ensures SameSettled(mods, mods)
  {
  }

  lemma DoneIsSettled(mods: seq<Mod>, m: nat)
    requires m < |mods| && mods[m].state == Done
    ensures Settled(mods, mods[m].body)
  {
    assert mods[m] == Mod(mods[m].body, Done);
  }

  /** A module has just been marked. */
  lemma Started(w: World, s: Search, mods: seq<Mod>, runs: seq<Run>, m: nat, path: seq<nat>)
    requires m < |mods| && mods[m].state == New && At(w, s, mods, runs, path, mods[m].body)
    ensures var mods' := mods[m := mods[m].(state := Visiting)];
            && Inlines(mods') == Inlines(mods) && SameSettled(mods, mods') && At(w, s, mods', runs, path, mods[m].body)
            && (Clear(w, s, mods, path) ==> Clear(w, s, mods', path))
            && Node(w, s.table, s.root, path) == Some(mods[m].body)
  {
    hide Settled, Inlines, Node, SameSettled, Clear, MetLeft, Within;
    var mods' := mods[m := mods[m].(state := Visiting)];
    SameInlines(mods, mods');
    MarkSettled(mods, m, Visiting);
    AtMoved(w, s, mods, runs, mods', path, mods[m].body);
    if Clear(w, s, mods, path) { ClearMoved(w, s, mods, mods', path); }
  }

  lemma StartItems(w: World, s: Search, mods: seq<Mod>, runs: seq<Run>, m: nat, path: seq<nat>)
    requires m < |mods| && At(w, s, mods, runs, path, mods[m].body)
    ensures AtItem(w, s, mods, runs, m, path, 0) && MetUnder(w, s, mods, mods, path)
    ensures Clear(w, s, mods, path) ==> Clear(w, s, mods, path + [0])
  {
    hide At, AtItem, MetUnder, Clear, SameSettled;
    FirstItem(w, s, mods, runs, m, path);
    NoneSettled(mods);
    UnderNothing(w, s, mods, mods, path);
  }

  lemma ShallowHere(w: World, s: Search, mods: seq<Mod>, runs: seq<Run>, m: nat, path: seq<nat>, i: nat)
    requires AtItem(w, s, mods, runs, m, path, i) && i == |w.source(mods[m].body)| && |path| <= MODULE_DEPTH_MAX
    requires forall j :: 0 <= j < i ==> ShallowUnder(w, s.table, s.root, path + [j])
    ensures ShallowUnder(w, s.table, s.root, path)
  {
    hide ShallowUnder, Node, Within, MetLeft;
    ShallowItems(w, s.table, s.root, path, mods[m].body);
  }

  /** What an item imports has been found, and the search goes there. */
  lemma FoundAt(w: World, s: Search, a: seq<Mod>, runs: seq<Run>, b: seq<Mod>, m: nat, path: seq<nat>, i: nat, dep: nat)
    requires Good(w, a, runs) && AtItem(w, s, a, runs, m, path, i) && a[m].state == Visiting
    requires dep < |b| && Import1(w, Inlines(a), a[m].body, i) == Some(b[dep].body)
    requires Grown(a, b) && Inlines(b) == Inlines(a) && (b == a || Entered(a, b, dep))
    ensures At(w, s, b, runs, path + [i], b[dep].body) && SameSettled(a, b)
    ensures Clear(w, s, a, path + [i]) ==> Clear(w, s, b, path + [i])
  {
    hide Good, AtItem, At, Clear, Settled, Inlines, Import1, SameSettled, Entered;
    if b == a { NoneSettled(a); } else { EnteredSettled(a, b, dep); }
    IntoItem(w, s, a, runs, m, path, i, b[dep].body);
    AtMoved(w, s, a, runs, b, path + [i], b[dep].body);
    if Clear(w, s, a, path + [i]) { ClearMoved(w, s, a, b, path + [i]); }
  }

  /** It is done, and the search can go on to the next item. */
  lemma ClearOn(w: World, s: Search, a: seq<Mod>, runs: seq<Run>, b: seq<Mod>, runs': seq<Run>, m: nat, dep: nat,
                path: seq<nat>, i: nat)
    requires Good(w, a, runs) && Good(w, b, runs') && AtItem(w, s, a, runs, m, path, i) && a[m].state == Visiting
    requires Grown(a, b) && Inlines(b) == Inlines(a) && During(Inlines(a), runs, runs')
    requires dep < |b| && b[dep].state == Done && Import1(w, Inlines(a), a[m].body, i) == Some(b[dep].body)
    requires Clear(w, s, a, path + [i])
    ensures Clear(w, s, b, path + [i + 1])
  {
    hide Good, Clear, Settled, Inlines, Import1, Within, MetLeft, Node, During;
    IntoItem(w, s, a, runs, m, path, i, b[dep].body);
    WithinOn(w, s, a, runs, b, runs');
    DoneIsSettled(b, dep);
    ClearNext(w, s, a, b, runs', path, i, b[dep].body);
  }

  lemma JustDone(mods: seq<Mod>, runs: seq<Run>, m: nat)
    requires m < |mods| && mods[m].state == Done && runs != [] && runs[|runs| - 1].mod == m
    ensures DoneBefore(mods, runs, |runs|, mods[m].body)
  {
    assert mods[runs[|runs| - 1].mod] == Mod(mods[m].body, Done);
  }

  lemma ReadyNothing(w: World, p: seq<nat>, mods: seq<Mod>, runs: seq<Run>, b: Body, items: seq<Item>)
    ensures Ready(w, p, mods, runs, |runs|, b, items[..0])
  {
  }

  lemma ReadyMore(w: World, p: seq<nat>, mods: seq<Mod>, runs: seq<Run>, b: Body, items: seq<Item>, i: nat)
    requires i < |items| && Ready(w, p, mods, runs, |runs|, b, items[..i]) && items[i].Import?
    requires Target(w, p, BaseOf(b), items[i].ref).Some?
    requires DoneBefore(mods, runs, |runs|, Target(w, p, BaseOf(b), items[i].ref).value)
    ensures Ready(w, p, mods, runs, |runs|, b, items[..i + 1])
  {
    hide DoneBefore, Target;
    assert items[..i + 1] == items[..i] + [items[i]];
  }

  lemma DuringNothing(p: seq<nat>, runs: seq<Run>)
    ensures During(p, runs, runs)
  {
  }

  lemma DuringLonger(p: seq<nat>, a: seq<Run>, b: seq<Run>)
    requires During(p, a, b)
    ensures Longer(a, b)
  {
  }

  lemma DuringMore(p: seq<nat>, a: seq<Run>, b: seq<Run>, m: nat)
    requires During(p, a, b)
    ensures During(p, a, b + [Run(m, p)])
  {
    assert (b + [Run(m, p)])[..|a|] == b[..|a|];
  }

  /** A reference leads nowhere, or to something the full table has no room for. */
  ghost predicate NotFound(mods: seq<Mod>, target: Option<Body>) {
    target.None? || (|mods| >= MODULE_MAX && target.value !in Bodies(mods))
  }

  ghost predicate Entered(a: seq<Mod>, b: seq<Mod>, m: nat) {
    m == |a| < MODULE_MAX && |b| == m + 1 && b == a + [Mod(b[m].body, New)] && b[m].body !in Bodies(a)
  }

  lemma InTable(w: World, mods: seq<Mod>, runs: seq<Run>, m: nat)
    requires Good(w, mods, runs) && m < |mods|
    ensures mods[m].body.Fetched? ==> w.fetch(mods[m].body.url) == Some(mods[m].body.url)
  {
  }

  lemma Loads(w: World, mods: seq<Mod>, runs: seq<Run>, a: Url, f: Url)
    requires Good(w, mods, runs) && w.fetch(a) == Some(f)
    ensures w.fetch(f) == Some(f)
  {
  }

  lemma NotListed(w: World, mods: seq<Mod>, u: Url)
    requires forall i :: 0 <= i < |mods| ==> UrlOf(w, mods[i].body) != u
    ensures Fetched(u) !in Bodies(mods)
  {
  }

  lemma AddTable(w: World, mods: seq<Mod>, b: Body)
    requires Table(w, mods) && b !in Bodies(mods)
    requires b.Fetched? ==> w.fetch(b.url) == Some(b.url)
    requires b.Fetched? ==> forall i :: 0 <= i < |mods| ==> UrlOf(w, mods[i].body) != b.url
    ensures Table(w, mods + [Mod(b, New)])
  {
    assert forall i :: 0 <= i < |mods| ==> mods[i].body in Bodies(mods);
  }
}
