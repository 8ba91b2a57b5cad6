/** The running supervisor of apps/init.c: recursive start with a cycle guard,
    reaping and backoff restarts, loss of requirements, operator commands and
    the reverse-order shutdown. Processes are an oracle: `world(k)` is the
    outcome of the k-th attempt to spawn, and each tick is told which children
    have died. */
module Supervisor {
  import opened Units
  import opened Enforcement
  import Ordering
  import opened Counting

  const FAIL_WINDOW_MS: nat := 30000
  const FAIL_MAX: nat := 5
  const SETTLED_MS: nat := 1000

  function BackoffMs(i: nat): nat
    requires i < 4
  {
    [0, 1000, 2000, 5000][i]
  }

  datatype Readiness = BecameReady | ExitedEarly(code: int) | TimedOut(code: int)
  datatype Spawn = BadExec | SpawnFailed | Spawned(pid: nat, now: nat, readiness: Readiness)
  datatype Death = Alive | Died(code: int, now: nat)

  datatype Verb = Start | Stop | Restart | ResetFailed

  // ---- what happens to one unit -----------------------------------------

  /** unit_spawn, where `s` is the start number a first start would get. */
  function SpawnUnit(v: Unit, ready: bool, o: Spawn, s: nat): Unit {
    var w := v.(nextStart := 0, stopping := false, restartPending := false, dependencyFailed := false);
    if !v.enabled then w.(state := Disabled)
    else match o
      case BadExec => w.(state := Failed)
      case SpawnFailed => w.(state := Failed)
      case Spawned(pid, now, readiness) =>
        var x := w.(pid := pid, startMs := now, seqNo := if v.seqNo == 0 then s else v.seqNo);
        if !ready then x.(state := Running)
        else match readiness
          case BecameReady => x.(state := Running)
          case ExitedEarly(code) => x.(state := Failed, pid := 0, exitCode := code)
          case TimedOut(code) => x.(state := Failed, pid := 0, exitCode := code)
  }

  /** unit_died when no operator restart is pending. */
  function Bury(v: Unit, code: int, now: nat): Unit
    requires v.backoff < 4
  {
    var w := v.(pid := 0, exitCode := code);
    if v.stopping then
      w.(stopping := false, dependencyFailed := false,
         state := if v.dependencyFailed then Failed else if v.enabled then Stopped else Disabled)
    else if v.respawn == Never || (v.respawn == OnFailure && code == 0) || !v.enabled then
      w.(state := if v.enabled then Exited else Disabled)
    else if code == 0 && IsSettled(v, now) then
      w.(restarts := v.restarts + 1, nextStart := now, state := Waiting)
    else
      var x := if WindowOver(v, now) then w.(winOpen := true, winStart := now, fails := 1, backoff := 0)
               else w.(fails := v.fails + 1);
      if x.fails >= FAIL_MAX then x.(state := Failed)
      else x.(restarts := v.restarts + 1, nextStart := now + BackoffMs(x.backoff),
              backoff := if x.backoff < 3 then x.backoff + 1 else x.backoff, state := Waiting)
  }

  /** The old instance of a unit that is to be restarted. */
  function Gone(v: Unit, code: int): Unit {
    Fresh(v.(pid := 0, exitCode := code, restartPending := false, stopping := false, state := Stopped))
  }

  /** A unit whose child is waited for. */
  predicate Reapable(v: Unit) { (v.state == Running || v.state == Starting || v.stopping) && v.pid > 0 }

  /** What reaping makes of a unit. */
  function Reaped(v: Unit, d: Death): Unit
    requires v.backoff < 4
  {
    if Reapable(v) && d.Died? then Bury(v, d.code, d.now) else v
  }

  /** The clock is unsigned: a difference that would be negative is huge. */
  predicate IsSettled(v: Unit, now: nat) { now < v.startMs || now - v.startMs >= SETTLED_MS }
  predicate WindowOver(v: Unit, now: nat) { !v.winOpen || now < v.winStart || now - v.winStart > FAIL_WINDOW_MS }

  /** An operator restart starts from a clean slate. */
  function Fresh(v: Unit): Unit { v.(fails := 0, backoff := 0, winStart := 0, winOpen := false) }

  predicate Up(v: Unit) { v.state == Running || v.state == Starting }

  /** start_all's turn for services numbered `o`, or for -1 the rest. */
  predicate Due(c: Config, v: Unit, o: int) {
    if o >= 0 then c.kind == Service && v.order == o else c.kind == Respawn || c.kind == Once
  }

  /** A unit as `start` or `restart` prepares it. */
  function Rearmed(verb: Verb, v: Unit): Unit {
    if verb.Start? then Fresh(v.(enabled := true, restartPending := false, dependencyFailed := false))
    else Fresh(v.(enabled := true))
  }

  function ToldToStop(v: Unit): Unit {
    var w := v.(restartPending := false, dependencyFailed := false);
    if Up(v) && v.pid > 0 then w.(stopping := true) else w.(state := Stopped, nextStart := 0)
  }

  function ResetUnit(v: Unit): Unit {
    var w := v.(fails := 0, backoff := 0, winOpen := false, nextStart := 0);
    if v.state == Failed then w.(state := if v.enabled then Stopped else Disabled) else w
  }

  /** The command makes init send the unit a signal. */
  predicate Signalled(verb: Verb, v: Unit) {
    (verb.Stop? || verb.Restart?) && Up(v) && v.pid > 0
  }

  /** Crash bookkeeping, which only deaths and operators touch. */
  predicate SameWindow(v: Unit, w: Unit) {
    w.fails == v.fails && w.backoff == v.backoff && w.winOpen == v.winOpen && w.winStart == v.winStart
  }

  // ---- invariants -------------------------------------------------------

  /** Every requirement of `u` is another service and is satisfied. */
  ghost predicate AllMet(cfg: seq<Config>, us: seq<Unit>, u: int)
    requires |us| == |cfg| && 0 <= u < |cfg|
  {
    cfg[u].kind == Service ==>
      forall name :: name in cfg[u].needs ==> Resolves(cfg, u, name) && Satisfied(us[Find(cfg, name)])
  }

  /** A started unit was first started after everything it requires. */
  ghost predicate StartedAfter(cfg: seq<Config>, us: seq<Unit>, u: int)
    requires |us| == |cfg| && 0 <= u < |cfg|
  {
    cfg[u].kind == Service && us[u].seqNo > 0 ==>
      forall name :: name in cfg[u].needs ==>
        Resolves(cfg, u, name) && 0 < us[Find(cfg, name)].seqNo < us[u].seqNo
  }

  /** What every step of the supervisor keeps. */
  ghost predicate Good(cfg: seq<Config>, us: seq<Unit>, counter: nat) {
    && |us| == |cfg|
    && (forall u :: 0 <= u < |us| ==> us[u].seqNo <= counter && us[u].backoff < 4 && us[u].state != Starting)
    && (forall u :: 0 <= u < |us| && (us[u].state == Running || us[u].state == Exited) ==> us[u].seqNo > 0)
    && (forall u, v :: 0 <= u < v < |us| && us[u].seqNo == us[v].seqNo ==> us[u].seqNo == 0)
    && (forall u :: 0 <= u < |us| ==> StartedAfter(cfg, us, u))
  }

  /** A set of unsatisfied services each of which requires one of the others,
      such as a requires= cycle. */
  ghost predicate Stuck(cfg: seq<Config>, us: seq<Unit>, c: set<int>) {
    && |us| == |cfg|
    && forall u :: u in c ==> IsService(cfg, u) && !Satisfied(us[u]) && NeedsOneOf(cfg, u, c)
  }

  ghost predicate NeedsOneOf(cfg: seq<Config>, u: int, c: set<int>)
    requires 0 <= u < |cfg|
  {
    exists name :: name in cfg[u].needs && Find(cfg, name) in c
  }

  /** What starting `u` leaves alone. */
  ghost predicate StartKeeps(us: seq<Unit>, vs: seq<Unit>, u: int) {
    && |vs| == |us|
    && (forall v :: 0 <= v < |us| ==>
          && vs[v].guard == us[v].guard && vs[v].respawn == us[v].respawn && vs[v].order == us[v].order
          && (us[v].enabled ==> vs[v].enabled)
          && SameWindow(us[v], vs[v]) && (vs[v].restartPending ==> us[v].restartPending)
          && (us[v].seqNo > 0 ==> vs[v].seqNo == us[v].seqNo))
    && (forall v :: 0 <= v < |us| && v != u && (Satisfied(us[v]) || us[v].state == Failed) ==> vs[v] == us[v])
    && (forall v :: 0 <= v < |us| ==> vs[v] == us[v] || Tried(vs[v]))
  }

  /** Started, failed or not to be started. */
  predicate Tried(v: Unit) { v.state == Running || v.state == Failed || v.state == Disabled }

  /** The units started since: `spawned` grew by units outside every stuck set,
      and stuck sets stay stuck. */
  ghost predicate StuckKept(cfg: seq<Config>, us: seq<Unit>, vs: seq<Unit>, log: seq<int>, log': seq<int>) {
    && |log| <= |log'| && log'[..|log|] == log
    && forall c :: Stuck(cfg, us, c) ==>
         Stuck(cfg, vs, c) && forall i :: |log| <= i < |log'| ==> log'[i] !in c
  }

  lemma StuckKeptTrans(cfg: seq<Config>, us: seq<Unit>, vs: seq<Unit>, ws: seq<Unit>,
                       a: seq<int>, b: seq<int>, c: seq<int>)
    requires StuckKept(cfg, us, vs, a, b) && StuckKept(cfg, vs, ws, b, c)
    ensures StuckKept(cfg, us, ws, a, c)
  {
    hide Stuck;
    assert c[..|a|] == c[..|b|][..|a|];
    forall k | Stuck(cfg, us, k)
      ensures Stuck(cfg, ws, k) && forall i :: |a| <= i < |c| ==> c[i] !in k
    {
      forall i | |a| <= i < |c|
        ensures c[i] !in k
      {
        if i < |b| { assert c[i] == c[..|b|][i] == b[i]; }
      }
    }
  }

  /** A unit whose requirements are all met is in no stuck set. */
  lemma MetIsNotStuck(cfg: seq<Config>, us: seq<Unit>, u: int, c: set<int>)
    requires |us| == |cfg| && 0 <= u < |cfg| && AllMet(cfg, us, u) && Stuck(cfg, us, c)
    ensures u !in c
  {
  }

  /** Changing one unit outside the set, or leaving it unsatisfied, keeps a set
      stuck. */
  lemma StuckUpdate(cfg: seq<Config>, us: seq<Unit>, u: int, v: Unit, c: set<int>)
    requires 0 <= u < |us| && Stuck(cfg, us, c) && (u !in c || !Satisfied(v))
    ensures Stuck(cfg, us[u := v], c)
  {
    hide Satisfied, NeedsOneOf;
  }

  /** Spawning a unit whose requirements are met keeps the invariant. */
  lemma SpawnGood(cfg: seq<Config>, us: seq<Unit>, counter: nat, u: int, v: Unit)
    requires Good(cfg, us, counter) && 0 <= u < |us| && AllMet(cfg, us, u)
    requires v.backoff == us[u].backoff
    requires v.seqNo == us[u].seqNo || (us[u].seqNo == 0 && v.seqNo == counter + 1)
    requires v.state != Starting && (v.seqNo == 0 ==> v.state == Disabled || v.state == Failed)
    ensures Good(cfg, us[u := v], counter + 1)
    ensures v.seqNo == us[u].seqNo ==> Good(cfg, us[u := v], counter)
  {
    var vs := us[u := v];
    forall w | 0 <= w < |us|
      ensures StartedAfter(cfg, vs, w)
    {
      assert StartedAfter(cfg, us, w);
      if cfg[w].kind == Service && vs[w].seqNo > 0 {
        forall name | name in cfg[w].needs
          ensures Resolves(cfg, w, name) && 0 < vs[Find(cfg, name)].seqNo < vs[w].seqNo
        {
        }
      }
    }
  }

  /** A change that neither starts a unit nor touches its start number. */
  lemma MinorGood(cfg: seq<Config>, us: seq<Unit>, counter: nat, u: int, v: Unit)
    requires Good(cfg, us, counter) && 0 <= u < |us|
    requires v.seqNo == us[u].seqNo && v.backoff < 4
    requires v.state != Starting && (v.state == Running || v.state == Exited ==> v.seqNo > 0)
    ensures Good(cfg, us[u := v], counter)
  {
    var vs := us[u := v];
    forall w | 0 <= w < |us|
      ensures StartedAfter(cfg, vs, w)
    {
      assert StartedAfter(cfg, us, w);
    }
  }

  /** No unit became satisfied: every stuck set stays stuck. */
  lemma NobodySatisfied(cfg: seq<Config>, us: seq<Unit>, vs: seq<Unit>, log: seq<int>)
    requires |vs| == |us| && forall u :: 0 <= u < |us| && Satisfied(vs[u]) ==> Satisfied(us[u])
    ensures StuckKept(cfg, us, vs, log, log)
  {
  }

  /** Only a unit with all requirements met was started. */
  lemma MetStarted(cfg: seq<Config>, us: seq<Unit>, u: int, v: Unit, log: seq<int>, more: seq<int>)
    requires |us| == |cfg| && 0 <= u < |cfg| && AllMet(cfg, us, u) && (more == [] || more == [u])
    ensures StuckKept(cfg, us, us[u := v], log, log + more)
  {
    forall c | Stuck(cfg, us, c)
      ensures Stuck(cfg, us[u := v], c) && forall i :: |log| <= i < |log + more| ==> (log + more)[i] !in c
    {
      MetIsNotStuck(cfg, us, u, c);
      StuckUpdate(cfg, us, u, v, c);
    }
  }

  lemma StartKeepsTrans(us: seq<Unit>, vs: seq<Unit>, ws: seq<Unit>, u: int)
    requires StartKeeps(us, vs, u) && StartKeeps(vs, ws, u)
    ensures StartKeeps(us, ws, u)
  {
  }

  /** Starting a unit that is neither satisfied nor failed disturbs nothing. */
  lemma StartKeepsAll(us: seq<Unit>, vs: seq<Unit>, d: int)
    requires StartKeeps(us, vs, d) && 0 <= d < |us| && !Satisfied(us[d]) && us[d].state != Failed
    ensures StartKeeps(us, vs, -1)
  {
  }

  /** What starting or failing a unit leaves alone. */
  predicate Relaunched(u: Unit, v: Unit) {
    v.guard == u.guard && v.enabled == u.enabled && v.respawn == u.respawn && v.order == u.order
    && SameWindow(u, v) && (v.restartPending ==> u.restartPending)
    && (u.seqNo > 0 ==> v.seqNo == u.seqNo) && Tried(v)
  }

  lemma PulledKeeps(us: seq<Unit>, d: int)
    requires 0 <= d < |us|
    ensures StartKeeps(us, us[d := Pulled(us[d])], -1)
    ensures Satisfied(us[d]) ==> us[d := Pulled(us[d])] == us
  {
  }

  lemma SameGuards(us: seq<Unit>, vs: seq<Unit>)
    requires StartKeeps(us, vs, -1)
    ensures |vs| == |us| && forall v :: 0 <= v < |us| ==> vs[v].guard == us[v].guard
  {
  }

  lemma FailKeeps(us: seq<Unit>, u: int)
    requires 0 <= u < |us|
    ensures StartKeeps(us, us, u) && StartKeeps(us, us[u := us[u].(state := Failed)], u)
  {
  }

  /** Raise the guard of `u`, start its requirements, change `u`, lower the
      guard. */
  lemma GuardedKeeps(us: seq<Unit>, vs: seq<Unit>, u: int, v: Unit)
    requires 0 <= u < |us| && !us[u].guard && StartKeeps(us[u := us[u].(guard := true)], vs, -1)
    requires |vs| == |us| && Relaunched(vs[u], v)
    ensures StartKeeps(us, vs[u := v.(guard := false)], u) && Tried(v)
  {
    var gs, ws := us[u := us[u].(guard := true)], vs[u := v.(guard := false)];
    forall w | 0 <= w < |us|
      ensures ws[w].guard == us[w].guard
    {
      assert vs[w].guard == gs[w].guard;
    }
  }

  // ---- what a start can reach -------------------------------------------

  /** A set of units that holds whatever its services require. */
  ghost predicate Closed(cfg: seq<Config>, k: set<int>) {
    forall u, name :: u in k && IsService(cfg, u) && name in cfg[u].needs && Resolves(cfg, u, name) ==>
      Find(cfg, name) in k
  }

  /** Starting `u` may pull in `v`: it is `u`, or a service required by it, directly or
      not. */
  ghost predicate PullsIn(cfg: seq<Config>, u: int, v: int) {
    forall k :: Closed(cfg, k) && u in k ==> v in k
  }

  /** Only what `u` pulls in has changed. */
  ghost predicate Confined(cfg: seq<Config>, us: seq<Unit>, vs: seq<Unit>, u: int) {
    |vs| == |us| && forall v :: 0 <= v < |us| && vs[v] != us[v] ==> PullsIn(cfg, u, v)
  }

  lemma PullsInTrans(cfg: seq<Config>, u: int, v: int, w: int)
    requires PullsIn(cfg, u, v) && PullsIn(cfg, v, w)
    ensures PullsIn(cfg, u, w)
  {
    hide Closed;
  }

  lemma PullsInNeed(cfg: seq<Config>, u: int, name: string)
    requires IsService(cfg, u) && name in cfg[u].needs && Resolves(cfg, u, name)
    ensures PullsIn(cfg, u, Find(cfg, name))
  {
  }

  /** Other kinds of units are not pulled in. */
  lemma OnlyServices(cfg: seq<Config>, u: int, v: int)
    requires PullsIn(cfg, u, v) && u != v
    ensures IsService(cfg, v)
  {
    hide Find;
    var k := {u} + set x | 0 <= x < |cfg| && IsService(cfg, x);
    assert Closed(cfg, k) && v in k;
  }

  lemma ConfinedOne(cfg: seq<Config>, us: seq<Unit>, u: int, v: Unit)
    requires 0 <= u < |us|
    ensures Confined(cfg, us, us[u := v], u) && Confined(cfg, us, us, u)
  {
    hide Closed;
  }

  lemma ConfinedTrans(cfg: seq<Config>, us: seq<Unit>, vs: seq<Unit>, ws: seq<Unit>, u: int)
    requires Confined(cfg, us, vs, u) && Confined(cfg, vs, ws, u)
    ensures Confined(cfg, us, ws, u)
  {
    hide PullsIn;
  }

  /** What a requirement reaches, the unit reaches. */
  lemma ConfinedNeed(cfg: seq<Config>, us: seq<Unit>, vs: seq<Unit>, u: int, name: string)
    requires IsService(cfg, u) && name in cfg[u].needs && Resolves(cfg, u, name)
    requires Confined(cfg, us, vs, Find(cfg, name))
    ensures Confined(cfg, us, vs, u)
  {
    hide PullsIn;
    PullsInNeed(cfg, u, name);
    forall v | 0 <= v < |us| && vs[v] != us[v]
      ensures PullsIn(cfg, u, v)
    {
      PullsInTrans(cfg, u, Find(cfg, name), v);
    }
  }

  /** Some unit marked in `from` pulls in `v`. */
  ghost predicate PulledBy(cfg: seq<Config>, from: set<int>, v: int) {
    exists w :: w in from && PullsIn(cfg, w, v)
  }

  ghost function Pending(us: seq<Unit>): set<int> { set w | 0 <= w < |us| && us[w].restartPending }

  /** The units whose turn it is, failed ones left out. */
  ghost function DueNow(cfg: seq<Config>, us: seq<Unit>, o: int): set<int>
    requires |us| == |cfg|
  {
    set w | 0 <= w < |us| && Due(cfg[w], us[w], o) && us[w].state != Failed
  }

  ghost function DueAt(us: seq<Unit>, now: nat): set<int> {
    set w | 0 <= w < |us| && us[w].state == Waiting && now >= us[w].nextStart
  }

  /** The first `n` requirements of `u` are met. */
  ghost predicate MetUpTo(cfg: seq<Config>, us: seq<Unit>, u: int, n: nat)
    requires |us| == |cfg| && 0 <= u < |cfg| && n <= |cfg[u].needs|
  {
    forall i :: 0 <= i < n ==> Resolves(cfg, u, cfg[u].needs[i]) && Satisfied(us[Find(cfg, cfg[u].needs[i])])
  }

  /** Met requirements stay met while others are started. */
  lemma MetKept(cfg: seq<Config>, us: seq<Unit>, vs: seq<Unit>, u: int, n: nat)
    requires |us| == |cfg| && 0 <= u < |cfg| && n <= |cfg[u].needs|
    requires MetUpTo(cfg, us, u, n) && StartKeeps(us, vs, -1)
    ensures MetUpTo(cfg, vs, u, n)
  {
  }

  predicate Dead(v: Unit) { v.state == Failed && v.pid <= 0 }

  /** No automatic step revives a failed unit without a live process. */
  ghost predicate FailedStay(us: seq<Unit>, vs: seq<Unit>) {
    |vs| == |us| && forall u :: 0 <= u < |us| && Dead(us[u]) ==> vs[u] == us[u]
  }

  // ---- deaths -----------------------------------------------------------

  /** One instance of a unit, and how it died. */
  datatype Life = Life(unit: Unit, code: int, now: nat)

  /** The unit right after the death. */
  function End(l: Life): Unit
    requires l.unit.backoff < 4
  {
    Bury(l.unit, l.code, l.now)
  }

  /** `next` is a later instance: the death of `l` did not fail the unit, and
      whatever started it again left the crash bookkeeping alone. */
  predicate Restarted(l: Life, next: Life)
    requires l.unit.backoff < 4
  {
    End(l).state != Failed && SameWindow(End(l), next.unit)
  }

  /** From `v` to `w` the unit lived through `ls`, one after the other, and nothing
      else touched its crash bookkeeping. */
  ghost predicate Lived(v: Unit, ls: seq<Life>, w: Unit) {
    && (forall i :: 0 <= i < |ls| ==> ls[i].unit.backoff < 4)
    && (forall i, j :: 0 <= i && j == i + 1 < |ls| ==> Restarted(ls[i], ls[j]))
    && (if ls == [] then SameWindow(v, w) else SameWindow(v, ls[0].unit) && Leaves(ls[|ls| - 1], w))
    && (Dead(v) ==> ls == [] && w == v)
  }

  predicate Leaves(l: Life, w: Unit)
    requires l.unit.backoff < 4
  {
    SameWindow(End(l), w) && (End(l).state == Failed ==> Dead(w))
  }

  lemma LivedOn(u: Unit, a: seq<Life>, v: Unit, b: seq<Life>, w: Unit)
    requires Lived(u, a, v) && Lived(v, b, w)
    ensures Lived(u, a + b, w)
  {
    hide Bury;
    var ls := a + b;
    forall i, j | 0 <= i && j == i + 1 < |ls|
      ensures Restarted(ls[i], ls[j])
    {
      if j < |a| {
        assert Restarted(a[i], a[j]);
      } else if i >= |a| {
        assert Restarted(b[i - |a|], b[j - |a|]);
      }
    }
  }

  lemma Died1(v: Unit, code: int, now: nat)
    requires v.backoff < 4 && v.pid > 0
    ensures Lived(v, [Life(v, code, now)], Bury(v, code, now))
  {
  }

  /** What a step that is not about a unit leaves of it. */
  predicate Undisturbed(v: Unit, w: Unit) {
    SameWindow(v, w) && (w.restartPending ==> v.restartPending) && (Dead(v) ==> w == v)
  }

  /** The death logs before and after: unless an operator restart was pending, unit
      `u` lived through exactly what was added to its log. */
  ghost predicate Tracked(us: seq<Unit>, from: nat -> seq<Life>, vs: seq<Unit>, to: nat -> seq<Life>, u: nat) {
    u < |us| == |vs| && from(u) <= to(u)
    && (!us[u].restartPending ==> !vs[u].restartPending && Lived(us[u], to(u)[|from(u)|..], vs[u]))
  }

  lemma TrackedOn(us: seq<Unit>, a: nat -> seq<Life>, vs: seq<Unit>, b: nat -> seq<Life>, ws: seq<Unit>,
                  c: nat -> seq<Life>, u: nat)
    requires Tracked(us, a, vs, b, u) && Tracked(vs, b, ws, c, u)
    ensures Tracked(us, a, ws, c, u)
  {
    hide Lived;
    if !us[u].restartPending {
      LivedOn(us[u], b(u)[|a(u)|..], vs[u], c(u)[|b(u)|..], ws[u]);
      assert c(u)[|a(u)|..] == b(u)[|a(u)|..] + c(u)[|b(u)|..];
    }
  }

  lemma TrackedQuiet(us: seq<Unit>, log: nat -> seq<Life>, vs: seq<Unit>, u: nat)
    requires u < |us| == |vs| && Undisturbed(us[u], vs[u])
    ensures Tracked(us, log, vs, log, u)
  {
    assert log(u)[|log(u)|..] == [];
  }

  /** Of the first `n` units, those that changed with a process, and no others, have been
      sent a signal; later ones have not changed. */
  ghost predicate Told(us: seq<Unit>, vs: seq<Unit>, n: nat, a: seq<int>, b: seq<int>) {
    && |vs| == |us| && a <= b
    && (forall u :: n <= u < |us| ==> vs[u] == us[u])
    && forall u :: u in b[|a|..] <==> 0 <= u < n && u < |us| && vs[u] != us[u] && us[u].pid > 0
  }

  lemma NobodyTold(us: seq<Unit>, a: seq<int>)
    ensures Told(us, us, 0, a, a)
  {
    assert a[|a|..] == [];
  }

  lemma ToldOne(us: seq<Unit>, vs: seq<Unit>, i: nat, v: Unit, a: seq<int>, b: seq<int>, c: seq<int>)
    requires Told(us, vs, i, a, b) && i < |vs| && c == b + if v != vs[i] && vs[i].pid > 0 then [i] else []
    ensures Told(us, vs[i := v], i + 1, a, c)
  {
    assert c[|a|..] == b[|a|..] + c[|b|..];
    assert vs[i] == us[i];
  }

  lemma StageRefl(cfg: seq<Config>, us: seq<Unit>)
    requires |us| == |cfg|
    ensures Stage(cfg, us, us)
  {
  }

  lemma StageKeeps(cfg: seq<Config>, us: seq<Unit>, vs: seq<Unit>)
    requires |us| == |cfg| && Stage(cfg, us, vs)
    ensures FailedStay(us, vs) && forall v :: 0 <= v < |us| ==> Undisturbed(us[v], vs[v])
  {
  }

  /** A unit that shutdown has to stop. */
  predicate Live(v: Unit) {
    (v.state == Running || v.state == Starting) && v.pid > 0 && !v.stopping
  }

  /** Ordering services only fails units and numbers them. */
  lemma OrderedGood(cfg: seq<Config>, us: seq<Unit>, vs: seq<Unit>, counter: nat)
    requires Good(cfg, us, counter) && |vs| == |us|
    requires forall u :: 0 <= u < |us| ==>
      && vs[u] == us[u].(state := vs[u].state, order := vs[u].order)
      && (vs[u].state == us[u].state || vs[u].state == Failed)
    ensures Good(cfg, vs, counter)
    ensures forall u :: 0 <= u < |us| && Satisfied(vs[u]) ==> Satisfied(us[u])
  {
    forall u | 0 <= u < |us|
      ensures StartedAfter(cfg, vs, u)
    {
      assert StartedAfter(cfg, us, u);
    }
  }

  ghost predicate DecreasingStarts(us: seq<Unit>, order: seq<int>) {
    && (forall i :: 0 <= i < |order| ==> 0 <= order[i] < |us|)
    && forall i, j :: 0 <= i < j < |order| ==> us[order[i]].seqNo > us[order[j]].seqNo
  }

  /** Shutdown so far: `order` has been signalled, latest start first. */
  ghost predicate Stopping(us: seq<Unit>, vs: seq<Unit>, order: seq<int>) {
    && |vs| == |us| && Distinct(order) && DecreasingStarts(us, order)
    && (forall i :: 0 <= i < |order| ==> Live(us[order[i]]))
    && (forall i, u :: 0 <= i < |order| && 0 <= u < |us| && Live(vs[u]) ==> us[order[i]].seqNo > us[u].seqNo)
    && (forall u :: 0 <= u < |us| ==> vs[u] == if u in order then us[u].(respawn := Never, stopping := true) else us[u])
  }

  lemma NoneStopped(us: seq<Unit>)
    ensures Stopping(us, us, [])
  {
  }

  lemma StopStep(us: seq<Unit>, vs: seq<Unit>, order: seq<int>, best: int)
    requires Stopping(us, vs, order) && 0 <= best < |vs| && Live(vs[best])
    requires forall u :: 0 <= u < |vs| && Live(vs[u]) && u != best ==> vs[u].seqNo < vs[best].seqNo
    ensures Stopping(us, vs[best := vs[best].(respawn := Never, stopping := true)], order + [best])
  {
    var vs', order' := vs[best := vs[best].(respawn := Never, stopping := true)], order + [best];
    forall u | 0 <= u < |us|
      ensures u in order' <==> u in order || u == best
    {
    }
  }

  lemma AllStopped(us: seq<Unit>, vs: seq<Unit>, order: seq<int>)
    requires Stopping(us, vs, order) && forall u :: 0 <= u < |vs| ==> !Live(vs[u])
    ensures Distinct(order) && DecreasingStarts(us, order) && |vs| == |us|
    ensures forall u :: u in order <==> 0 <= u < |us| && Live(us[u])
    ensures forall u :: 0 <= u < |us| ==>
      vs[u] == if u in order then us[u].(respawn := Never, stopping := true) else us[u]
  {
  }

  /** One thing the supervisor does, with what the outside world tells it. */
  datatype Event =
    | Reap(deaths: nat -> Death)
    | Enforce
    | Backoff(now: nat)
    | Control(verb: Verb, unit: nat)

  /** A unit as the configuration files leave it. */
  predicate Initial(v: Unit) {
    && (v.state == Stopped || v.state == Failed || v.state == Disabled)
    && v.seqNo == 0 && v.backoff == 0 && v.fails == 0 && !v.winOpen && v.pid == 0
    && !v.guard && !v.stopping && !v.restartPending && !v.dependencyFailed
  }

  // ---- when a start must succeed ----------------------------------------

  /** Units that can be started together, ranked so that requirements go down. */
  datatype Plan = Plan(units: set<int>, rank: int -> nat)

  ghost const NO_PLAN: Plan := Plan({}, (_: int) => 0)

  /** Every process starts and becomes ready, and the requirements of the planned
      units are planned units of lower rank. */
  ghost predicate Feasible(cfg: seq<Config>, world: nat -> Spawn, plan: Plan) {
    && (forall k :: world(k).Spawned? && world(k).readiness.BecameReady?)
    && forall u :: u in plan.units ==> 0 <= u < |cfg| && forall name :: name in cfg[u].needs ==>
      Leads(cfg, plan, u, name)
  }

  ghost predicate Leads(cfg: seq<Config>, plan: Plan, u: int, name: string) {
    Resolves(cfg, u, name) && Find(cfg, name) in plan.units && plan.rank(Find(cfg, name)) < plan.rank(u)
  }

  /** No planned unit has failed or is kept from starting. */
  ghost predicate Healthy(plan: Plan, us: seq<Unit>) {
    forall u :: u in plan.units && 0 <= u < |us| ==> us[u].state != Failed && (us[u].enabled || us[u].state == Disabled)
  }

  /** Planned units whose start is in progress rank at least `e` above `u`; if `u`
      is not planned there are none. */
  ghost predicate Clear(plan: Plan, us: seq<Unit>, u: int, e: nat) {
    forall v :: v in plan.units && 0 <= v < |us| && us[v].guard ==> u in plan.units && plan.rank(v) >= plan.rank(u) + e
  }

  /** Starting `u`, planned or not, does the plan no harm. */
  ghost predicate Planned(cfg: seq<Config>, world: nat -> Spawn, plan: Plan, us: seq<Unit>, u: int) {
    Feasible(cfg, world, plan) && 0 <= u < |us| && Healthy(plan, us) && Clear(plan, us, u, 1)
  }

  ghost predicate CanStart(cfg: seq<Config>, world: nat -> Spawn, us: seq<Unit>, u: int) {
    exists plan :: Chosen(cfg, world, plan, us, u)
  }

  ghost predicate Chosen(cfg: seq<Config>, world: nat -> Spawn, plan: Plan, us: seq<Unit>, u: int) {
    Planned(cfg, world, plan, us, u) && u in plan.units && us[u].enabled
  }

  /** `u` itself is being started. */
  ghost predicate Busy(cfg: seq<Config>, world: nat -> Spawn, plan: Plan, us: seq<Unit>, u: int) {
    Feasible(cfg, world, plan) && 0 <= u < |us| && Healthy(plan, us) && Clear(plan, us, u, 0)
  }

  /** A disabled unit is enabled when another one requires it. */
  function Pulled(v: Unit): Unit { if v.state == Disabled then v.(enabled := true) else v }

  lemma KeptBusy(cfg: seq<Config>, world: nat -> Spawn, plan: Plan, us: seq<Unit>, vs: seq<Unit>, u: int)
    requires Busy(cfg, world, plan, us, u) && StartKeeps(us, vs, -1) && Healthy(plan, vs)
    ensures Busy(cfg, world, plan, vs, u)
  {
    hide Feasible, Healthy;
    SameGuards(us, vs);
  }

  /** What a requirement of a unit being started may count on. */
  lemma NeedPlanned(cfg: seq<Config>, world: nat -> Spawn, plan: Plan, us: seq<Unit>, u: int, name: string)
    requires |us| == |cfg| && Busy(cfg, world, plan, us, u) && name in cfg[u].needs
    ensures var d := Find(cfg, name);
            && (u in plan.units ==> Resolves(cfg, u, name) && d in plan.units && us[d].state != Failed)
            && (d >= 0 ==> Planned(cfg, world, plan, us[d := Pulled(us[d])], d))
            && (d in plan.units ==> 0 <= d < |us| && Pulled(us[d]).enabled)
  {
    if u in plan.units {
      assert Leads(cfg, plan, u, name);
    }
  }

  lemma StartPlanned(cfg: seq<Config>, world: nat -> Spawn, plan: Plan, us: seq<Unit>, u: int)
    requires Planned(cfg, world, plan, us, u)
    ensures Healthy(plan, us) && Busy(cfg, world, plan, us[u := us[u].(guard := true)], u)
    ensures if u in plan.units then !us[u].guard else Healthy(plan, us[u := us[u].(state := Failed)])
  {
  }

  /** A unit does not count among its own requirements. */
  lemma MetAnyway(cfg: seq<Config>, us: seq<Unit>, u: int, v: Unit)
    requires |us| == |cfg| && 0 <= u < |us|
    ensures AllMet(cfg, us[u := v], u) <==> AllMet(cfg, us, u)
  {
  }

  /** The guard makes no difference to how a unit is launched. */
  lemma GuardedLaunch(cfg: seq<Config>, us: seq<Unit>, o: Spawn, n: nat, ws: seq<Unit>, u: int)
    requires |us| == |cfg| == |ws| && 0 <= u < |us| && !us[u].guard
    requires AllMet(cfg, us[u := us[u].(guard := true)], u) ==>
      ws == us[u := SpawnUnit(us[u].(guard := true), cfg[u].ready, o, n)]
    ensures AllMet(cfg, us, u) ==> ws[u := ws[u].(guard := false)] == us[u := SpawnUnit(us[u], cfg[u].ready, o, n)]
    ensures AllMet(cfg, ws[u := ws[u].(guard := false)], u) <==> AllMet(cfg, ws, u)
  {
    hide AllMet;
    MetAnyway(cfg, us, u, us[u].(guard := true));
    MetAnyway(cfg, ws, u, ws[u].(guard := false));
  }

  lemma SpawnHealthy(cfg: seq<Config>, world: nat -> Spawn, plan: Plan, us: seq<Unit>, u: int, k: nat, s: nat)
    requires |us| == |cfg| && Busy(cfg, world, plan, us, u)
    ensures var v := SpawnUnit(us[u], cfg[u].ready, world(k), s);
            (us[u].enabled ==> v.state == Running) && Healthy(plan, us[u := v.(guard := false)])
    ensures u !in plan.units ==> Healthy(plan, us[u := us[u].(state := Failed, guard := false)])
  {
  }

  lemma StaysEnabled(us: seq<Unit>, vs: seq<Unit>, u: int)
    requires StartKeeps(us, vs, -1) && 0 <= u < |us| && us[u].enabled
    ensures vs[u].enabled
  {
  }

  // ---- when a boot must succeed -----------------------------------------

  /** Services that nothing keeps from starting: they reach no cycle, and neither
      they nor what they require is missing, failed or unable to run. */
  ghost predicate Bootable(cfg: seq<Config>, us: seq<Unit>, g: set<int>) {
    && |us| == |cfg|
    && forall u :: u in g ==>
         && IsService(cfg, u) && !Ordering.ReachesCycle(cfg, u)
         && us[u].state != Failed && (us[u].enabled || us[u].state == Disabled)
         && forall name :: name in cfg[u].needs ==> Resolves(cfg, u, name) && Find(cfg, name) in g
  }

  ghost predicate CanBoot(cfg: seq<Config>, us: seq<Unit>, u: int) {
    exists g :: u in g && Bootable(cfg, us, g)
  }

  ghost function AllBootable(cfg: seq<Config>, us: seq<Unit>): set<int> {
    set u | 0 <= u < |cfg| && CanBoot(cfg, us, u)
  }

  lemma BootableTogether(cfg: seq<Config>, us: seq<Unit>)
    requires |us| == |cfg|
    ensures Bootable(cfg, us, AllBootable(cfg, us))
    ensures forall u :: CanBoot(cfg, us, u) ==> u in AllBootable(cfg, us)
  {
    hide Ordering.ReachesCycle, Resolves, Find;
    var all := AllBootable(cfg, us);
    forall u | CanBoot(cfg, us, u)
      ensures IsService(cfg, u) && !Ordering.ReachesCycle(cfg, u)
      ensures us[u].state != Failed && (us[u].enabled || us[u].state == Disabled)
      ensures forall name :: name in cfg[u].needs ==> Resolves(cfg, u, name) && Find(cfg, name) in all
    {
      var g :| u in g && Bootable(cfg, us, g);
      forall name | name in cfg[u].needs
        ensures Find(cfg, name) in all
      {
        assert CanBoot(cfg, us, Find(cfg, name));
      }
    }
  }

  /** Every process starts and becomes ready. */
  ghost predicate AllStart(world: nat -> Spawn) {
    forall k :: world(k).Spawned? && world(k).readiness.BecameReady?
  }

  ghost predicate NoGuards(us: seq<Unit>) { forall v :: 0 <= v < |us| ==> !us[v].guard }

  /** Dependencies of what reaches no cycle have lower numbers. */
  ghost predicate InOrder(cfg: seq<Config>, us: seq<Unit>) {
    && |us| == |cfg|
    && forall u, d :: 0 <= u < |us| && 0 <= d < |us| && Ordering.Edge(cfg, u, d) && !Ordering.ReachesCycle(cfg, u) ==>
         0 <= us[d].order < us[u].order
  }

  /** The bootable services with their numbers as ranks. */
  ghost function BootPlan(us: seq<Unit>, g: set<int>): Plan {
    Plan(g, (u: int) => if 0 <= u < |us| && us[u].order >= 0 then us[u].order else 0)
  }

  lemma BootFeasible(cfg: seq<Config>, world: nat -> Spawn, us: seq<Unit>, g: set<int>)
    requires Bootable(cfg, us, g) && AllStart(world) && InOrder(cfg, us)
    ensures Feasible(cfg, world, BootPlan(us, g)) && Healthy(BootPlan(us, g), us)
  {
    hide Ordering.ReachesCycle, Find;
    forall u, name | u in g && name in cfg[u].needs
      ensures Leads(cfg, BootPlan(us, g), u, name)
    {
      var d := Find(cfg, name);
      assert name in cfg[u].after + cfg[u].needs;
      assert Ordering.Edge(cfg, u, d);
    }
  }

  /** Between starts: the plan can go ahead. */
  ghost predicate Calm(cfg: seq<Config>, world: nat -> Spawn, plan: Plan, us: seq<Unit>) {
    Feasible(cfg, world, plan) && Healthy(plan, us) && NoGuards(us)
  }

  /** A unit run to completion with exit status `code`. */
  function Finished(v: Unit, code: int): Unit {
    if v.state == Running then v.(exitCode := code, pid := 0, state := if code == 0 then Exited else Failed) else v
  }

  /** Starting a unit that has no requirements. */
  function Started(v: Unit, ready: bool, o: Spawn, s: nat): Unit {
    if v.state == Running then v else if v.guard then v.(state := Failed) else SpawnUnit(v, ready, o, s)
  }

  /** What running the sysinit units does to a unit. */
  predicate SysinitRun(c: Config, v: Unit, w: Unit, code: int) {
    && w.guard == v.guard
    && if c.kind == Sysinit && v.state != Failed
       then w.state == Failed || w.state == Disabled || (w.state == Exited && w.exitCode == code == 0)
       else w == v
  }

  /** What starting units never takes from a unit. */
  predicate Turn(v: Unit, w: Unit) {
    && w.order == v.order && w.guard == v.guard && (v.enabled ==> w.enabled)
    && (Tried(v) ==> Tried(w)) && (v.state == Running ==> w.state == Running)
  }

  ghost predicate DueIn(plan: Plan, c: Config, v: Unit, o: int, u: int) {
    Due(c, v, o) && u in plan.units && v.enabled
  }

  lemma StartTurn(us: seq<Unit>, vs: seq<Unit>, u: int)
    requires StartKeeps(us, vs, u) && 0 <= u < |us| && (us[u].state == Running ==> vs[u].state == Running)
    ensures forall v :: 0 <= v < |us| ==> Turn(us[v], vs[v])
  {
  }

  lemma OthersFailed(us: seq<Unit>, vs: seq<Unit>, u: int)
    requires StartKeeps(us, vs, u)
    ensures |vs| == |us| && forall v :: 0 <= v < |us| && v != u && us[v].state == Failed ==> vs[v] == us[v]
  {
  }

  /** Nothing but what is due, and what that requires, has changed, and nothing that had
      failed. */
  ghost predicate OnlyDue(cfg: seq<Config>, us: seq<Unit>, vs: seq<Unit>, o: int) {
    && |us| == |vs| == |cfg|
    && forall v :: 0 <= v < |us| && vs[v] != us[v] ==> us[v].state != Failed && PulledBy(cfg, DueNow(cfg, us, o), v)
  }

  /** Services pull in services, and other units nothing. */
  lemma KindsKept(cfg: seq<Config>, us: seq<Unit>, vs: seq<Unit>, o: int)
    requires OnlyDue(cfg, us, vs, o)
    ensures forall v :: 0 <= v < |us| && vs[v] != us[v] ==>
      us[v].state != Failed && if o >= 0 then cfg[v].kind == Service else cfg[v].kind == Respawn || cfg[v].kind == Once
  {
    hide PullsIn;
    forall v | 0 <= v < |us| && vs[v] != us[v]
      ensures if o >= 0 then cfg[v].kind == Service else cfg[v].kind == Respawn || cfg[v].kind == Once
    {
      var w :| w in DueNow(cfg, us, o) && PullsIn(cfg, w, v);
      if w != v {
        OnlyServices(cfg, w, v);
        if o < 0 { PullsNothing(cfg, w, v); }
      }
    }
  }

  lemma PullsNothing(cfg: seq<Config>, u: int, v: int)
    requires !IsService(cfg, u) && PullsIn(cfg, u, v)
    ensures v == u
  {
    assert Closed(cfg, {u});
  }

  lemma OnlyDueMore(cfg: seq<Config>, was: seq<Unit>, us: seq<Unit>, vs: seq<Unit>, o: int, i: int)
    requires OnlyDue(cfg, was, us, o) && 0 <= i < |us| && Due(cfg[i], us[i], o) && us[i].state != Failed
    requires forall v :: 0 <= v < |was| ==> us[v].order == was[v].order
    requires Confined(cfg, us, vs, i)
    requires forall v :: 0 <= v < |us| && v != i && us[v].state == Failed ==> vs[v] == us[v]
    ensures OnlyDue(cfg, was, vs, o)
  {
    hide PullsIn;
    assert i in DueNow(cfg, was, o);
    forall v | 0 <= v < |was| && vs[v] != was[v]
      ensures was[v].state != Failed && PulledBy(cfg, DueNow(cfg, was, o), v)
    {
      if vs[v] != us[v] { assert PullsIn(cfg, i, v); }
    }
  }

  lemma CalmHealthy(cfg: seq<Config>, world: nat -> Spawn, plan: Plan, us: seq<Unit>, u: int)
    ensures Calm(cfg, world, plan, us) && u in plan.units && 0 <= u < |us| ==> us[u].state != Failed
  {
  }

  /** Neither the sysinit units nor the numbering spoil what can boot. */
  lemma BootCalm(cfg: seq<Config>, world: nat -> Spawn, was: seq<Unit>, us: seq<Unit>, vs: seq<Unit>, g: set<int>)
    requires |was| == |us| == |vs| == |cfg| && Bootable(cfg, was, g) && AllStart(world) && NoGuards(was)
    requires forall v :: 0 <= v < |was| ==> us[v].guard == was[v].guard && (IsService(cfg, v) ==> us[v] == was[v])
    requires forall v :: 0 <= v < |was| ==> Ordering.SameButOrder(vs[v], us[v])
    requires forall v :: IsService(cfg, v) ==>
      vs[v].state == if Ordering.ReachesCycle(cfg, v) || Ordering.MissingNeed(cfg, v) then Failed else us[v].state
    requires InOrder(cfg, vs)
    ensures Calm(cfg, world, BootPlan(vs, g), vs) && BootPlan(vs, g).units == g
    ensures forall u :: u in g ==> IsService(cfg, u) && vs[u].enabled == was[u].enabled
  {
    hide Ordering.ReachesCycle, InOrder, Feasible, Find, BootPlan, AllStart;
    assert Bootable(cfg, vs, g);
    BootFeasible(cfg, world, vs, g);
    PlanUnits(vs, g);
  }

  lemma PlanUnits(us: seq<Unit>, g: set<int>)
    ensures BootPlan(us, g).units == g
  {
  }

  lemma DuePulls(cfg: seq<Config>, was: seq<Unit>, now: nat, us: seq<Unit>, vs: seq<Unit>, i: int)
    requires i in DueAt(was, now) && Confined(cfg, us, vs, i)
    ensures |vs| == |us| && forall v :: 0 <= v < |us| && !PulledBy(cfg, DueAt(was, now), v) ==> vs[v] == us[v]
  {
    hide PullsIn;
  }

  /** Reaping a unit changes that unit alone, or what pending restarts pull in. */
  lemma OthersPulled(cfg: seq<Config>, was: seq<Unit>, us: seq<Unit>, vs: seq<Unit>, i: int)
    requires |was| == |us| && 0 <= i < |us| && Confined(cfg, us, vs, i)
    requires us[i].restartPending ==> was[i].restartPending
    ensures us[i].restartPending ==>
      forall v :: 0 <= v < |us| && !PulledBy(cfg, Pending(was), v) ==> vs[v] == us[v]
    ensures us[i].restartPending ==> PulledBy(cfg, Pending(was), i)
  {
    hide Closed;
    if us[i].restartPending {
      assert PullsIn(cfg, i, i);
      assert i in Pending(was);
    }
  }

  lemma PendingKept(us: seq<Unit>, a: nat -> seq<Life>, vs: seq<Unit>, b: nat -> seq<Life>, u: nat)
    requires Tracked(us, a, vs, b, u)
    ensures u < |us| == |vs| && (vs[u].restartPending ==> us[u].restartPending)
  {
  }

  /** What reaping adds to the log of a unit. */
  function LifeOf(v: Unit, d: Death): seq<Life> {
    if Reapable(v) && d.Died? then [Life(v, d.code, d.now)] else []
  }

  lemma AllTracked(us: seq<Unit>, a: nat -> seq<Life>, vs: seq<Unit>, b: nat -> seq<Life>, ws: seq<Unit>,
                   c: nat -> seq<Life>)
    requires |us| == |vs| == |ws|
    requires forall u :: 0 <= u < |us| ==> Tracked(us, a, vs, b, u)
    requires forall u :: 0 <= u < |us| ==> Tracked(vs, b, ws, c, u)
    ensures forall u :: 0 <= u < |us| ==> Tracked(us, a, ws, c, u)
  {
    hide Tracked;
    forall u | 0 <= u < |us|
      ensures Tracked(us, a, ws, c, u)
    {
      TrackedOn(us, a, vs, b, ws, c, u);
    }
  }

  lemma QuietTracked(us: seq<Unit>, a: nat -> seq<Life>, b: nat -> seq<Life>)
    requires forall v :: 0 <= v < |us| ==> b(v) == a(v)
    ensures forall u :: 0 <= u < |us| ==> Tracked(us, a, us, b, u)
  {
    forall u | 0 <= u < |us|
      ensures Tracked(us, a, us, b, u)
    {
      assert b(u)[|a(u)|..] == [];
    }
  }

  lemma DeathTracked(us: seq<Unit>, a: nat -> seq<Life>, vs: seq<Unit>, b: nat -> seq<Life>, u: nat, code: int,
                     now: nat)
    requires u < |us| == |vs| && us[u].backoff < 4 && us[u].pid > 0
    requires forall v :: 0 <= v < |us| && v != u ==> Undisturbed(us[v], vs[v])
    requires !us[u].restartPending ==> vs[u] == Bury(us[u], code, now)
    requires forall v: nat :: b(v) == a(v) + if v == u then [Life(us[u], code, now)] else []
    ensures forall v :: 0 <= v < |us| ==> Tracked(us, a, vs, b, v)
  {
    forall v | 0 <= v < |us|
      ensures Tracked(us, a, vs, b, v)
    {
      if v == u {
        assert b(v)[|a(v)|..] == [Life(us[u], code, now)];
        Died1(us[u], code, now);
      } else {
        assert b(v)[|a(v)|..] == [];
      }
    }
  }

  lemma StartUndisturbed(us: seq<Unit>, vs: seq<Unit>, u: int)
    requires StartKeeps(us, vs, u) && 0 <= u < |us|
    ensures forall v :: 0 <= v < |us| && v != u ==> Undisturbed(us[v], vs[v])
  {
  }

  lemma UndisturbedTracked(us: seq<Unit>, vs: seq<Unit>, log: nat -> seq<Life>, u: int)
    requires |us| == |vs| && forall v :: 0 <= v < |us| && v != u ==> Undisturbed(us[v], vs[v])
    ensures forall v :: 0 <= v < |us| && v != u ==> Tracked(us, log, vs, log, v)
  {
    hide Undisturbed, Tracked;
    forall v | 0 <= v < |us| && v != u
      ensures Tracked(us, log, vs, log, v)
    {
      TrackedQuiet(us, log, vs, v);
    }
  }

  /** No command among the events is for unit `u`. */
  predicate LeftAlone(events: seq<Event>, u: nat) {
    forall i :: 0 <= i < |events| && events[i].Control? ==> events[i].unit != u
  }

  class Supervisor {
    const cfg: seq<Config>
    const world: nat -> Spawn
    const st: array<Unit>
    var seqCounter: nat
    var attempts: nat         // how often the oracle has been asked
    var spawned: seq<int>     // the units whose process was started, in order
    var signals: seq<int>     // the units sent SIGTERM, in order
    ghost var lives: nat -> seq<Life>   // the deaths of each unit, in order

    ghost predicate Valid()
      reads this, st
    {
      Good(cfg, st[..], seqCounter)
    }

    /** Units whose start is not in progress: the measure of the recursion. */
    ghost function Unguarded(): set<int>
      reads st
    {
      set u | 0 <= u < st.Length && !st[u].guard
    }

    /** unit_spawn: only ever called with every requirement satisfied. */
    method UnitSpawn(u: nat)
      requires Valid() && u < st.Length && AllMet(cfg, st[..], u)
      modifies st, this`seqCounter, this`attempts, this`spawned
      ensures Valid()
      ensures st[..] == old(st[..])[u := SpawnUnit(old(st[u]), cfg[u].ready, world(old(attempts)), old(seqCounter) + 1)]
      ensures spawned == old(spawned) + if old(st[u]).enabled && world(old(attempts)).Spawned? then [u] else []
      ensures attempts == old(attempts) + if old(st[u]).enabled then 1 else 0
      ensures seqCounter == old(seqCounter) + if st[u].seqNo != old(st[u]).seqNo then 1 else 0
    {
      var o := world(attempts);
      var v := SpawnUnit(st[u], cfg[u].ready, o, seqCounter + 1);
      SpawnGood(cfg, st[..], seqCounter, u, v);
      if st[u].enabled && o.Spawned? {
        spawned := spawned + [u];
        if st[u].seqNo == 0 {
          seqCounter := seqCounter + 1;
        }
      }
      if st[u].enabled {
        attempts := attempts + 1;
      }
      assert st[..][u := v] == old(st[..])[u := v];
      st[u] := v;
      assert st[..] == old(st[..])[u := v];
    }

    lemma Backoffs()
      requires Valid()
      ensures forall v :: 0 <= v < |st[..]| ==> st[..][v].backoff < 4
    {
    }

    lemma Facts(u: nat)
      requires Valid() && u < st.Length
      ensures st.Length == |cfg| && st[u].backoff < 4 && st[u].state != Starting
      ensures st[u].state == Running || st[u].state == Exited ==> st[u].seqNo > 0
    {
    }

    /** An update that satisfies nobody and leaves start numbers alone. */
    method Set(u: nat, v: Unit)
      requires Valid() && u < st.Length
      requires v.seqNo == st[u].seqNo && v.backoff < 4
      requires v.state != Starting && (v.state == Running || v.state == Exited ==> v.seqNo > 0)
      modifies st
      ensures Valid() && st[..] == old(st[..])[u := v]
      ensures (Satisfied(v) ==> Satisfied(old(st[u]))) ==> StuckKept(cfg, old(st[..]), st[..], spawned, spawned)
    {
      MinorGood(cfg, st[..], seqCounter, u, v);
      st[u] := v;
      assert st[..] == old(st[..])[u := v];
      if Satisfied(v) ==> Satisfied(old(st[u])) {
        NobodySatisfied(cfg, old(st[..]), st[..], spawned);
      }
    }

    /** enabled=no keeps a unit from starting at boot, not from being pulled in. */
    method Enable(d: nat)
      requires Valid() && d < st.Length
      modifies st
      ensures Valid() && StuckKept(cfg, old(st[..]), st[..], spawned, spawned)
      ensures st[..] == old(st[..])[d := Pulled(old(st[d]))]
    {
      NobodySatisfied(cfg, st[..], st[..], spawned);
      if st[d].state == Disabled {
        Set(d, st[d].(enabled := true));
      } else {
        assert st[..] == st[..][d := st[d]];
      }
    }

    ghost predicate Same(us: seq<Unit>, counter: nat, tries: nat, log: seq<int>)
      reads this, st
    {
      st[..] == us && seqCounter == counter && attempts == tries && spawned == log
    }

    /** `u` was started if nothing was missing, and has failed if something
        still is. */
    ghost predicate Launched(u: nat, us: seq<Unit>, tries: nat, counter: nat)
      reads this, st
    {
      && u < st.Length == |cfg| == |us|
      && (AllMet(cfg, us, u) ==> st[..] == us[u := SpawnUnit(us[u], cfg[u].ready, world(tries), counter + 1)])
      && (!AllMet(cfg, st[..], u) ==> st[u].state == Failed)
    }

    /** Start every requirement that is not satisfied yet. */
    method EnsureRequirements(u: nat, ghost plan: Plan) returns (ok: bool)
      requires Valid() && u < st.Length
      modifies st, this`seqCounter, this`attempts, this`spawned
      ensures Valid() && StartKeeps(old(st[..]), st[..], -1)
      ensures StuckKept(cfg, old(st[..]), st[..], old(spawned), spawned)
      ensures Confined(cfg, old(st[..]), st[..], u)
      ensures ok ==> AllMet(cfg, st[..], u)
      ensures AllMet(cfg, old(st[..]), u) ==> ok && Same(old(st[..]), old(seqCounter), old(attempts), old(spawned))
      ensures Busy(cfg, world, plan, old(st[..]), u) ==> Busy(cfg, world, plan, st[..], u) && (u in plan.units ==> ok)
      decreases |Unguarded()|, 4
    {
      hide Busy, Confined;
      NobodySatisfied(cfg, st[..], st[..], spawned);
      ConfinedOne(cfg, st[..], u, st[u]);
      ok := true;
      if cfg[u].kind == Service && cfg[u].needs != [] {
        ok := EnsureAll(u, plan);
      }
    }

    method EnsureAll(u: nat, ghost plan: Plan) returns (ok: bool)
      requires Valid() && u < st.Length && st.Length == |cfg| && cfg[u].kind == Service
      requires StartKeeps(st[..], st[..], -1) && StuckKept(cfg, st[..], st[..], spawned, spawned)
      modifies st, this`seqCounter, this`attempts, this`spawned
      ensures Valid() && StartKeeps(old(st[..]), st[..], -1)
      ensures StuckKept(cfg, old(st[..]), st[..], old(spawned), spawned)
      ensures Confined(cfg, old(st[..]), st[..], u)
      ensures ok ==> MetUpTo(cfg, st[..], u, |cfg[u].needs|)
      ensures MetUpTo(cfg, old(st[..]), u, |cfg[u].needs|) ==>
        ok && Same(old(st[..]), old(seqCounter), old(attempts), old(spawned))
      ensures Busy(cfg, world, plan, old(st[..]), u) ==> Busy(cfg, world, plan, st[..], u) && (u in plan.units ==> ok)
      decreases |Unguarded()|, 3
    {
      hide StuckKept, Good, StartKeeps, Busy, Planned, Healthy, Find, Confined;
      ConfinedOne(cfg, st[..], u, st[u]);
      var i := 0;
      while i < |cfg[u].needs|
        invariant 0 <= i <= |cfg[u].needs|
        invariant Valid() && StartKeeps(old(st[..]), st[..], -1)
        invariant StuckKept(cfg, old(st[..]), st[..], old(spawned), spawned)
        invariant Confined(cfg, old(st[..]), st[..], u)
        invariant MetUpTo(cfg, st[..], u, i)
        invariant Unguarded() == old(Unguarded())
        invariant MetUpTo(cfg, old(st[..]), u, |cfg[u].needs|) ==>
          Same(old(st[..]), old(seqCounter), old(attempts), old(spawned))
        invariant Busy(cfg, world, plan, old(st[..]), u) ==> Busy(cfg, world, plan, st[..], u)
      {
        assert cfg[u].needs[i] in cfg[u].needs;
        if Busy(cfg, world, plan, st[..], u) {
          NeedPlanned(cfg, world, plan, st[..], u, cfg[u].needs[i]);
        }
        var d := FindUnit(cfg, cfg[u].needs[i]);
        if d < 0 || d == u || cfg[d].kind != Service || st[d].state == Failed {
          return false;
        }
        ghost var us, log := st[..], spawned;
        var met := EnsureOne(d, plan);
        if Busy(cfg, world, plan, us, u) {
          KeptBusy(cfg, world, plan, us, st[..], u);
        }
        ConfinedNeed(cfg, us, st[..], u, cfg[u].needs[i]);
        ConfinedTrans(cfg, old(st[..]), us, st[..], u);
        MetKept(cfg, us, st[..], u, i);
        StartKeepsTrans(old(st[..]), us, st[..], -1);
        StuckKeptTrans(cfg, old(st[..]), us, st[..], old(spawned), log, spawned);
        if !met {
          return false;
        }
        i := i + 1;
      }
      return true;
    }

    /** One requirement, which has not failed. */
    method EnsureOne(d: nat, ghost plan: Plan) returns (met: bool)
      requires Valid() && d < st.Length && st[d].state != Failed
      modifies st, this`seqCounter, this`attempts, this`spawned
      ensures Valid() && StartKeeps(old(st[..]), st[..], -1)
      ensures StuckKept(cfg, old(st[..]), st[..], old(spawned), spawned)
      ensures Confined(cfg, old(st[..]), st[..], d)
      ensures met <==> Satisfied(st[d])
      ensures Unguarded() == old(Unguarded())
      ensures old(Satisfied(st[d])) ==> Same(old(st[..]), old(seqCounter), old(attempts), old(spawned))
      ensures Planned(cfg, world, plan, old(st[..])[d := Pulled(old(st[d]))], d) ==>
        Healthy(plan, st[..]) && (d in plan.units && Pulled(old(st[d])).enabled ==> met)
      decreases |Unguarded()|, 2
    {
      hide StuckKept, Good, Planned, Healthy, Launched, StartKeeps, Confined;
      PulledKeeps(st[..], d);
      ConfinedOne(cfg, st[..], d, Pulled(st[d]));
      Enable(d);
      ghost var us, log := st[..], spawned;
      if Planned(cfg, world, plan, us, d) {
        StartPlanned(cfg, world, plan, us, d);
      }
      if !Satisfied(st[d]) {
        assert Unguarded() == old(Unguarded());
        UnitStart(d, plan);
        StartKeepsAll(us, st[..], d);
        ConfinedTrans(cfg, old(st[..]), us, st[..], d);
        StartKeepsTrans(old(st[..]), us, st[..], -1);
        StuckKeptTrans(cfg, old(st[..]), us, st[..], old(spawned), log, spawned);
      }
      met := Satisfied(st[d]);
      SameGuards(old(st[..]), st[..]);
      assert Unguarded() == old(Unguarded());
    }

    /** Terminates on every requires= graph: each level of the recursion raises
        one more guard. */
    method UnitStart(u: nat, ghost plan: Plan)
      requires Valid() && u < st.Length
      modifies st, this`seqCounter, this`attempts, this`spawned
      ensures Valid() && StartKeeps(old(st[..]), st[..], u)
      ensures StuckKept(cfg, old(st[..]), st[..], old(spawned), spawned)
      ensures Confined(cfg, old(st[..]), st[..], u)
      // up already, met again on the way down, or with nothing missing
      ensures old(st[u]).state == Running ==> Same(old(st[..]), old(seqCounter), old(attempts), old(spawned))
      ensures old(st[u]).state != Running && old(st[u]).guard ==>
        st[..] == old(st[..])[u := old(st[u]).(state := Failed)]
      ensures old(st[u]).state != Running && !old(st[u]).guard ==>
        Launched(u, old(st[..]), old(attempts), old(seqCounter))
      ensures Tried(st[u])
      // and whatever is missing can be started
      ensures Planned(cfg, world, plan, old(st[..]), u) ==> Healthy(plan, st[..])
      ensures Chosen(cfg, world, plan, old(st[..]), u) ==> st[u].state == Running
      decreases |Unguarded()|, 1
    {
      hide Planned, Healthy, Launched, StartKeeps, StuckKept, Good, Confined;
      Facts(u);
      FailKeeps(st[..], u);
      ConfinedOne(cfg, st[..], u, st[u].(state := Failed));
      if Planned(cfg, world, plan, st[..], u) {
        StartPlanned(cfg, world, plan, st[..], u);
      }
      NobodySatisfied(cfg, st[..], st[..], spawned);
      if st[u].state == Running || st[u].state == Starting {
        return;
      }
      if st[u].guard {
        Set(u, st[u].(state := Failed));
        return;
      }
      StartUnguarded(u, plan);
    }

    method StartUnguarded(u: nat, ghost plan: Plan)
      requires Valid() && u < st.Length && !st[u].guard
      modifies st, this`seqCounter, this`attempts, this`spawned
      ensures Valid() && StartKeeps(old(st[..]), st[..], u)
      ensures StuckKept(cfg, old(st[..]), st[..], old(spawned), spawned)
      ensures Confined(cfg, old(st[..]), st[..], u)
      ensures Launched(u, old(st[..]), old(attempts), old(seqCounter)) && Tried(st[u])
      ensures Planned(cfg, world, plan, old(st[..]), u) ==> Healthy(plan, st[..])
      ensures Chosen(cfg, world, plan, old(st[..]), u) ==> st[u].state == Running
      decreases |Unguarded()|, 0
    {
      hide StuckKept, AllMet, Good, StartKeeps, Planned, Busy, Healthy, SpawnUnit, SameWindow, Relaunched;
      hide Launched, Confined;
      Facts(u);
      ConfinedOne(cfg, st[..], u, st[u].(guard := true));
      if Planned(cfg, world, plan, st[..], u) {
        StartPlanned(cfg, world, plan, st[..], u);
      }
      Set(u, st[u].(guard := true));
      assert Unguarded() == old(Unguarded()) - {u};
      ghost var gs := st[..];
      ghost var vs := Relaunch(u, plan);
      StuckKeptTrans(cfg, old(st[..]), gs, st[..], old(spawned), old(spawned), spawned);
      ghost var ws := st[..];
      LowerGuard(u, old(st[..]), old(attempts), old(seqCounter));
      ConfinedOne(cfg, ws, u, st[u]);
      ConfinedTrans(cfg, old(st[..]), gs, ws, u);
      ConfinedTrans(cfg, old(st[..]), ws, st[..], u);
      StuckKeptTrans(cfg, old(st[..]), ws, st[..], old(spawned), spawned, spawned);
      GuardedKeeps(old(st[..]), vs, u, ws[u]);
      assert st[..] == vs[u := st[u]];
    }

    /** The guard makes no difference to how the unit was launched. */
    method LowerGuard(u: nat, ghost us: seq<Unit>, ghost tries: nat, ghost counter: nat)
      requires Valid() && u < st.Length == |us| && !us[u].guard
      requires Launched(u, us[u := us[u].(guard := true)], tries, counter)
      modifies st
      ensures Valid() && st[..] == old(st[..])[u := old(st[u]).(guard := false)]
      ensures StuckKept(cfg, old(st[..]), st[..], spawned, spawned)
      ensures Launched(u, us, tries, counter)
    {
      hide StuckKept, Good, AllMet, SpawnUnit;
      Facts(u);
      ghost var ws := st[..];
      Set(u, st[u].(guard := false));
      GuardedLaunch(cfg, us, world(tries), counter + 1, ws, u);
    }

    /** With the guard raised: the requirements, then the unit itself. `vs` is the
        table in between. */
    method Relaunch(u: nat, ghost plan: Plan) returns (ghost vs: seq<Unit>)
      requires Valid() && u < st.Length && st[u].guard
      modifies st, this`seqCounter, this`attempts, this`spawned
      ensures Valid() && |vs| == st.Length && StartKeeps(old(st[..]), vs, -1)
      ensures st[..] == vs[u := st[u]] && Relaunched(vs[u], st[u])
      ensures Confined(cfg, old(st[..]), st[..], u)
      ensures StuckKept(cfg, old(st[..]), st[..], old(spawned), spawned)
      ensures Launched(u, old(st[..]), old(attempts), old(seqCounter))
      ensures Busy(cfg, world, plan, old(st[..]), u) ==>
        && Healthy(plan, st[..][u := st[u].(guard := false)])
        && (u in plan.units && old(st[u]).enabled ==> st[u].state == Running)
      decreases |Unguarded()|, 5
    {
      hide StuckKept, AllMet, Good, StartKeeps, Planned, Busy, Healthy, SpawnUnit, Confined;
      Sizes();
      var ok := EnsureRequirements(u, plan);
      vs := st[..];
      ghost var log := spawned;
      if Busy(cfg, world, plan, vs, u) {
        SpawnHealthy(cfg, world, plan, vs, u, attempts, seqCounter + 1);
      }
      if old(st[u]).enabled {
        StaysEnabled(old(st[..]), vs, u);
      }
      SpawnOrFail(u, ok);
      ConfinedOne(cfg, vs, u, st[u]);
      ConfinedTrans(cfg, old(st[..]), vs, st[..], u);
      StuckKeptTrans(cfg, old(st[..]), vs, st[..], old(spawned), log, spawned);
      MetAnyway(cfg, vs, u, st[u]);
      assert st[..][u := st[u].(guard := false)] == vs[u := st[u].(guard := false)];
    }

    /** A unit whose requirements are met is started, any other has failed. */
    method SpawnOrFail(u: nat, ok: bool)
      requires Valid() && u < st.Length && (ok ==> AllMet(cfg, st[..], u))
      modifies st, this`seqCounter, this`attempts, this`spawned
      ensures Valid() && st[..] == old(st[..])[u := st[u]] && Relaunched(old(st[u]), st[u])
      ensures StuckKept(cfg, old(st[..]), st[..], old(spawned), spawned)
      ensures st[u] == if ok then SpawnUnit(old(st[u]), cfg[u].ready, world(old(attempts)), old(seqCounter) + 1)
                       else old(st[u]).(state := Failed)
    {
      hide StuckKept, AllMet, Good;
      ghost var vs, log := st[..], spawned;
      Facts(u);
      if ok {
        UnitSpawn(u);
        MetStarted(cfg, vs, u, st[u], log, spawned[|log|..]);
        assert spawned == log + spawned[|log|..];
      } else {
        Set(u, st[u].(state := Failed));
      }
    }

    // ---- the supervisor's ticks -----------------------------------------

    method UnitDied(u: nat, code: int, now: nat)
      requires Valid() && u < st.Length && st[u].pid > 0
      requires st[u].state == Running || st[u].state == Starting || st[u].stopping
      modifies st, this`seqCounter, this`attempts, this`spawned, this`lives
      ensures Valid() && FailedStay(old(st[..]), st[..])
      ensures StuckKept(cfg, old(st[..]), st[..], old(spawned), spawned)
      ensures forall v :: 0 <= v < st.Length && v != u ==> Undisturbed(old(st[..])[v], st[..][v])
      ensures !old(st[u]).restartPending ==> st[..] == old(st[..])[u := Bury(old(st[u]), code, now)]
      ensures Confined(cfg, old(st[..]), st[..], u)
      ensures old(st[u]).restartPending && !old(st[u]).guard ==>
        Launched(u, old(st[..])[u := Gone(old(st[u]), code)], old(attempts), old(seqCounter))
      ensures forall v :: lives(v) == old(lives)(v) + if v == u then [Life(old(st[u]), code, now)] else []
    {
      hide StuckKept, Good, Launched, Planned, Chosen, Healthy, StartKeeps, Confined;
      Facts(u);
      ghost var log, life := lives, Life(st[u], code, now);
      lives := (v: nat) => log(v) + if v == u then [life] else [];
      if st[u].restartPending {
        ConfinedOne(cfg, st[..], u, Gone(st[u], code));
        Set(u, Gone(st[u], code));
        ghost var us := st[..];
        UnitStart(u, NO_PLAN);
        ConfinedTrans(cfg, old(st[..]), us, st[..], u);
        StartUndisturbed(us, st[..], u);
        StuckKeptTrans(cfg, old(st[..]), us, st[..], old(spawned), old(spawned), spawned);
      } else {
        ConfinedOne(cfg, st[..], u, Bury(st[u], code, now));
        Set(u, Bury(st[u], code, now));
      }
    }

    /** One unit's turn in reap_children. */
    method ReapOne(i: nat, d: Death)
      requires Valid() && i < st.Length
      modifies st, this`seqCounter, this`attempts, this`spawned, this`lives
      ensures Valid() && FailedStay(old(st[..]), st[..])
      ensures StuckKept(cfg, old(st[..]), st[..], old(spawned), spawned)
      ensures st.Length == |cfg|
      ensures forall v :: 0 <= v < st.Length ==> Tracked(old(st[..]), old(lives), st[..], lives, v)
      ensures old(st[i]).backoff < 4
      ensures Confined(cfg, old(st[..]), st[..], i)
      ensures (!old(st[i]).restartPending ==> st[..] == old(st[..])[i := Reaped(old(st[i]), d)])
      ensures forall v :: lives(v) == old(lives)(v) + if v == i then LifeOf(old(st[i]), d) else []
    {
      hide StuckKept, Good, Launched, Bury, Lived, Confined;
      Facts(i);
      Sizes();
      ConfinedOne(cfg, st[..], i, st[i]);
      NobodySatisfied(cfg, st[..], st[..], spawned);
      ghost var us, log := st[..], lives;
      if Reapable(st[i]) && d.Died? {
        UnitDied(i, d.code, d.now);
        DeathTracked(us, log, st[..], lives, i, d.code, d.now);
      } else {
        QuietTracked(us, log, lives);
        assert st[..] == us[i := us[i]];
      }
    }

    method ReapChildren(deaths: nat -> Death)
      requires Valid()
      modifies st, this`seqCounter, this`attempts, this`spawned, this`lives
      ensures Valid() && FailedStay(old(st[..]), st[..])
      ensures StuckKept(cfg, old(st[..]), st[..], old(spawned), spawned)
      // the bookkeeping of every unit is that of the deaths logged for it
      ensures st.Length == |cfg|
      ensures forall v :: 0 <= v < st.Length ==> Tracked(old(st[..]), old(lives), st[..], lives, v)
      // apart from what pending restarts pull in, each death is bookkept and nothing
      // else changes
      ensures forall v :: 0 <= v < st.Length && !PulledBy(cfg, Pending(old(st[..])), v) ==>
          && st[..][v] == Reaped(old(st[..])[v], deaths(v))
          && lives(v) == old(lives)(v) + LifeOf(old(st[..])[v], deaths(v))
    {
      hide StuckKept, Bury, Good, Tracked, Reaped, LifeOf, PulledBy, Confined;
      ghost var was, log := st[..], lives;
      Backoffs();
      Sizes();
      NobodySatisfied(cfg, st[..], st[..], spawned);
      QuietTracked(was, log, lives);
      var i := 0;
      while i < st.Length
        invariant 0 <= i <= st.Length
        invariant Valid() && FailedStay(was, st[..])
        invariant StuckKept(cfg, was, st[..], old(spawned), spawned)
        invariant forall v :: 0 <= v < st.Length ==> Tracked(was, log, st[..], lives, v)
        invariant forall v :: 0 <= v < st.Length && !PulledBy(cfg, Pending(was), v) ==>
            && st[..][v] == (if v < i then Reaped(was[v], deaths(v)) else was[v])
            && lives(v) == log(v) + if v < i then LifeOf(was[v], deaths(v)) else []
      {
        ghost var us, sp, mid := st[..], spawned, lives;
        PendingKept(was, log, us, lives, i);
        ReapOne(i, deaths(i));
        OthersPulled(cfg, was, us, st[..], i);
        StuckKeptTrans(cfg, was, us, st[..], old(spawned), sp, spawned);
        AllTracked(was, log, us, mid, st[..], lives);
        i := i + 1;
      }
    }

    method RunBackoff(now: nat)
      requires Valid()
      modifies st, this`seqCounter, this`attempts, this`spawned
      ensures Valid() && FailedStay(old(st[..]), st[..])
      ensures StuckKept(cfg, old(st[..]), st[..], old(spawned), spawned)
      ensures forall v :: 0 <= v < st.Length ==> Undisturbed(old(st[v]), st[v])
      // only what is due and what that requires is touched
      ensures forall v :: 0 <= v < st.Length && !PulledBy(cfg, DueAt(old(st[..]), now), v) ==>
        st[..][v] == old(st[..])[v]
      // nothing that was due is left waiting
      ensures forall v :: 0 <= v < st.Length && st[v].state == Waiting ==> st[v] == old(st[v]) && now < st[v].nextStart
    {
      hide StuckKept, Good, PulledBy, Confined;
      NobodySatisfied(cfg, st[..], st[..], spawned);
      ghost var was := st[..];
      var i := 0;
      while i < st.Length
        invariant 0 <= i <= st.Length
        invariant Valid() && FailedStay(old(st[..]), st[..])
        invariant StuckKept(cfg, old(st[..]), st[..], old(spawned), spawned)
        invariant forall v :: 0 <= v < st.Length ==> Undisturbed(old(st[v]), st[v])
        invariant forall v :: 0 <= v < st.Length && !PulledBy(cfg, DueAt(was, now), v) ==> st[..][v] == was[v]
        invariant forall v :: 0 <= v < st.Length && st[v].state == Waiting ==>
          st[v] == old(st[v]) && (v < i ==> now < st[v].nextStart)
      {
        if st[i].state == Waiting && now >= st[i].nextStart {
          ghost var us, log := st[..], spawned;
          assert us[i] == was[i];
          UnitStart(i, NO_PLAN);
          DuePulls(cfg, was, now, us, st[..], i);
          StuckKeptTrans(cfg, old(st[..]), us, st[..], old(spawned), log, spawned);
        }
        i := i + 1;
      }
    }

    method LostRequirement(u: nat) returns (lost: bool)
      requires u < st.Length == |cfg|
      ensures lost == Lost(cfg, st[..], u)
    {
      var j := 0;
      while j < st.Length
        invariant 0 <= j <= st.Length
        invariant forall k :: 0 <= k < j ==> !(Requires(cfg, u, k) && !Satisfied(st[k]))
      {
        if Requires(cfg, u, j) && !Satisfied(st[j]) {
          return true;
        }
        j := j + 1;
      }
      return false;
    }

    method EnforceUnit(i: nat)
      requires Valid() && i < st.Length == |cfg|
      modifies st, this`signals
      ensures Valid() && st[..] == EnforceOne(cfg, old(st[..]), i)
      ensures StuckKept(cfg, old(st[..]), st[..], spawned, spawned)
      ensures st[..] == old(st[..])[i := st[i]]
      ensures signals == old(signals) + if st[i] != old(st[i]) && old(st[i]).pid > 0 then [i] else []
    {
      hide StuckKept, Lost, Good;
      NobodySatisfied(cfg, st[..], st[..], spawned);
      if Active(st[i]) {
        var lost := LostRequirement(i);
        if lost {
          if st[i].pid > 0 {
            signals := signals + [i];
          }
          Facts(i);
          Set(i, Drop(st[i]));
        }
      }
    }

    /** One enforcement pass. */
    method EnforceDependencies()
      requires Valid()
      modifies st, this`signals
      ensures Valid() && st[..] == Sweep(cfg, old(st[..]), st.Length)
      ensures FailedStay(old(st[..]), st[..])
      ensures StuckKept(cfg, old(st[..]), st[..], spawned, spawned)
      ensures forall v :: 0 <= v < st.Length ==> Undisturbed(old(st[..])[v], st[..][v])
      // who is dropped with a process is told so
      ensures Told(old(st[..]), st[..], st.Length, old(signals), signals)
    {
      hide StuckKept, Good, Sweep, Stage, Told;
      Sizes();
      EnforceAll();
      StageRefl(cfg, old(st[..]));
      SweepStage(cfg, old(st[..]), old(st[..]), st.Length);
      StageKeeps(cfg, old(st[..]), st[..]);
    }

    lemma Sizes()
      requires Valid()
      ensures st.Length == |cfg|
    {
    }

    method EnforceAll()
      requires Valid() && st.Length == |cfg|
      modifies st, this`signals
      ensures Valid() && st[..] == Sweep(cfg, old(st[..]), st.Length)
      ensures StuckKept(cfg, old(st[..]), st[..], spawned, spawned)
      ensures Told(old(st[..]), st[..], st.Length, old(signals), signals)
    {
      hide StuckKept, Good, EnforceOne, Told;
      NobodySatisfied(cfg, st[..], st[..], spawned);
      NobodyTold(st[..], signals);
      var i := 0;
      while i < st.Length
        invariant 0 <= i <= st.Length
        invariant Valid() && st[..] == Sweep(cfg, old(st[..]), i)
        invariant StuckKept(cfg, old(st[..]), st[..], spawned, spawned)
        invariant Told(old(st[..]), st[..], i, old(signals), signals)
      {
        ghost var us, sent := st[..], signals;
        EnforceUnit(i);
        ToldOne(old(st[..]), us, i, st[i], old(signals), sent, signals);
        StuckKeptTrans(cfg, old(st[..]), us, st[..], spawned, spawned, spawned);
        i := i + 1;
      }
    }

    // ---- operator commands ----------------------------------------------

    method UnitStop(u: nat)
      requires Valid() && u < st.Length
      modifies st, this`signals
      ensures Valid() && st[..] == old(st[..])[u := old(st[u]).(stopping := true)]
      ensures StuckKept(cfg, old(st[..]), st[..], spawned, spawned)
      ensures signals == old(signals) + if old(st[u]).pid > 0 then [u] else []
    {
      hide StuckKept, Good;
      Facts(u);
      Set(u, st[u].(stopping := true));
      if st[u].pid > 0 {
        signals := signals + [u];
      }
    }

    /** Change a unit without satisfying it, then start it. */
    method SetAndStart(u: nat, v: Unit)
      requires Valid() && u < st.Length
      requires v.seqNo == st[u].seqNo && v.backoff < 4
      requires v.state == st[u].state && v.exitCode == st[u].exitCode && v.respawn == st[u].respawn
      modifies st, this`seqCounter, this`attempts, this`spawned
      ensures Valid() && StartKeeps(old(st[..])[u := v], st[..], u)
      ensures StuckKept(cfg, old(st[..]), st[..], old(spawned), spawned)
      ensures v.state != Running && !v.guard ==> Launched(u, old(st[..])[u := v], old(attempts), old(seqCounter))
      ensures CanStart(cfg, world, old(st[..])[u := v], u) ==> st[u].state == Running
    {
      hide StuckKept, Good, Planned, Chosen, Launched, StartKeeps;
      Facts(u);
      Set(u, v);
      ghost var us := st[..];
      ghost var plan := NO_PLAN;
      if CanStart(cfg, world, us, u) {
        plan :| Chosen(cfg, world, plan, us, u);
      }
      UnitStart(u, plan);
      StuckKeptTrans(cfg, old(st[..]), us, st[..], old(spawned), old(spawned), spawned);
    }

    /** What a command has done to the table `us`. */
    ghost predicate Obeyed(verb: Verb, u: nat, us: seq<Unit>, tries: nat, counter: nat)
      reads this, st
    {
      && u < st.Length == |us| == |cfg|
      && if verb.Stop? then st[..] == us[u := ToldToStop(us[u])]
         else if verb.ResetFailed? then st[..] == us[u := ResetUnit(us[u])]
         else if verb.Start? && Up(us[u]) then st[..] == us
         else if verb.Restart? && Up(us[u]) && us[u].pid > 0 then
           st[..] == us[u := us[u].(enabled := true, restartPending := true, stopping := true)]
         else
           var ready := us[u := Rearmed(verb, us[u])];
           && StartKeeps(ready, st[..], u)
           && (!Up(us[u]) && !us[u].guard ==> Launched(u, ready, tries, counter))
           && (CanStart(cfg, world, ready, u) ==> st[u].state == Running)
    }

    /** Everybody else's bookkeeping is left alone. */
    ghost predicate OthersUndisturbed(us: seq<Unit>, u: nat)
      reads st
    {
      |us| == st.Length && forall v :: 0 <= v < st.Length && v != u ==> Undisturbed(us[v], st[..][v])
    }

    /** service start, stop, restart and reset-failed. */
    method Command(verb: Verb, u: nat)
      requires Valid() && u < st.Length
      modifies st, this`seqCounter, this`attempts, this`spawned, this`signals
      ensures Valid()
      ensures StuckKept(cfg, old(st[..]), st[..], old(spawned), spawned)
      ensures Obeyed(verb, u, old(st[..]), old(attempts), old(seqCounter))
      ensures signals == old(signals) + if Signalled(verb, old(st[u])) then [u] else []
      ensures OthersUndisturbed(old(st[..]), u)
    {
      hide StuckKept, Good, Obeyed, OthersUndisturbed;
      match verb {
        case Start => StartCommand(u);
        case Stop => StopCommand(u);
        case Restart => RestartCommand(u);
        case ResetFailed => ResetCommand(u);
      }
    }

    method StartCommand(u: nat)
      requires Valid() && u < st.Length
      modifies st, this`seqCounter, this`attempts, this`spawned
      ensures Valid() && StuckKept(cfg, old(st[..]), st[..], old(spawned), spawned)
      ensures Obeyed(Start, u, old(st[..]), old(attempts), old(seqCounter)) && OthersUndisturbed(old(st[..]), u)
    {
      hide StuckKept, Good, Launched, StartKeeps, Planned, CanStart;
      NobodySatisfied(cfg, st[..], st[..], spawned);
      Facts(u);
      Sizes();
      if !(st[u].state == Running || st[u].state == Starting) {
        Rearm(Start, u);
      }
    }

    /** Prepare a unit for a start by hand, and start it. */
    method Rearm(verb: Verb, u: nat)
      requires Valid() && u < st.Length == |cfg|
      modifies st, this`seqCounter, this`attempts, this`spawned
      ensures Valid() && StuckKept(cfg, old(st[..]), st[..], old(spawned), spawned)
      ensures var ready := old(st[..])[u := Rearmed(verb, old(st[u]))];
              && StartKeeps(ready, st[..], u)
              && (!Up(old(st[u])) && !old(st[u]).guard ==> Launched(u, ready, old(attempts), old(seqCounter)))
              && (CanStart(cfg, world, ready, u) ==> st[u].state == Running)
      ensures OthersUndisturbed(old(st[..]), u)
    {
      hide StuckKept, Good, Launched, StartKeeps, CanStart;
      Facts(u);
      ghost var was := st[..];
      SetAndStart(u, Rearmed(verb, st[u]));
      StartUndisturbed(was[u := Rearmed(verb, was[u])], st[..], u);
    }

    method RestartCommand(u: nat)
      requires Valid() && u < st.Length
      modifies st, this`seqCounter, this`attempts, this`spawned, this`signals
      ensures Valid() && StuckKept(cfg, old(st[..]), st[..], old(spawned), spawned)
      ensures Obeyed(Restart, u, old(st[..]), old(attempts), old(seqCounter)) && OthersUndisturbed(old(st[..]), u)
      ensures signals == old(signals) + if Signalled(Restart, old(st[u])) then [u] else []
    {
      hide StuckKept, Good, Launched, StartKeeps, CanStart;
      Facts(u);
      Sizes();
      if (st[u].state == Running || st[u].state == Starting) && st[u].pid > 0 {
        Set(u, st[u].(enabled := true, restartPending := true));
        ghost var us := st[..];
        UnitStop(u);
        StuckKeptTrans(cfg, old(st[..]), us, st[..], old(spawned), old(spawned), spawned);
      } else {
        Rearm(Restart, u);
      }
    }

    method ResetCommand(u: nat)
      requires Valid() && u < st.Length
      modifies st
      ensures Valid() && StuckKept(cfg, old(st[..]), st[..], spawned, spawned)
      ensures Obeyed(ResetFailed, u, old(st[..]), attempts, seqCounter) && OthersUndisturbed(old(st[..]), u)
    {
      hide StuckKept, Good;
      Facts(u);
      Sizes();
      Set(u, ResetUnit(st[u]));
    }

    method StopCommand(u: nat)
      requires Valid() && u < st.Length
      modifies st, this`signals
      ensures Valid() && StuckKept(cfg, old(st[..]), st[..], spawned, spawned)
      ensures Obeyed(Stop, u, old(st[..]), attempts, seqCounter) && OthersUndisturbed(old(st[..]), u)
      ensures signals == old(signals) + if Up(old(st[u])) && old(st[u]).pid > 0 then [u] else []
    {
      hide StuckKept, Good;
      Facts(u);
      Sizes();
      var v := st[u].(restartPending := false, dependencyFailed := false);
      if !(v.state == Running || v.state == Starting) || v.pid <= 0 {
        Set(u, v.(state := Stopped, nextStart := 0));
      } else {
        Set(u, v);
        ghost var us := st[..];
        UnitStop(u);
        StuckKeptTrans(cfg, old(st[..]), us, st[..], spawned, spawned, spawned);
      }
    }

    // ---- shutdown -------------------------------------------------------

    /** The live unit started last, or -1. */
    method LastStarted() returns (best: int)
      requires Valid()
      ensures -1 <= best < st.Length
      ensures best < 0 ==> forall u :: 0 <= u < st.Length ==> !Live(st[u])
      ensures best >= 0 ==> Live(st[best])
      ensures best >= 0 ==>
        forall u :: 0 <= u < st.Length && Live(st[u]) && u != best ==> st[u].seqNo < st[best].seqNo
    {
      best := -1;
      var i := 0;
      while i < st.Length
        invariant 0 <= i <= st.Length && -1 <= best < i
        invariant best < 0 ==> forall u :: 0 <= u < i ==> !Live(st[u])
        invariant best >= 0 ==> Live(st[best])
        invariant best >= 0 ==>
          forall u :: 0 <= u < i && Live(st[u]) && u != best ==> st[u].seqNo < st[best].seqNo
      {
        if Live(st[i]) && (best < 0 || st[i].seqNo > st[best].seqNo) {
          best := i;
        }
        i := i + 1;
      }
    }

    ghost function LiveUnits(): set<int>
      reads st
    {
      set u | 0 <= u < st.Length && Live(st[u])
    }

    /** A unit told to stop is not to be restarted. */
    method StopOne(u: nat)
      requires Valid() && u < st.Length && st[u].pid > 0
      modifies st, this`signals
      ensures Valid() && signals == old(signals) + [u]
      ensures st[..] == old(st[..])[u := old(st[u]).(respawn := Never, stopping := true)]
    {
      hide StuckKept, Good;
      Facts(u);
      Set(u, st[u].(respawn := Never));
      UnitStop(u);
    }

    /** The first half of do_shutdown: signal every live unit, latest start
        first. `order` is the order of the signals. */
    method StopAll() returns (order: seq<int>)
      requires Valid()
      modifies st, this`signals
      ensures Valid() && signals == old(signals) + order && Distinct(order)
      ensures forall u :: u in order <==> 0 <= u < st.Length && Live(old(st[..])[u])
      ensures forall u :: 0 <= u < st.Length && old(st[..])[u].state == Running && old(st[..])[u].pid > 0 ==>
        (u in order <==> !old(st[..])[u].stopping)
      ensures DecreasingStarts(old(st[..]), order)
      ensures forall u :: 0 <= u < st.Length ==>
        st[u] == if u in order then old(st[..])[u].(respawn := Never, stopping := true) else old(st[..])[u]
      ensures forall i, j :: 0 <= i < |order| && 0 <= j < |order| && Needs(cfg, order[i], order[j]) ==> i < j
    {
      hide StuckKept, Good, Stopping;
      order := [];
      ghost var us := st[..];
      NoneStopped(us);
      while true
        invariant Valid() && signals == old(signals) + order && Stopping(us, st[..], order)
        decreases LiveUnits()
      {
        var best := LastStarted();
        if best < 0 {
          break;
        }
        ghost var before := LiveUnits();
        StopStep(us, st[..], order, best);
        StopOne(best);
        order := order + [best];
        assert LiveUnits() == before - {best};
      }
      AllStopped(us, st[..], order);
      DependentsFirst(cfg, us, seqCounter, order);
    }

    // ---- boot and whole runs --------------------------------------------

    constructor (cfg: seq<Config>, world: nat -> Spawn, init: seq<Unit>)
      requires |init| == |cfg| && forall u :: 0 <= u < |init| ==> Initial(init[u])
      ensures Valid() && fresh(st) && st[..] == init && this.cfg == cfg && this.world == world
      ensures seqCounter == 0 && attempts == 0 && spawned == [] && signals == [] && forall u :: lives(u) == []
    {
      this.cfg, this.world := cfg, world;
      st := new Unit[|init|](i requires 0 <= i < |init| => init[i]);
      seqCounter, attempts, spawned, signals, lives := 0, 0, [], [], (_: nat) => [];
      new;
      assert st[..] == init;
    }

    /** Run a sysinit unit to completion; `code` is its exit status. */
    method RunSync(u: nat, code: int)
      requires Valid() && u < st.Length
      modifies st, this`seqCounter, this`attempts, this`spawned
      ensures Valid() && StuckKept(cfg, old(st[..]), st[..], old(spawned), spawned)
      // it ends exited if it started and its status is zero
      ensures st[u].state == Failed || st[u].state == Disabled || (st[u].state == Exited && st[u].exitCode == code == 0)
      ensures st[u].state == Exited ==> st[u].pid == 0
      ensures cfg[u].kind == Sysinit ==> st[..] == old(st[..])[u :=
        Finished(Started(old(st[u]), cfg[u].ready, world(old(attempts)), old(seqCounter) + 1), code)]
    {
      hide StuckKept, Good, StartKeeps, SpawnUnit;
      Facts(u);
      UnitStart(u, NO_PLAN);
      if st[u].state != Running {
        return;
      }
      ghost var us := st[..];
      Facts(u);
      Set(u, st[u].(exitCode := code, pid := 0, state := if code == 0 then Exited else Failed));
      StuckKeptTrans(cfg, old(st[..]), us, st[..], old(spawned), spawned, spawned);
    }

    /** order_services on the table. */
    method Order() returns (ghost perm: seq<int>)
      requires Valid()
      modifies st
      ensures Valid() && StuckKept(cfg, old(st[..]), st[..], spawned, spawned)
      // the numbers run over the services, dependencies first
      ensures Ordering.Numbered(cfg, st[..], perm) && InOrder(cfg, st[..])
      ensures st.Length == |cfg| && forall u :: IsService(cfg, u) ==> 0 <= st[u].order < st.Length
      // what reaches a cycle or misses a requirement fails, and nothing else changes
      ensures forall u :: 0 <= u < st.Length ==> Ordering.SameButOrder(st[..][u], old(st[..])[u])
      ensures forall u :: 0 <= u < st.Length && !IsService(cfg, u) ==> st[..][u].state == old(st[..])[u].state
      ensures forall u :: IsService(cfg, u) ==>
        st[..][u].state == if Ordering.ReachesCycle(cfg, u) || Ordering.MissingNeed(cfg, u) then Failed
                           else old(st[..])[u].state
    {
      Sizes();
      ghost var m;
      perm, m := Ordering.OrderServices(cfg, st);
      Ordering.PermBounded(cfg, st[..], perm);
      OrderedGood(cfg, old(st[..]), st[..], seqCounter);
      NobodySatisfied(cfg, old(st[..]), st[..], spawned);
    }

    /** The sysinit units, one after the other. */
    method RunSysinits(codes: nat -> int)
      requires Valid()
      modifies st, this`seqCounter, this`attempts, this`spawned
      ensures Valid() && StuckKept(cfg, old(st[..]), st[..], old(spawned), spawned)
      ensures st.Length == |cfg|
      ensures forall v :: 0 <= v < st.Length ==> SysinitRun(cfg[v], old(st[..])[v], st[..][v], codes(v))
    {
      hide StuckKept, Good;
      NobodySatisfied(cfg, st[..], st[..], spawned);
      Sizes();
      ghost var was := st[..];
      var i := 0;
      while i < st.Length
        invariant 0 <= i <= st.Length && Valid()
        invariant StuckKept(cfg, old(st[..]), st[..], old(spawned), spawned)
        invariant forall v :: 0 <= v < st.Length ==>
          if v < i then SysinitRun(cfg[v], was[v], st[..][v], codes(v)) else st[..][v] == was[v]
      {
        if cfg[i].kind == Sysinit && st[i].state != Failed {
          ghost var us, log := st[..], spawned;
          RunSync(i, codes(i));
          StuckKeptTrans(cfg, old(st[..]), us, st[..], old(spawned), log, spawned);
        }
        i := i + 1;
      }
    }

    /** Start one unit between turns. */
    method StartOne(u: nat, ghost plan: Plan)
      requires Valid() && u < st.Length
      modifies st, this`seqCounter, this`attempts, this`spawned
      ensures Valid() && StuckKept(cfg, old(st[..]), st[..], old(spawned), spawned)
      ensures (forall v :: 0 <= v < st.Length ==> Turn(old(st[..])[v], st[..][v])) && Tried(st[u])
      ensures Confined(cfg, old(st[..]), st[..], u)
      ensures forall v :: 0 <= v < st.Length && v != u && old(st[..])[v].state == Failed ==> st[..][v] == old(st[..])[v]
      ensures Calm(cfg, world, plan, old(st[..])) ==> Calm(cfg, world, plan, st[..])
      ensures Calm(cfg, world, plan, old(st[..])) && u in plan.units && old(st[u]).enabled ==> st[u].state == Running
    {
      hide StuckKept, Good, Feasible, Healthy, Launched, StartKeeps, Satisfied, Confined;
      ghost var us := st[..];
      UnitStart(u, plan);
      StartTurn(us, st[..], u);
      OthersFailed(us, st[..], u);
    }

    /** Start the services numbered `o`, or for -1 the respawn and once units. */
    method StartMatching(o: int, ghost plan: Plan)
      requires Valid()
      modifies st, this`seqCounter, this`attempts, this`spawned
      ensures Valid() && StuckKept(cfg, old(st[..]), st[..], old(spawned), spawned) && st.Length == |cfg|
      ensures forall v :: 0 <= v < st.Length ==> Turn(old(st[..])[v], st[..][v])
      ensures forall v :: 0 <= v < st.Length && Due(cfg[v], old(st[..])[v], o) ==> Tried(st[..][v])
      ensures OnlyDue(cfg, old(st[..]), st[..], o)
      // whatever is planned and due is running afterwards
      ensures Calm(cfg, world, plan, old(st[..])) ==> Calm(cfg, world, plan, st[..])
      ensures Calm(cfg, world, plan, old(st[..])) ==>
        forall v :: 0 <= v < st.Length && DueIn(plan, cfg[v], old(st[..])[v], o, v) ==> st[..][v].state == Running
    {
      hide StuckKept, Good, Calm, Confined, PulledBy;
      NobodySatisfied(cfg, st[..], st[..], spawned);
      Sizes();
      ghost var was := st[..];
      var i := 0;
      while i < st.Length
        invariant 0 <= i <= st.Length && Valid()
        invariant StuckKept(cfg, was, st[..], old(spawned), spawned)
        invariant OnlyDue(cfg, was, st[..], o)
        invariant forall v :: 0 <= v < st.Length ==> Turn(was[v], st[..][v])
        invariant forall v :: 0 <= v < i && Due(cfg[v], was[v], o) ==> Tried(st[..][v])
        invariant Calm(cfg, world, plan, was) ==> Calm(cfg, world, plan, st[..])
        invariant Calm(cfg, world, plan, was) ==>
          forall v :: 0 <= v < i && DueIn(plan, cfg[v], was[v], o, v) ==> st[..][v].state == Running
      {
        CalmHealthy(cfg, world, plan, st[..], i);
        if Due(cfg[i], st[i], o) && st[i].state != Failed {
          ghost var us, log := st[..], spawned;
          StartOne(i, plan);
          OnlyDueMore(cfg, was, us, st[..], o, i);
          StuckKeptTrans(cfg, was, us, st[..], old(spawned), log, spawned);
        }
        i := i + 1;
      }
    }

    /** The services, by their numbers. */
    method StartServices(ghost plan: Plan)
      requires Valid() && st.Length == |cfg| && forall u :: IsService(cfg, u) ==> 0 <= st[u].order < st.Length
      modifies st, this`seqCounter, this`attempts, this`spawned
      ensures Valid() && StuckKept(cfg, old(st[..]), st[..], old(spawned), spawned)
      ensures forall v :: 0 <= v < st.Length ==> Turn(old(st[..])[v], st[..][v])
      ensures forall v :: IsService(cfg, v) ==> Tried(st[..][v])
      ensures forall v :: 0 <= v < st.Length && (!IsService(cfg, v) || old(st[..])[v].state == Failed) ==>
        st[..][v] == old(st[..])[v]
      ensures Calm(cfg, world, plan, old(st[..])) ==> Calm(cfg, world, plan, st[..])
      ensures Calm(cfg, world, plan, old(st[..])) ==>
        forall v :: IsService(cfg, v) && v in plan.units && old(st[..])[v].enabled ==> st[..][v].state == Running
    {
      hide StuckKept, Good, Calm, OnlyDue;
      NobodySatisfied(cfg, st[..], st[..], spawned);
      ghost var was := st[..];
      var o := 0;
      while o < st.Length
        invariant 0 <= o <= st.Length && Valid()
        invariant StuckKept(cfg, was, st[..], old(spawned), spawned)
        invariant forall v :: 0 <= v < st.Length ==> Turn(was[v], st[..][v])
        invariant forall v :: IsService(cfg, v) && was[v].order < o ==> Tried(st[..][v])
        invariant forall v :: 0 <= v < st.Length && (!IsService(cfg, v) || was[v].state == Failed) ==>
          st[..][v] == was[v]
        invariant Calm(cfg, world, plan, was) ==> Calm(cfg, world, plan, st[..])
        invariant Calm(cfg, world, plan, was) ==>
          forall v :: IsService(cfg, v) && was[v].order < o && v in plan.units && was[v].enabled ==>
            st[..][v].state == Running
      {
        ghost var us, log := st[..], spawned;
        StartMatching(o, plan);
        KindsKept(cfg, us, st[..], o);
        StuckKeptTrans(cfg, was, us, st[..], old(spawned), log, spawned);
        o := o + 1;
      }
    }

    /** start_all: sysinit units to completion, then the services in dependency
        order, then the rest. */
    method StartAll(codes: nat -> int)
      requires Valid()
      modifies st, this`seqCounter, this`attempts, this`spawned
      ensures Valid() && StuckKept(cfg, old(st[..]), st[..], old(spawned), spawned)
      ensures st.Length == |cfg| && forall v :: 0 <= v < st.Length && cfg[v].kind != Sysinit ==> Tried(st[v])
      // sysinit units have run once and are left alone; what cannot be ordered has failed
      ensures forall v :: 0 <= v < st.Length && cfg[v].kind == Sysinit && old(st[..])[v].state != Failed ==>
        st[v].state == Failed || st[v].state == Disabled || (st[v].state == Exited && st[v].exitCode == codes(v) == 0)
      ensures forall v :: IsService(cfg, v) && (Ordering.ReachesCycle(cfg, v) || Ordering.MissingNeed(cfg, v)) ==>
        st[v].state == Failed
      // when every process starts, every enabled service that nothing keeps from
      // starting ends up running
      ensures AllStart(world) && NoGuards(old(st[..])) ==>
        forall u :: CanBoot(cfg, old(st[..]), u) && old(st[..])[u].enabled ==> st[..][u].state == Running
    {
      hide StuckKept, Good, Calm, AllStart, CanBoot, Bootable, BootPlan;
      hide NoGuards, Ordering.Numbered, InOrder, AllBootable, OnlyDue, Ordering.ReachesCycle, Ordering.MissingNeed;
      Sizes();
      ghost var was := st[..];
      ghost var g := AllBootable(cfg, was);
      BootableTogether(cfg, was);
      RunSysinits(codes);
      ghost var us, log := st[..], spawned;
      ghost var _ := Order();
      StuckKeptTrans(cfg, was, us, st[..], old(spawned), log, spawned);
      ghost var plan := BootPlan(st[..], g);
      if AllStart(world) && NoGuards(was) {
        BootCalm(cfg, world, was, us, st[..], g);
      }
      us := st[..];
      log := spawned;
      StartServices(plan);
      StuckKeptTrans(cfg, was, us, st[..], old(spawned), log, spawned);
      us := st[..];
      log := spawned;
      StartMatching(-1, plan);
      KindsKept(cfg, us, st[..], -1);
      StuckKeptTrans(cfg, was, us, st[..], old(spawned), log, spawned);
    }

    method Handle(e: Event)
      requires Valid() && (e.Control? ==> e.unit < st.Length)
      modifies st, this`seqCounter, this`attempts, this`spawned, this`signals, this`lives
      ensures Valid() && StuckKept(cfg, old(st[..]), st[..], old(spawned), spawned)
      ensures !e.Control? ==> FailedStay(old(st[..]), st[..])
      ensures forall v :: 0 <= v < st.Length && LeftAlone([e], v) ==> Tracked(old(st[..]), old(lives), st[..], lives, v)
    {
      hide StuckKept, Good, Undisturbed, Tracked;
      ghost var us, log := st[..], lives;
      match e {
        case Reap(deaths) =>
          ReapChildren(deaths);
        case Enforce =>
          EnforceDependencies();
          UndisturbedTracked(us, st[..], log, -1);
        case Backoff(now) =>
          RunBackoff(now);
          UndisturbedTracked(us, st[..], log, -1);
        case Control(verb, unit) =>
          Command(verb, unit);
          UndisturbedTracked(us, st[..], log, unit);
          assert [e][0] == e;
      }
    }

    /** Any run without reload: the invariant behind the shutdown order holds
        throughout, stuck sets never start a member, as long as no operator
        intervenes failed units without a process stay failed, and the crash
        bookkeeping of a unit left alone is that of its deaths. */
    method Run(events: seq<Event>)
      requires Valid()
      requires forall i :: 0 <= i < |events| && events[i].Control? ==> events[i].unit < st.Length
      modifies st, this`seqCounter, this`attempts, this`spawned, this`signals, this`lives
      ensures Valid() && StuckKept(cfg, old(st[..]), st[..], old(spawned), spawned)
      ensures (forall i :: 0 <= i < |events| ==> !events[i].Control?) ==> FailedStay(old(st[..]), st[..])
      ensures forall v :: 0 <= v < st.Length && LeftAlone(events, v) ==>
        Tracked(old(st[..]), old(lives), st[..], lives, v)
    {
      hide StuckKept, Good, Tracked;
      ghost var was, log := st[..], lives;
      NobodySatisfied(cfg, st[..], st[..], spawned);
      QuietTracked(was, log, lives);
      var i := 0;
      while i < |events|
        invariant 0 <= i <= |events| && Valid()
        invariant StuckKept(cfg, was, st[..], old(spawned), spawned)
        invariant (forall j :: 0 <= j < i ==> !events[j].Control?) ==> FailedStay(was, st[..])
        invariant forall v :: 0 <= v < st.Length && LeftAlone(events, v) ==> Tracked(was, log, st[..], lives, v)
      {
        ghost var us, sp, mid := st[..], spawned, lives;
        Handle(events[i]);
        StuckKeptTrans(cfg, was, us, st[..], old(spawned), sp, spawned);
        forall v | 0 <= v < st.Length && LeftAlone(events, v)
          ensures Tracked(was, log, st[..], lives, v)
        {
          TrackedOn(was, log, us, mid, st[..], lives, v);
        }
        i := i + 1;
      }
    }
  }

  /** `d` is what a requires= name of service `u` resolves to. */
  ghost predicate Needs(cfg: seq<Config>, u: int, d: int) {
    IsService(cfg, u) && exists name :: name in cfg[u].needs && Find(cfg, name) == d
  }

  /** Signalling in decreasing start order signals dependents first. */
  lemma DependentsFirst(cfg: seq<Config>, us: seq<Unit>, counter: nat, order: seq<int>)
    requires Good(cfg, us, counter)
    requires DecreasingStarts(us, order) && forall i :: 0 <= i < |order| ==> Live(us[order[i]])
    ensures forall i, j :: 0 <= i < |order| && 0 <= j < |order| && Needs(cfg, order[i], order[j]) ==> i < j
  {
    forall i, j | 0 <= i < |order| && 0 <= j < |order| && Needs(cfg, order[i], order[j])
      ensures i < j
    {
      assert StartedAfter(cfg, us, order[i]);
      var name :| name in cfg[order[i]].needs && Find(cfg, name) == order[j];
      assert us[order[j]].seqNo < us[order[i]].seqNo;
    }
  }
}
