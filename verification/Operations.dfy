/** What an operator sees of the supervisor of apps/init.c: commands together with
    the ticks that follow them. */
module Operations {
  import opened Units
  import opened Enforcement
  import opened Supervisor

  /** What an attempt to start a process leads to. A unit runs as that process if it
      does not have to report ready or does, and otherwise has failed without one. */
  lemma Attempt(v: Unit, ready: bool, o: Spawn, s: nat)
    ensures var w := SpawnUnit(v, ready, o, s);
            && !w.stopping && !w.restartPending && !w.dependencyFailed && w.nextStart == 0 && SameWindow(v, w)
            && (w.state == Disabled <==> !v.enabled)
            && (w.state == Running <==> v.enabled && o.Spawned? && (!ready || o.readiness.BecameReady?))
            && (w.state == Running || w.state == Failed || w.state == Disabled)
            && (w.state == Running ==> w.pid == o.pid && w.startMs == o.now)
            && (w.state == Failed && o.Spawned? ==> w.pid == 0 && w.exitCode == o.readiness.code)
            && (!v.enabled || !o.Spawned? ==> w.pid == v.pid && w.seqNo == v.seqNo)
            && (v.enabled && o.Spawned? ==> w.seqNo == if v.seqNo == 0 then s else v.seqNo)
  {
  }

  /** A running unit that is told to stop and then dies is stopped, and stays so through
      the restarts that are due, unless another unit that requires it is restarted.
      `mid` is the table after the death. */
  method StopStays(s: Supervisor, u: nat, deaths: nat -> Death, now: nat) returns (ghost mid: seq<Unit>)
    requires s.Valid() && u < s.st.Length && s.st[u].state == Running && s.st[u].pid > 0 && s.st[u].enabled
    requires deaths(u).Died?
    modifies s, s.st
    ensures s.Valid() && |mid| == s.st.Length && s.signals == old(s.signals) + [u]
    ensures s.st[u].state == Stopped || exists w ::
      && w in Pending(old(s.st[..])) + DueAt(mid, now) && w != u && PullsIn(s.cfg, w, u)
  {
    hide StuckKept, Good, PullsIn, FailedStay, Tracked, Supervisor.OthersUndisturbed, StartKeeps;
    ghost var was := s.st[..];
    s.Command(Stop, u);
    ghost var told := s.st[..];
    assert told == was[u := ToldToStop(was[u])];
    s.ReapChildren(deaths);
    mid := s.st[..];
    s.RunBackoff(now);
    if !PulledBy(s.cfg, Pending(told), u) {
      assert mid[u].state == Stopped;
      assert u !in DueAt(mid, now);
      if !PulledBy(s.cfg, DueAt(mid, now), u) {
        assert s.st[..][u] == mid[u];
      }
    } else {
      var w :| w in Pending(told) && PullsIn(s.cfg, w, u);
      assert w != u && w in Pending(was);
    }
  }

  /** A unit that is not up is stopped at once, and a restart that was due is off. */
  method StopIdle(s: Supervisor, u: nat, now: nat)
    requires s.Valid() && u < s.st.Length && !Up(s.st[u])
    modifies s, s.st
    ensures s.Valid() && s.signals == old(s.signals)
    ensures s.st[u].state == Stopped || exists w :: w in DueAt(old(s.st[..]), now) && w != u && PullsIn(s.cfg, w, u)
  {
    hide StuckKept, Good, PullsIn, FailedStay, Tracked, Supervisor.OthersUndisturbed, StartKeeps;
    ghost var was := s.st[..];
    s.Command(Stop, u);
    ghost var told := s.st[..];
    assert told == was[u := ToldToStop(was[u])];
    s.RunBackoff(now);
    if !PulledBy(s.cfg, DueAt(told, now), u) {
      assert s.st[..][u] == told[u];
    } else {
      var w :| w in DueAt(told, now) && PullsIn(s.cfg, w, u);
      assert w != u && w in DueAt(was, now);
    }
  }

  /** A running unit that is told to restart and then dies runs again, as a new process
      with a clean record, if its requirements are met and processes start. */
  method RestartReturns(s: Supervisor, u: nat, code: int, now: nat) returns (ghost k: nat)
    requires s.Valid() && u < s.st.Length == |s.cfg| && s.st[u].state == Running && s.st[u].pid > 0
    requires !s.st[u].guard && AllMet(s.cfg, s.st[..], u) && AllStart(s.world)
    modifies s, s.st
    ensures s.Valid() && s.signals == old(s.signals) + [u]
    ensures s.st[u].state == Running && s.st[u].pid == s.world(k).pid && s.st[u].startMs == s.world(k).now
    ensures s.st[u].fails == 0 && s.st[u].backoff == 0 && !s.st[u].winOpen && !s.st[u].stopping
    ensures forall v :: 0 <= v < s.st.Length && v != u ==> s.st[v] == old(s.st[v])
  {
    hide StuckKept, Good, FailedStay, Supervisor.OthersUndisturbed, StartKeeps, AllMet, Bury;
    ghost var was := s.st[..];
    s.Command(Restart, u);
    ghost var told := s.st[..];
    assert told == was[u := was[u].(enabled := true, restartPending := true, stopping := true)];
    MetAnyway(s.cfg, was, u, told[u]);
    MetAnyway(s.cfg, told, u, Gone(told[u], code));
    k := s.attempts;
    s.UnitDied(u, code, now);
  }

  /** If the new process does not start, the unit has failed and is not tried again. */
  method RestartFails(s: Supervisor, u: nat, code: int, now: nat)
    requires s.Valid() && u < s.st.Length == |s.cfg| && s.st[u].state == Running && s.st[u].pid > 0
    requires !s.st[u].guard && AllMet(s.cfg, s.st[..], u) && forall k :: !s.world(k).Spawned?
    modifies s, s.st
    ensures s.Valid() && s.st[u].state == Failed && s.st[u].pid == 0 && s.st[u].exitCode == code
    ensures !s.st[u].restartPending && !s.st[u].stopping
  {
    hide StuckKept, Good, FailedStay, Supervisor.OthersUndisturbed, StartKeeps, AllMet, Bury;
    ghost var was := s.st[..];
    s.Command(Restart, u);
    ghost var told := s.st[..];
    assert told == was[u := was[u].(enabled := true, restartPending := true, stopping := true)];
    MetAnyway(s.cfg, was, u, told[u]);
    MetAnyway(s.cfg, told, u, Gone(told[u], code));
    s.UnitDied(u, code, now);
  }

  /** A unit that requires something unknown cannot be started; the attempt leaves no
      restart pending. */
  method StartFails(s: Supervisor, u: nat, name: string)
    requires s.Valid() && u < s.st.Length == |s.cfg| && s.cfg[u].kind == Service && name in s.cfg[u].needs
    requires Find(s.cfg, name) < 0 && !Up(s.st[u]) && !s.st[u].guard
    modifies s, s.st
    ensures s.Valid() && s.st[u].state == Failed && !s.st[u].restartPending && s.st[u].enabled
  {
    hide StuckKept, Good, Supervisor.OthersUndisturbed, CanStart, Find;
    s.Command(Start, u);
    assert !AllMet(s.cfg, s.st[..], u);
  }

  /** Clearing a failure changes nothing but that. */
  method ResetClears(s: Supervisor, u: nat)
    requires s.Valid() && u < s.st.Length
    modifies s, s.st
    ensures s.Valid() && s.signals == old(s.signals)
    ensures s.st[u].fails == 0 && s.st[u].backoff == 0 && !s.st[u].winOpen && s.st[u].pid == old(s.st[u]).pid
    ensures s.st[u].state == if old(s.st[u]).state != Failed then old(s.st[u]).state
                             else if old(s.st[u]).enabled then Stopped else Disabled
    ensures forall v :: 0 <= v < s.st.Length && v != u ==> s.st[v] == old(s.st[v])
  {
    hide StuckKept, Good, Supervisor.OthersUndisturbed;
    ghost var was := s.st[..];
    s.Command(ResetFailed, u);
    assert s.st[..] == was[u := ResetUnit(was[u])];
  }

  /** Clearing a failure lets the unit be started by hand, and starts nothing. */
  method ResetThenStart(s: Supervisor, u: nat)
    requires s.Valid() && u < s.st.Length == |s.cfg| && s.st[u].state == Failed && s.st[u].enabled
    requires !s.st[u].guard && AllMet(s.cfg, s.st[..], u) && AllStart(s.world)
    modifies s, s.st
    ensures s.Valid()
    ensures s.st[u].state == Running && s.st[u].fails == 0 && !s.st[u].winOpen
    ensures forall v :: 0 <= v < s.st.Length && v != u ==> s.st[v] == old(s.st[v])
  {
    hide StuckKept, Good, FailedStay, Supervisor.OthersUndisturbed, StartKeeps, AllMet;
    ghost var was := s.st[..];
    s.Command(ResetFailed, u);
    ghost var reset := s.st[..];
    assert reset == was[u := ResetUnit(was[u])];
    assert reset[u].state == Stopped;
    MetAnyway(s.cfg, was, u, reset[u]);
    MetAnyway(s.cfg, reset, u, Rearmed(Start, reset[u]));
    s.Command(Start, u);
  }

  /** A running unit that requires a failed one is told to stop, and its death leaves it
      failed, unless a unit with a restart pending requires it. */
  method RequirementLost(s: Supervisor, u: nat, d: nat, deaths: nat -> Death)
    requires s.Valid() && u < s.st.Length == |s.cfg| && d < s.st.Length && u != d
    requires s.st[u].state == Running && s.st[u].pid > 0 && !s.st[u].restartPending && deaths(u).Died?
    requires s.st[d].state == Failed && s.st[d].pid <= 0 && s.cfg[d].name in s.cfg[u].needs
    modifies s, s.st
    ensures s.Valid()
    ensures (s.st[u].state == Failed && s.st[u].pid == 0) || PulledBy(s.cfg, Pending(old(s.st[..])), u)
    ensures old(s.signals) <= s.signals && u in s.signals[|old(s.signals)|..]
  {
    hide StuckKept, Good, PullsIn, PulledBy, Tracked, Bury;
    ghost var was := s.st[..];
    s.EnforceDependencies();
    ghost var told, sent := s.st[..], s.signals;
    DroppedUnit(s.cfg, was, u, d);
    FewerPending(s.cfg, was, told, u);
    s.Backoffs();
    s.ReapChildren(deaths);
    if !PulledBy(s.cfg, Pending(told), u) {
      DropThenDies(told[u], deaths(u).code, deaths(u).now);
    }
  }

  /** One that waits to be restarted has failed at once, and no signal is sent. */
  method WaitingLost(s: Supervisor, u: nat, d: nat)
    requires s.Valid() && u < s.st.Length == |s.cfg| && d < s.st.Length && u != d
    requires s.st[u].state == Waiting && s.st[u].pid <= 0 && s.st[d].state == Failed
    requires s.cfg[d].name in s.cfg[u].needs
    modifies s, s.st
    ensures s.Valid() && s.st[u].state == Failed && s.st[u].nextStart == 0 && !s.st[u].dependencyFailed
    ensures old(s.signals) <= s.signals && u !in s.signals[|old(s.signals)|..]
  {
    hide StuckKept, Good;
    ghost var was := s.st[..];
    s.EnforceDependencies();
    DroppedUnit(s.cfg, was, u, d);
  }

  lemma DropThenDies(v: Unit, code: int, now: nat)
    requires v.backoff < 4 && v.stopping && v.dependencyFailed
    ensures Bury(v, code, now).state == Failed && Bury(v, code, now).pid == 0
  {
  }

  lemma FewerPending(cfg: seq<Config>, us: seq<Unit>, vs: seq<Unit>, u: int)
    requires |us| == |vs| && forall v :: 0 <= v < |us| ==> Undisturbed(us[v], vs[v])
    ensures PulledBy(cfg, Pending(vs), u) ==> PulledBy(cfg, Pending(us), u)
  {
    hide PullsIn;
  }

  lemma {:induction false} DroppedUnit(cfg: seq<Config>, us: seq<Unit>, u: nat, d: nat)
    requires |us| == |cfg| && u < |us| && d < |us| && u != d && (us[u].state == Running || us[u].state == Waiting)
    requires us[d].state == Failed && cfg[d].name in cfg[u].needs
    ensures var v := Sweep(cfg, us, |us|)[u];
            && v != us[u] && v.state == Failed && v.nextStart == 0 && v.pid == us[u].pid && v.backoff == us[u].backoff
            && (if v.pid > 0 then v.stopping && v.dependencyFailed else !v.dependencyFailed)
  {
    SweepUntil(cfg, us, u, u);
    SweepUntil(cfg, us, u, d);
    assert Requires(cfg, u, d);
    assert Lost(cfg, Sweep(cfg, us, u), u);
    SweepAfter(cfg, us, u, |us|);
  }

  /** A failed unit, or one whose turn has not come, is as it was. */
  lemma {:induction false} SweepUntil(cfg: seq<Config>, us: seq<Unit>, n: nat, v: nat)
    requires |us| == |cfg| && v < |us| && n <= |us| && (n <= v || us[v].state == Failed)
    ensures Sweep(cfg, us, n)[v] == us[v]
    decreases n
  {
    hide Lost;
    if n > 0 { SweepUntil(cfg, us, n - 1, v); }
  }

  lemma {:induction false} SweepAfter(cfg: seq<Config>, us: seq<Unit>, v: nat, n: nat)
    requires |us| == |cfg| && v < n <= |us|
    ensures Sweep(cfg, us, n)[v] == Sweep(cfg, us, v + 1)[v]
    decreases n
  {
    hide Lost;
    if n > v + 1 { SweepAfter(cfg, us, v, n - 1); }
  }

  /** A requirement that ran once and exited well is left alone when a unit that needs
      it is started. */
  method OneshotServes(s: Supervisor, u: nat, d: nat, name: string)
    requires s.Valid() && u < s.st.Length == |s.cfg| && d < s.st.Length && u != d && !Up(s.st[u])
    requires s.cfg[u].kind == Service && s.cfg[d].kind == Service && s.cfg[u].needs == [name] && Find(s.cfg, name) == d
    requires s.st[d].state == Exited && s.st[d].exitCode == 0 && s.st[d].respawn == Never
    requires !s.st[u].guard && AllStart(s.world)
    modifies s, s.st
    ensures s.Valid() && s.st[u].state == Running
    ensures forall v :: 0 <= v < s.st.Length && v != u ==> s.st[v] == old(s.st[v])
  {
    hide StuckKept, Good, StartKeeps, Supervisor.OthersUndisturbed, CanStart, Find;
    ghost var ready := s.st[..][u := Rearmed(Start, s.st[u])];
    assert AllMet(s.cfg, ready, u);
    s.Command(Start, u);
  }

  /** Starting a unit pulls in a disabled unit that it requires. */
  method PullsDisabledIn(s: Supervisor, u: nat, d: nat, name: string)
    requires s.Valid() && u < s.st.Length == |s.cfg| && d < s.st.Length && u != d && !Up(s.st[u])
    requires s.cfg[u].kind == Service && s.cfg[d].kind == Service && s.cfg[u].needs == [name]
    requires s.cfg[d].needs == [] && Find(s.cfg, name) == d && s.st[d].state == Disabled
    requires s.st[u].state != Failed && AllStart(s.world) && NoGuards(s.st[..])
    modifies s, s.st
    ensures s.Valid() && s.st[u].state == Running && s.st[d].state == Running
  {
    hide StuckKept, Good, Supervisor.OthersUndisturbed, CanStart, Find;
    ghost var ready := s.st[..][u := Rearmed(Start, s.st[u])];
    PairCanStart(s.cfg, s.world, ready, u, d, name);
    s.Command(Start, u);
    assert name in s.cfg[u].needs && AllMet(s.cfg, s.st[..], u);
    assert s.st[..][d] != ready[d];
  }

  lemma PairCanStart(cfg: seq<Config>, world: nat -> Spawn, us: seq<Unit>, u: nat, d: nat, name: string)
    requires u < |us| == |cfg| && d < |us| && u != d && cfg[u].kind == Service && cfg[d].kind == Service
    requires cfg[u].needs == [name] && cfg[d].needs == [] && Find(cfg, name) == d
    requires us[u].enabled && us[u].state != Failed && us[d].state == Disabled && AllStart(world) && NoGuards(us)
    ensures CanStart(cfg, world, us, u)
  {
    hide Find;
    var plan := Plan({u, d}, (x: int) => if x == u then 1 else 0);
    assert Leads(cfg, plan, u, name);
    assert Chosen(cfg, world, plan, us, u);
  }
}
