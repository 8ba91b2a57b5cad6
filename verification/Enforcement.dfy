/** enforce_dependencies of apps/init.c: an active unit whose requirement is not
    satisfied is failed. One pass is a single sweep over the table; repeated
    passes reach, within as many passes as there are units, the least set of
    failures that leaves no active unit with a lost requirement. */
module Enforcement {
  import opened Units
  import opened Counting

  /** unit_requires: `j`'s name is in the requires= list of `u`. */
  predicate Requires(cfg: seq<Config>, u: int, j: int) {
    0 <= u < |cfg| && 0 <= j < |cfg| && cfg[j].name in cfg[u].needs
  }

  predicate Lost(cfg: seq<Config>, us: seq<Unit>, u: int)
    requires |us| == |cfg|
  {
    exists j :: 0 <= j < |us| && Requires(cfg, u, j) && !Satisfied(us[j])
  }

  /** What happens to a unit that lost a requirement. */
  function Drop(v: Unit): (w: Unit)
    ensures !Active(w) && !Satisfied(w)
  {
    if v.pid > 0 then v.(dependencyFailed := true, nextStart := 0, stopping := true, state := Failed)
    else v.(dependencyFailed := false, nextStart := 0, state := Failed)
  }

  function EnforceOne(cfg: seq<Config>, us: seq<Unit>, i: nat): (r: seq<Unit>)
    requires |us| == |cfg| && i < |us|
    ensures |r| == |us|
  {
    if Active(us[i]) && Lost(cfg, us, i) then us[i := Drop(us[i])] else us
  }

  /** The first `n` units of one sweep. */
  function Sweep(cfg: seq<Config>, us: seq<Unit>, n: nat): (r: seq<Unit>)
    requires |us| == |cfg| && n <= |us|
    ensures |r| == |us|
  {
    if n == 0 then us else EnforceOne(cfg, Sweep(cfg, us, n - 1), n - 1)
  }

  /** `k` complete passes. */
  function Passes(cfg: seq<Config>, us: seq<Unit>, k: nat): (r: seq<Unit>)
    requires |us| == |cfg|
    ensures |r| == |us|
  {
    if k == 0 then us else var p := Passes(cfg, us, k - 1); Sweep(cfg, p, |p|)
  }

  /** A requires= chain of active units from `u` to a unit that is not
      satisfied. */
  ghost predicate Chain(cfg: seq<Config>, us: seq<Unit>, p: seq<int>)
    requires |us| == |cfg|
  {
    && |p| >= 2
    && (forall i :: 0 <= i < |p| ==> 0 <= p[i] < |cfg|)
    && (forall i, j :: 0 <= i && j == i + 1 < |p| ==> Requires(cfg, p[i], p[j]))
    && (forall i :: 0 <= i < |p| - 1 ==> Active(us[p[i]]))
    && !Satisfied(us[p[|p| - 1]])
  }

  ghost predicate Doomed(cfg: seq<Config>, us: seq<Unit>, u: int)
    requires |us| == |cfg|
  {
    exists p: seq<int> :: Chain(cfg, us, p) && p[0] == u
  }

  /** A stage of enforcement: some doomed units dropped, the rest as before. */
  ghost predicate Stage(cfg: seq<Config>, us: seq<Unit>, vs: seq<Unit>)
    requires |us| == |cfg|
  {
    && |vs| == |us|
    && forall u :: 0 <= u < |us| ==> vs[u] == us[u] || (Active(us[u]) && vs[u] == Drop(us[u]) && Doomed(cfg, us, u))
  }

  // ---- only doomed units are dropped ------------------------------------

  lemma LostIsDoomed(cfg: seq<Config>, us: seq<Unit>, vs: seq<Unit>, u: int)
    requires |us| == |cfg| && Stage(cfg, us, vs) && 0 <= u < |us|
    requires Active(us[u]) && Lost(cfg, vs, u)
    ensures Doomed(cfg, us, u)
  {
    var j :| 0 <= j < |vs| && Requires(cfg, u, j) && !Satisfied(vs[j]);
    if !Satisfied(us[j]) {
      assert Chain(cfg, us, [u, j]);
    } else {
      var p: seq<int> :| Chain(cfg, us, p) && p[0] == j;
      var q := [u] + p;
      assert Chain(cfg, us, q);
    }
  }

  lemma OneStage(cfg: seq<Config>, us: seq<Unit>, vs: seq<Unit>, i: nat)
    requires |us| == |cfg| && Stage(cfg, us, vs) && i < |us|
    ensures Stage(cfg, us, EnforceOne(cfg, vs, i))
  {
    if Active(vs[i]) && Lost(cfg, vs, i) {
      LostIsDoomed(cfg, us, vs, i);
    }
  }

  lemma {:induction false} SweepStage(cfg: seq<Config>, us: seq<Unit>, vs: seq<Unit>, n: nat)
    requires |us| == |cfg| && Stage(cfg, us, vs) && n <= |us|
    ensures Stage(cfg, us, Sweep(cfg, vs, n))
    decreases n
  {
    if n > 0 {
      SweepStage(cfg, us, vs, n - 1);
      OneStage(cfg, us, Sweep(cfg, vs, n - 1), n - 1);
    }
  }

  lemma {:induction false} PassesStage(cfg: seq<Config>, us: seq<Unit>, k: nat)
    requires |us| == |cfg|
    ensures Stage(cfg, us, Passes(cfg, us, k))
    decreases k
  {
    if k > 0 {
      PassesStage(cfg, us, k - 1);
      SweepStage(cfg, us, Passes(cfg, us, k - 1), |us|);
    }
  }

  // ---- the passes stabilise ---------------------------------------------

  function ActiveUnits(us: seq<Unit>): set<int> {
    set u | 0 <= u < |us| && Active(us[u])
  }

  /** A sweep that drops nobody finds nobody to drop. */
  lemma {:induction false} SweepProgress(cfg: seq<Config>, us: seq<Unit>, n: nat)
    requires |us| == |cfg| && n <= |us|
    ensures var vs := Sweep(cfg, us, n);
            && ActiveUnits(vs) <= ActiveUnits(us)
            && (vs == us || ActiveUnits(vs) < ActiveUnits(us))
            && (vs == us ==> forall u :: 0 <= u < n && Active(us[u]) ==> !Lost(cfg, us, u))
    decreases n
  {
    if n > 0 {
      SweepProgress(cfg, us, n - 1);
      var ws := Sweep(cfg, us, n - 1);
      var vs := Sweep(cfg, us, n);
      if vs != ws {
        assert n - 1 in ActiveUnits(ws) && n - 1 !in ActiveUnits(vs);
        assert ActiveUnits(vs) <= ActiveUnits(ws);
      }
    }
  }

  /** Nobody active has lost a requirement. */
  ghost predicate Settled(cfg: seq<Config>, us: seq<Unit>)
    requires |us| == |cfg|
  {
    forall u :: 0 <= u < |us| && Active(us[u]) ==> !Lost(cfg, us, u)
  }

  lemma {:induction false} SettledSweep(cfg: seq<Config>, us: seq<Unit>, n: nat)
    requires |us| == |cfg| && n <= |us| && Settled(cfg, us)
    ensures Sweep(cfg, us, n) == us
    decreases n
  {
    if n > 0 { SettledSweep(cfg, us, n - 1); }
  }

  lemma {:induction false} PassesCount(cfg: seq<Config>, us: seq<Unit>, k: nat)
    requires |us| == |cfg|
    ensures var vs := Passes(cfg, us, k); Settled(cfg, vs) || |ActiveUnits(vs)| + k <= |us|
    decreases k
  {
    if k == 0 {
      CountActive(us);
    } else {
      PassesCount(cfg, us, k - 1);
      var ws := Passes(cfg, us, k - 1);
      if Settled(cfg, ws) {
        SettledSweep(cfg, ws, |ws|);
      } else {
        SweepProgress(cfg, ws, |ws|);
        var vs := Passes(cfg, us, k);
        SubsetSize(ActiveUnits(vs), ActiveUnits(ws));
      }
    }
  }

  lemma {:induction false} CountActive(us: seq<Unit>)
    ensures |ActiveUnits(us)| <= |us|
    decreases |us|
  {
    if us == [] {
      assert ActiveUnits(us) == {};
    } else {
      var vs := us[..|us| - 1];
      CountActive(vs);
      assert ActiveUnits(us) <= ActiveUnits(vs) + {|us| - 1};
      SubsetSize(ActiveUnits(us), ActiveUnits(vs) + {|us| - 1});
    }
  }

  /** As many passes as there are units are enough. */
  lemma Stabilises(cfg: seq<Config>, us: seq<Unit>, k: nat)
    requires |us| == |cfg| && |us| <= k
    ensures Settled(cfg, Passes(cfg, us, k))
    ensures Passes(cfg, us, k + 1) == Passes(cfg, us, k)
  {
    var vs := Passes(cfg, us, k);
    PassesCount(cfg, us, k);
    assert forall u :: 0 <= u < |vs| && Active(vs[u]) ==> u in ActiveUnits(vs);
    SettledSweep(cfg, vs, |vs|);
  }

  // ---- every doomed unit is dropped -------------------------------------

  lemma {:induction false} ChainDropped(cfg: seq<Config>, us: seq<Unit>, vs: seq<Unit>, p: seq<int>)
    requires |us| == |cfg| && Stage(cfg, us, vs) && Settled(cfg, vs) && Chain(cfg, us, p)
    ensures vs[p[0]] == Drop(us[p[0]])
    decreases |p|
  {
    var j := p[1];
    assert !Satisfied(vs[j]) by {
      if |p| > 2 {
        var q := p[1..];
        forall a, b | 0 <= a && b == a + 1 < |q|
          ensures Requires(cfg, q[a], q[b])
        {
          assert Requires(cfg, p[a + 1], p[b + 1]);
        }
        ChainDropped(cfg, us, vs, q);
      }
    }
    assert Requires(cfg, p[0], j);
    assert Lost(cfg, vs, p[0]);
  }

  /** After enough passes no active unit has a lost requirement, and the units
      that were dropped are exactly those at the head of a chain of active units
      ending in an unsatisfied one; all others are untouched. */
  lemma EnforcementIsExact(cfg: seq<Config>, us: seq<Unit>, k: nat, u: int)
    requires |us| == |cfg| && |us| <= k && 0 <= u < |us|
    ensures Settled(cfg, Passes(cfg, us, k))
    ensures Passes(cfg, us, k)[u] == if Doomed(cfg, us, u) then Drop(us[u]) else us[u]
  {
    var vs := Passes(cfg, us, k);
    Stabilises(cfg, us, k);
    PassesStage(cfg, us, k);
    if Doomed(cfg, us, u) {
      var p: seq<int> :| Chain(cfg, us, p) && p[0] == u;
      ChainDropped(cfg, us, vs, p);
    }
  }
}
