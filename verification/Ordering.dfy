/** order_services of apps/init.c: a fixpoint numbering of the services in which
    after= and requires= targets come first, and the services it cannot place are
    exactly those from which a dependency cycle can be reached. */
module Ordering {
  import opened Units
  import opened Counting

  /** `d` is a dependency that orders `u`: it must be placed first. */
  predicate Edge(cfg: seq<Config>, u: int, d: int) {
    && IsService(cfg, u) && IsService(cfg, d) && d != u
    && exists name :: name in cfg[u].after + cfg[u].needs && Find(cfg, name) == d
  }

  /** A requires= name that is not another service. */
  predicate MissingNeed(cfg: seq<Config>, u: int)
    requires 0 <= u < |cfg|
  {
    exists name :: name in cfg[u].needs && !Resolves(cfg, u, name)
  }

  ghost function Edges(cfg: seq<Config>): (int, int) -> bool {
    (u: int, d: int) => Edge(cfg, u, d)
  }

  /** Some dependency path from `u` visits a service twice. */
  ghost predicate ReachesCycle(cfg: seq<Config>, u: int) {
    Counting.ReachesCycle(Edges(cfg), u)
  }

  // ---- the algorithm ----------------------------------------------------

  /** The numbering so far: `perm[o]` is the service with number `o`. */
  ghost predicate Numbered(cfg: seq<Config>, st: seq<Unit>, perm: seq<int>)
  {
    && |st| == |cfg|
    && (forall o :: 0 <= o < |perm| ==> IsService(cfg, perm[o]) && st[perm[o]].order == o)
    && (forall u :: IsService(cfg, u) ==> -1 <= st[u].order < |perm|)
    && (forall u :: IsService(cfg, u) && st[u].order >= 0 ==> perm[st[u].order] == u)
  }

  /** Every service numbered below `m` comes after all its dependencies. */
  ghost predicate DepsFirst(cfg: seq<Config>, st: seq<Unit>, m: nat)
    requires |st| == |cfg|
  {
    forall u, d :: 0 <= u < |st| && 0 <= d < |st| && Edge(cfg, u, d) && 0 <= st[u].order < m ==>
      0 <= st[d].order < st[u].order
  }

  /** `v` differs from `w` in state and order number only. */
  predicate SameButOrder(v: Unit, w: Unit) {
    v == w.(state := v.state, order := v.order)
  }

  /** If `name` stands for another service, that service has a number. */
  ghost predicate Placed(cfg: seq<Config>, st: seq<Unit>, u: int, name: string)
    requires |st| == |cfg|
  {
    Resolves(cfg, u, name) ==> st[Find(cfg, name)].order >= 0
  }

  ghost predicate AllPlaced(cfg: seq<Config>, st: seq<Unit>, u: int, names: seq<string>)
    requires |st| == |cfg|
  {
    forall name :: name in names ==> Placed(cfg, st, u, name)
  }

  lemma PlacedAnyState(cfg: seq<Config>, st: seq<Unit>, u: int, x: State, name: string)
    requires |st| == |cfg| && 0 <= u < |st|
    ensures Placed(cfg, st[u := st[u].(state := x)], u, name) <==> Placed(cfg, st, u, name)
  {
  }

  lemma PlacedSame(cfg: seq<Config>, a: seq<Unit>, b: seq<Unit>, u: int, names: seq<string>)
    requires |a| == |b| == |cfg| && forall v :: 0 <= v < |a| ==> a[v].order == b[v].order
    ensures AllPlaced(cfg, a, u, names) <==> AllPlaced(cfg, b, u, names)
  {
  }

  method DepsPlaced(cfg: seq<Config>, st: array<Unit>, u: int, required: bool) returns (ok: bool)
    requires st.Length == |cfg| && IsService(cfg, u)
    modifies st
    ensures forall v :: 0 <= v < st.Length && v != u ==> st[v] == old(st[v])
    ensures st[u] == old(st[u]).(state := st[u].state)
    ensures st[u].state == old(st[u].state) || (required && st[u].state == Failed && MissingNeed(cfg, u))
    ensures ok <==> AllPlaced(cfg, st[..], u, if required then cfg[u].needs else cfg[u].after)
    ensures ok && required && MissingNeed(cfg, u) ==> st[u].state == Failed
  {
    hide Resolves, Placed;
    ghost var missing;
    ok, missing := ScanDeps(cfg, st, u, if required then cfg[u].needs else cfg[u].after, required);
    PlacedSame(cfg, old(st[..]), st[..], u, if required then cfg[u].needs else cfg[u].after);
  }

  /** The loop over one list of names. */
  method ScanDeps(cfg: seq<Config>, st: array<Unit>, u: int, names: seq<string>, required: bool)
    returns (ok: bool, ghost missing: bool)
    requires st.Length == |cfg| && IsService(cfg, u)
    modifies st
    ensures st[..] == old(st[..])[u := old(st[u]).(state := if missing then Failed else old(st[u]).state)]
    ensures ok <==> AllPlaced(cfg, old(st[..]), u, names)
    ensures missing ==> required && exists name :: name in names && !Resolves(cfg, u, name)
    ensures ok && required ==> (missing <==> exists name :: name in names && !Resolves(cfg, u, name))
  {
    hide Resolves, Placed;
    ghost var was := st[..];
    var i := 0;
    missing := false;
    while i < |names|
      invariant 0 <= i <= |names|
      invariant st[..] == was[u := was[u].(state := if missing then Failed else was[u].state)]
      invariant missing <==> required && exists j :: 0 <= j < i && !Resolves(cfg, u, names[j])
      invariant forall j :: 0 <= j < i ==> Placed(cfg, was, u, names[j])
    {
      PlacedAnyState(cfg, was, u, st[u].state, names[i]);
      ok := DepPlaced(cfg, st, u, names[i], required);
      missing := missing || (required && !Resolves(cfg, u, names[i]));
      if !ok {
        return;
      }
      i := i + 1;
    }
    ok := true;
  }

  /** One name; a requirement that stands for nothing fails the unit. */
  method DepPlaced(cfg: seq<Config>, st: array<Unit>, u: int, name: string, required: bool) returns (ok: bool)
    requires st.Length == |cfg| && IsService(cfg, u)
    modifies st
    ensures ok <==> Placed(cfg, old(st[..]), u, name)
    ensures st[..] == if required && !Resolves(cfg, u, name) then old(st[..])[u := old(st[u]).(state := Failed)]
                      else old(st[..])
  {
    var d := FindUnit(cfg, name);
    if d == u || d < 0 || cfg[d].kind != Service {
      if required {
        st[u] := st[u].(state := Failed);
      }
      return true;
    }
    return st[d].order >= 0;
  }

  /** Some dependency of `u` has no number yet. */
  ghost predicate Blocked(cfg: seq<Config>, st: seq<Unit>, u: int)
    requires |st| == |cfg|
  {
    exists d :: 0 <= d < |st| && Edge(cfg, u, d) && st[d].order < 0
  }

  /** What ordering may do to the state of `u`. */
  ghost predicate StateKept(cfg: seq<Config>, was: seq<Unit>, st: seq<Unit>, u: int)
    requires |was| == |st| == |cfg| && 0 <= u < |cfg|
  {
    && SameButOrder(st[u], was[u])
    && (st[u].state == was[u].state || (st[u].state == Failed && MissingNeed(cfg, u)))
    && (st[u].order >= 0 && MissingNeed(cfg, u) ==> st[u].state == Failed)
  }

  /** Blocked, in terms of the names written in the unit file. */
  lemma BlockedNames(cfg: seq<Config>, st: seq<Unit>, u: int)
    requires |st| == |cfg| && IsService(cfg, u)
    ensures Blocked(cfg, st, u) <==> !AllPlaced(cfg, st, u, cfg[u].after) || !AllPlaced(cfg, st, u, cfg[u].needs)
  {
    if Blocked(cfg, st, u) {
      var d :| 0 <= d < |st| && Edge(cfg, u, d) && st[d].order < 0;
      var name :| name in cfg[u].after + cfg[u].needs && Find(cfg, name) == d;
      assert Resolves(cfg, u, name);
    }
    if name :| name in cfg[u].after + cfg[u].needs && Resolves(cfg, u, name) && st[Find(cfg, name)].order < 0 {
      assert Edge(cfg, u, Find(cfg, name));
    }
  }

  method TryPlace(cfg: seq<Config>, st: array<Unit>, u: int, placed: nat, ghost was: seq<Unit>) returns (ok: bool)
    requires st.Length == |cfg| && IsService(cfg, u) && st[u].order < 0
    requires |was| == |cfg| && StateKept(cfg, was, st[..], u)
    modifies st
    ensures forall v :: 0 <= v < st.Length && v != u ==> st[v] == old(st[v])
    ensures st[u].order == if ok then placed else old(st[u].order)
    ensures StateKept(cfg, was, st[..], u)
    ensures ok <==> !Blocked(cfg, old(st[..]), u)
  {
    hide Edge, Blocked, MissingNeed, AllPlaced;
    ghost var st0 := st[..];
    BlockedNames(cfg, st0, u);
    ok := DepsPlaced(cfg, st, u, false);
    PlacedSame(cfg, st0, st[..], u, cfg[u].after);
    if ok {
      ok := DepsPlaced(cfg, st, u, true);
      PlacedSame(cfg, st0, st[..], u, cfg[u].needs);
    }
    if ok {
      st[u] := st[u].(order := placed);
    }
  }

  /** Everything known while services are being numbered. */
  ghost predicate Placing(cfg: seq<Config>, was: seq<Unit>, st: seq<Unit>, perm: seq<int>, m: nat) {
    && |was| == |cfg| && Numbered(cfg, st, perm) && m <= |perm| && DepsFirst(cfg, st, m)
    && NonServicesKept(cfg, was, st)
  }

  /** A numbering never repeats a service, so it ends. */
  lemma PermBounded(cfg: seq<Config>, st: seq<Unit>, perm: seq<int>)
    requires Numbered(cfg, st, perm)
    ensures |perm| <= |cfg|
  {
    Pigeonhole(perm, Below(|cfg|));
  }

  /** Giving an unblocked service the next number keeps dependencies first. */
  lemma Extend(cfg: seq<Config>, was: seq<Unit>, st: seq<Unit>, perm: seq<int>, u: int, st': seq<Unit>)
    requires Placing(cfg, was, st, perm, |perm|) && IsService(cfg, u) && st[u].order < 0
    requires |st'| == |st| && !Blocked(cfg, st, u) && st'[u].order == |perm|
    requires forall v :: 0 <= v < |st| && v != u ==> st'[v] == st[v]
    ensures Placing(cfg, was, st', perm + [u], |perm| + 1)
  {
    forall v, d | 0 <= v < |st| && 0 <= d < |st| && Edge(cfg, v, d) && 0 <= st'[v].order < |perm| + 1
      ensures 0 <= st'[d].order < st'[v].order
    {
      if v == u {
        assert st[d].order >= 0;
      } else {
        assert 0 <= st[d].order < st[v].order;
      }
    }
  }

  /** The fixpoint: place what can be placed until nothing changes. */
  method PlaceAll(cfg: seq<Config>, st: array<Unit>, ghost was: seq<Unit>) returns (placed: nat, ghost perm: seq<int>)
    requires st.Length == |cfg| && Placing(cfg, was, st[..], [], 0)
    requires forall u :: IsService(cfg, u) ==> StateKept(cfg, was, st[..], u)
    modifies st
    ensures placed == |perm| && Placing(cfg, was, st[..], perm, placed)
    ensures forall u :: IsService(cfg, u) ==> StateKept(cfg, was, st[..], u)
    ensures forall u :: IsService(cfg, u) && st[u].order < 0 ==> Blocked(cfg, st[..], u)
  {
    placed, perm := 0, [];
    var changed := true;
    while changed
      invariant placed == |perm| && Placing(cfg, was, st[..], perm, placed)
      invariant forall u :: IsService(cfg, u) ==> StateKept(cfg, was, st[..], u)
      invariant !changed ==> forall u :: IsService(cfg, u) && st[u].order < 0 ==> Blocked(cfg, st[..], u)
      decreases |cfg| - |perm|, changed
    {
      ghost var before := placed;
      placed, changed, perm := PlacePass(cfg, st, was, placed, perm);
      PermBounded(cfg, st[..], perm);
    }
  }

  method PlacePass(cfg: seq<Config>, st: array<Unit>, ghost was: seq<Unit>, placed0: nat, ghost perm0: seq<int>)
    returns (placed: nat, changed: bool, ghost perm: seq<int>)
    requires st.Length == |cfg| && placed0 == |perm0| && Placing(cfg, was, st[..], perm0, placed0)
    requires forall u :: IsService(cfg, u) ==> StateKept(cfg, was, st[..], u)
    modifies st
    ensures placed == |perm| && Placing(cfg, was, st[..], perm, placed)
    ensures forall u :: IsService(cfg, u) ==> StateKept(cfg, was, st[..], u)
    ensures if changed then placed > placed0 else placed == placed0
    ensures !changed ==> forall u :: IsService(cfg, u) && st[u].order < 0 ==> Blocked(cfg, st[..], u)
  {
    hide Edge, MissingNeed;
    placed, changed, perm := placed0, false, perm0;
    var i := 0;
    while i < st.Length
      invariant 0 <= i <= st.Length
      invariant placed == |perm| && Placing(cfg, was, st[..], perm, placed)
      invariant forall u :: IsService(cfg, u) ==> StateKept(cfg, was, st[..], u)
      invariant if changed then placed > placed0 else placed == placed0
      invariant !changed ==> forall u :: 0 <= u < i && IsService(cfg, u) && st[u].order < 0 ==>
                                           Blocked(cfg, st[..], u)
    {
      if cfg[i].kind == Service && st[i].order < 0 {
        ghost var before := st[..];
        var ok := TryPlace(cfg, st, i, placed, was);
        if ok {
          Extend(cfg, was, before, perm, i, st[..]);
          placed, changed, perm := placed + 1, true, perm + [i];
        } else {
          SameOrders(cfg, before, st[..]);
        }
      }
      i := i + 1;
    }
  }

  ghost predicate NonServicesKept(cfg: seq<Config>, was: seq<Unit>, st: seq<Unit>)
    requires |was| == |st| == |cfg|
  {
    forall u :: 0 <= u < |cfg| && !IsService(cfg, u) ==> st[u] == was[u]
  }

  /** Being blocked depends on the numbers alone. */
  lemma SameOrders(cfg: seq<Config>, st: seq<Unit>, st': seq<Unit>)
    requires |st| == |st'| == |cfg| && forall v :: 0 <= v < |cfg| ==> st'[v].order == st[v].order
    ensures forall u: int :: Blocked(cfg, st, u) ==> Blocked(cfg, st', u)
    ensures forall was: seq<Unit>, perm: seq<int>, m: nat ::
      Placing(cfg, was, st, perm, m) && NonServicesKept(cfg, st, st') ==> Placing(cfg, was, st', perm, m)
  {
    hide Edge;
    forall u: int | Blocked(cfg, st, u)
      ensures Blocked(cfg, st', u)
    {
      var d :| 0 <= d < |st| && Edge(cfg, u, d) && st[d].order < 0;
      assert st'[d].order < 0;
    }
  }

  /** At the fixpoint the unnumbered services are those that reach a cycle. */
  lemma UnplacedReachCycles(cfg: seq<Config>, was: seq<Unit>, st: seq<Unit>, perm: seq<int>, u: int)
    requires Placing(cfg, was, st, perm, |perm|) && IsService(cfg, u)
    requires forall v :: IsService(cfg, v) && st[v].order < 0 ==> Blocked(cfg, st, v)
    ensures st[u].order < 0 <==> ReachesCycle(cfg, u)
  {
    hide Edge, Blocked, HasNext, ReachesCycle;
    var stuck := set v | 0 <= v < |cfg| && IsService(cfg, v) && st[v].order < 0;
    if u in stuck {
      forall v | v in stuck
        ensures HasNext(Edges(cfg), stuck, v)
      {
        BlockedInside(cfg, st, stuck, v);
      }
      StuckInCycle(cfg, stuck, u);
    } else {
      PlacedIsAcyclic(cfg, st, |perm|, u);
    }
  }

  lemma StuckInCycle(cfg: seq<Config>, stuck: set<int>, u: int)
    requires (forall v :: v in stuck ==> HasNext(Edges(cfg), stuck, v)) && u in stuck
    ensures ReachesCycle(cfg, u)
  {
    hide HasNext, Edge;
    var edge := Edges(cfg);
    forall v | v in stuck
      ensures HasNext(edge, stuck, v)
    {
      assert HasNext(Edges(cfg), stuck, v);
    }
    StuckReachesCycle(edge, stuck, u);
  }

  lemma BlockedInside(cfg: seq<Config>, st: seq<Unit>, stuck: set<int>, v: int)
    requires |st| == |cfg| && Blocked(cfg, st, v)
    requires forall d :: 0 <= d < |cfg| && IsService(cfg, d) && st[d].order < 0 ==> d in stuck
    ensures HasNext(Edges(cfg), stuck, v)
  {
    var d :| 0 <= d < |st| && Edge(cfg, v, d) && st[d].order < 0;
    assert d in stuck && Edges(cfg)(v, d);
  }

  lemma PlacedIsAcyclic(cfg: seq<Config>, st: seq<Unit>, m: nat, u: int)
    requires |st| == |cfg| && DepsFirst(cfg, st, m) && IsService(cfg, u)
    requires forall v :: IsService(cfg, v) ==> st[v].order < m
    requires st[u].order >= 0
    ensures !ReachesCycle(cfg, u)
  {
    var rank := map v | 0 <= v < |cfg| && IsService(cfg, v) && st[v].order >= 0 :: st[v].order;
    assert Descends(Edges(cfg), rank);
    RankedIsAcyclic(Edges(cfg), rank, u);
  }

  /** Reset every service's number. */
  method ClearOrder(cfg: seq<Config>, st: array<Unit>)
    requires st.Length == |cfg|
    modifies st
    ensures forall u :: 0 <= u < |cfg| ==>
      st[u] == if IsService(cfg, u) then old(st[u]).(order := -1) else old(st[u])
  {
    var i := 0;
    while i < st.Length
      invariant 0 <= i <= st.Length
      invariant forall u :: 0 <= u < |cfg| ==>
        st[u] == if u < i && IsService(cfg, u) then old(st[u]).(order := -1) else old(st[u])
    {
      if cfg[i].kind == Service {
        st[i] := st[i].(order := -1);
      }
      i := i + 1;
    }
  }

  /** Fail what is still unnumbered and number it last. */
  method FailRest(cfg: seq<Config>, st: array<Unit>, m: nat, ghost was: seq<Unit>, ghost perm0: seq<int>)
    returns (ghost perm: seq<int>)
    requires st.Length == |cfg| && m == |perm0| && Placing(cfg, was, st[..], perm0, m)
    modifies st
    ensures m <= |perm| && Placing(cfg, was, st[..], perm, m)
    ensures forall u :: IsService(cfg, u) ==>
      if old(st[u].order) < 0
      then st[u].order >= m && st[u] == old(st[u]).(state := Failed, order := st[u].order)
      else st[u] == old(st[u])
  {
    hide Edge;
    var placed := m;
    perm := perm0;
    var i := 0;
    while i < st.Length
      invariant 0 <= i <= st.Length && m <= placed == |perm|
      invariant Placing(cfg, was, st[..], perm, m)
      invariant forall u :: IsService(cfg, u) ==>
        if u < i && old(st[u].order) < 0
        then st[u].order >= m && st[u] == old(st[u]).(state := Failed, order := st[u].order)
        else st[u] == old(st[u])
    {
      if cfg[i].kind == Service && st[i].order < 0 {
        st[i] := st[i].(state := Failed, order := placed);
        placed := placed + 1;
        perm := perm + [i];
      }
      i := i + 1;
    }
  }

  method OrderServices(cfg: seq<Config>, st: array<Unit>) returns (ghost perm: seq<int>, ghost m: nat)
    requires st.Length == |cfg|
    modifies st
    // the numbers are a bijection between the services and 0..|perm|
    ensures Numbered(cfg, st[..], perm) && forall u :: IsService(cfg, u) ==> st[u].order >= 0
    // what the fixpoint placed comes after its dependencies
    ensures m <= |perm| && DepsFirst(cfg, st[..], m)
    // what it could not place is exactly what reaches a cycle
    ensures forall u :: IsService(cfg, u) ==> (st[u].order >= m <==> ReachesCycle(cfg, u))
    // and exactly that, or a missing requirement, fails a service
    ensures forall u :: IsService(cfg, u) ==>
      && SameButOrder(st[u], old(st[u]))
      && st[u].state == if ReachesCycle(cfg, u) || MissingNeed(cfg, u) then Failed else old(st[u].state)
    ensures NonServicesKept(cfg, old(st[..]), st[..])
  {
    hide Edge, MissingNeed;
    ghost var was := st[..];
    ClearOrder(cfg, st);
    var placed;
    placed, perm := PlaceAll(cfg, st, was);
    m := placed;
    ghost var mid := st[..];
    forall u | IsService(cfg, u)
      ensures mid[u].order < 0 <==> ReachesCycle(cfg, u)
    {
      UnplacedReachCycles(cfg, was, mid, perm, u);
    }
    perm := FailRest(cfg, st, placed, was, perm);
    assert forall u :: IsService(cfg, u) ==> StateKept(cfg, was, mid, u);
  }
}
