/** Crash-loop detection of apps/init.c over whole runs of the supervisor: the
    deaths of a unit's successive instances within one failure window. */
module CrashLoop {
  import opened Units
  import opened Supervisor

  /** A death after which the unit restarts by itself. */
  predicate SelfRestarting(l: Life) {
    && l.unit.enabled && !l.unit.stopping
    && (l.unit.respawn == Always || (l.unit.respawn == OnFailure && l.code != 0))
  }

  /** A death that counts against the unit: a failure, or any exit within a second. */
  predicate IsCrash(l: Life) {
    SelfRestarting(l) && (l.code != 0 || l.unit.startMs <= l.now < l.unit.startMs + 1000)
  }

  /** What any death leads to. Only a unit that restarts by itself is to be restarted,
      and one that was told to stop is stopped. */
  predicate Concludes(l: Life)
    requires l.unit.backoff < 4
  {
    && End(l).pid == 0 && End(l).exitCode == l.code && !End(l).stopping
    && (End(l).state == Waiting ==> SelfRestarting(l) && End(l).restarts == l.unit.restarts + 1)
    && (SelfRestarting(l) ==> End(l).state == Waiting || (End(l).state == Failed && IsCrash(l)))
    && (l.unit.stopping && l.unit.dependencyFailed ==> End(l).state == Failed && !End(l).dependencyFailed)
    && (l.unit.enabled && l.unit.stopping && !l.unit.dependencyFailed ==> End(l).state == Stopped)
    && (l.unit.enabled && !l.unit.stopping && !SelfRestarting(l) ==> End(l).state == Exited)
    && (!l.unit.enabled && !(l.unit.stopping && l.unit.dependencyFailed) ==> End(l).state == Disabled)
  }

  lemma DeathConcludes(l: Life)
    requires l.unit.backoff < 4
    ensures Concludes(l)
  {
  }

  /** How long a unit waits after the k-th crash of a window. */
  function Delay(k: nat): nat { if k == 1 then 0 else if k == 2 then 1000 else if k == 3 then 2000 else 5000 }

  /** Deaths of which the first is a crash that opens a failure window, and the other
      crashes lie inside it. */
  ghost predicate Window(ls: seq<Life>) {
    && ls != []
    && IsCrash(ls[0]) && WindowOver(ls[0].unit, ls[0].now)
    && forall i :: 0 <= i < |ls| && IsCrash(ls[i]) ==> ls[0].now <= ls[i].now <= ls[0].now + FAIL_WINDOW_MS
  }

  /** ... of consecutive instances. */
  ghost predicate InOneWindow(ls: seq<Life>) {
    && Window(ls)
    && (forall i :: 0 <= i < |ls| ==> ls[i].unit.backoff < 4)
    && forall i, j :: 0 <= i && j == i + 1 < |ls| ==> Restarted(ls[i], ls[j])
  }

  function Crashes(ls: seq<Life>): nat {
    if ls == [] then 0
    else Crashes(ls[..|ls| - 1]) + if IsCrash(ls[|ls| - 1]) then 1 else 0
  }

  /** The bookkeeping after `k` crashes in the window opened at `t`. */
  predicate Counted(v: Unit, k: nat, t: nat) {
    v.winOpen && v.winStart == t && v.fails == k && v.backoff == (if k < 3 then k else 3)
  }

  /** What becomes of a unit whose death `l` is the last so far and after which there
      have been `k` crashes in the window. */
  predicate Treated(l: Life, k: nat)
    requires l.unit.backoff < 4
  {
    if IsCrash(l) then
      1 <= k <= 5 && if k == 5 then End(l).state == Failed
                     else End(l).state == Waiting && End(l).nextStart == l.now + Delay(k)
    else
      SameWindow(l.unit, End(l)) && (SelfRestarting(l) ==> End(l).state == Waiting && End(l).nextStart == l.now)
  }

  lemma PrefixInWindow(ls: seq<Life>)
    requires InOneWindow(ls) && |ls| > 1
    ensures InOneWindow(ls[..|ls| - 1])
  {
    var p := ls[..|ls| - 1];
    forall i, j | 0 <= i && j == i + 1 < |p|
      ensures Restarted(p[i], p[j])
    {
      assert Restarted(ls[i], ls[j]);
    }
  }

  /** The crash that opens a window. */
  lemma FirstCrash(l: Life)
    requires l.unit.backoff < 4 && IsCrash(l) && WindowOver(l.unit, l.now)
    ensures Counted(End(l), 1, l.now) && Treated(l, 1)
  {
  }

  /** A death after `k` crashes in a window. */
  lemma NextDeath(l: Life, k: nat, t: nat)
    requires 1 <= k <= 4 && Counted(l.unit, k, t) && (IsCrash(l) ==> t <= l.now <= t + FAIL_WINDOW_MS)
    ensures Treated(l, if IsCrash(l) then k + 1 else k)
    ensures IsCrash(l) && k < 4 ==> Counted(End(l), k + 1, t)
    ensures !IsCrash(l) ==> Counted(End(l), k, t)
  {
  }

  /** Every death in the window is bookkept exactly: the first four crashes are
      restarted 0, 1000, 2000 and 5000 ms after the death, the fifth fails the unit
      and is its last death; any other death leaves the count alone. */
  lemma {:induction false} CrashSchedule(ls: seq<Life>)
    requires InOneWindow(ls)
    ensures var (k, l) := (Crashes(ls), ls[|ls| - 1]);
            && 1 <= k <= 5 && Treated(l, k)
            && (k < 5 ==> Counted(End(l), k, ls[0].now))
            && (k == 5 ==> IsCrash(l))
    decreases |ls|
  {
    hide Bury, IsCrash, Counted, Treated;
    var l := ls[|ls| - 1];
    var p := ls[..|ls| - 1];
    if |ls| == 1 {
      assert p == [];
      FirstCrash(l);
    } else {
      PrefixInWindow(ls);
      CrashSchedule(p);
      assert Restarted(ls[|ls| - 2], ls[|ls| - 1]);
      StillCounted(ls[|ls| - 2], Crashes(p), l, ls[0].now);
      NextDeath(l, Crashes(p), ls[0].now);
    }
  }

  /** The next instance starts from the count of the last one. */
  lemma StillCounted(l: Life, k: nat, next: Life, t: nat)
    requires l.unit.backoff < 4 && Restarted(l, next) && k <= 5 && Treated(l, k) && (k == 5 ==> IsCrash(l))
    requires k < 5 ==> Counted(End(l), k, t)
    ensures k < 5 && Counted(next.unit, k, t)
  {
    hide Bury, IsCrash;
  }

  /** One window admits at most four automatic restarts after a crash. */
  lemma AtMostFourRestarts(ls: seq<Life>)
    requires InOneWindow(ls)
    ensures Crashes(ls[..|ls| - 1]) <= 4
  {
    hide Bury, IsCrash, Counted, Treated;
    if |ls| == 1 {
      assert ls[..0] == [];
    } else {
      PrefixInWindow(ls);
      CrashSchedule(ls[..|ls| - 1]);
      assert Restarted(ls[|ls| - 2], ls[|ls| - 1]);
      StillCounted(ls[|ls| - 2], Crashes(ls[..|ls| - 1]), ls[|ls| - 1], ls[0].now);
    }
  }

  /** The last death of a window is treated as the crashes so far call for, and at
      most four crashes came before it. */
  ghost predicate OnSchedule(ls: seq<Life>)
    requires ls != []
  {
    var (k, l) := (Crashes(ls), ls[|ls| - 1]);
    l.unit.backoff < 4 && Treated(l, k) && Crashes(ls[..|ls| - 1]) <= 4
  }

  ghost predicate AllOnSchedule(ls: seq<Life>) {
    forall a, b :: 0 <= a < b <= |ls| && Window(ls[a..b]) ==> OnSchedule(ls[a..b])
  }

  /** The n-th death is the last so far of a window. */
  ghost predicate Windowed(ls: seq<Life>, n: nat)
    requires n <= |ls|
  {
    exists a :: 0 <= a < n && Window(ls[a..n])
  }

  /** Whatever a unit lived through, every window in it is on schedule. */
  lemma LivedOnSchedule(v: Unit, ls: seq<Life>, w: Unit)
    requires Lived(v, ls, w)
    ensures AllOnSchedule(ls)
  {
    hide Lived, Window, Treated, IsCrash;
    forall a, b | 0 <= a < b <= |ls| && Window(ls[a..b])
      ensures OnSchedule(ls[a..b])
    {
      WindowOfRun(v, ls, w, a, b);
      CrashSchedule(ls[a..b]);
      AtMostFourRestarts(ls[a..b]);
    }
  }

  lemma WindowOfRun(v: Unit, ls: seq<Life>, w: Unit, a: nat, b: nat)
    requires Lived(v, ls, w) && a < b <= |ls| && Window(ls[a..b])
    ensures InOneWindow(ls[a..b])
  {
    hide Restarted, Window;
    var p := ls[a..b];
    forall i, j | 0 <= i && j == i + 1 < |p|
      ensures p[i].unit.backoff < 4 && Restarted(p[i], p[j])
    {
      assert Restarted(ls[a + i], ls[a + j]);
    }
  }

  /** And no crash is outside: from a unit without an open window, every crash is in
      one. `After` is the unit after the first `n` deaths. */
  function After(v: Unit, ls: seq<Life>, n: nat): Unit
    requires n <= |ls| && (n > 0 ==> ls[n - 1].unit.backoff < 4)
  {
    if n == 0 then v else End(ls[n - 1])
  }

  /** As long as the unit says that a window is open, the log has that window. */
  ghost predicate Recorded(ls: seq<Life>, n: nat, v: Unit) {
    v.winOpen ==> exists a :: 0 <= a < n <= |ls| && Window(ls[a..n]) && ls[a].now == v.winStart
  }

  lemma {:induction false} WindowRecorded(v: Unit, ls: seq<Life>, w: Unit, n: nat)
    requires Lived(v, ls, w) && !v.winOpen && n <= |ls|
    ensures Recorded(ls, n, After(v, ls, n))
    ensures n > 0 && IsCrash(ls[n - 1]) ==> Windowed(ls, n)
    decreases n
  {
    hide Bury, IsCrash, Window, Recorded;
    if n == 0 {
      NoneOpen(ls, v);
    } else {
      WindowRecorded(v, ls, w, n - 1);
      var l := ls[n - 1];
      if n > 1 { assert Restarted(ls[n - 2], ls[n - 1]); }
      assert SameWindow(After(v, ls, n - 1), l.unit);
      SameRecord(ls, n - 1, After(v, ls, n - 1), l.unit);
      OneMoreDeath(ls, n - 1);
    }
  }

  lemma NoneOpen(ls: seq<Life>, v: Unit)
    requires !v.winOpen
    ensures Recorded(ls, 0, v)
  {
  }

  lemma SameRecord(ls: seq<Life>, n: nat, v: Unit, w: Unit)
    requires Recorded(ls, n, v) && SameWindow(v, w)
    ensures Recorded(ls, n, w)
  {
    hide Window;
  }

  /** What a death does to the window. */
  lemma WindowAfter(l: Life)
    requires l.unit.backoff < 4
    ensures IsCrash(l) ==>
      if WindowOver(l.unit, l.now) then End(l).winOpen && End(l).winStart == l.now
      else && End(l).winOpen && l.unit.winOpen
           && End(l).winStart == l.unit.winStart <= l.now <= l.unit.winStart + FAIL_WINDOW_MS
    ensures !IsCrash(l) ==> SameWindow(l.unit, End(l))
  {
  }

  lemma OneMoreDeath(ls: seq<Life>, n: nat)
    requires n < |ls| && ls[n].unit.backoff < 4 && Recorded(ls, n, ls[n].unit)
    ensures Recorded(ls, n + 1, End(ls[n]))
    ensures IsCrash(ls[n]) ==> Windowed(ls, n + 1)
  {
    hide Bury, IsCrash, Window;
    var l := ls[n];
    WindowAfter(l);
    if IsCrash(l) && WindowOver(l.unit, l.now) {
      WindowOpens(ls, n);
    } else if l.unit.winOpen {
      var a :| 0 <= a < n <= |ls| && Window(ls[a..n]) && ls[a].now == l.unit.winStart;
      WindowGoesOn(ls, a, n);
    }
  }

  lemma WindowOpens(ls: seq<Life>, n: nat)
    requires n < |ls| && IsCrash(ls[n]) && WindowOver(ls[n].unit, ls[n].now)
    ensures Window(ls[n..n + 1])
  {
  }

  lemma WindowGoesOn(ls: seq<Life>, a: nat, n: nat)
    requires a < n < |ls| && Window(ls[a..n])
    requires IsCrash(ls[n]) ==> ls[a].now <= ls[n].now <= ls[a].now + FAIL_WINDOW_MS
    ensures Window(ls[a..n + 1])
  {
    hide IsCrash;
    var p, q := ls[a..n], ls[a..n + 1];
    assert forall i :: 0 <= i < |q| ==> q[i] == if i < |p| then p[i] else ls[n];
  }

  /** Any run of the supervisor: a unit that no command is for, and that had no
      restart pending, is restarted and given up on by the schedule alone. */
  method WatchRun(s: Supervisor, events: seq<Event>)
    requires s.Valid()
    requires forall i :: 0 <= i < |events| && events[i].Control? ==> events[i].unit < s.st.Length
    modifies s, s.st
    ensures s.Valid()
    ensures forall u :: 0 <= u < s.st.Length && LeftAlone(events, u) && !old(s.st[..])[u].restartPending ==>
      && old(s.lives)(u) <= s.lives(u)
      && Watched(s.lives(u)[|old(s.lives)(u)|..], old(s.st[..])[u].winOpen)
  {
    hide AllOnSchedule;
    ghost var us, log := s.st[..], s.lives;
    s.Run(events);
    forall u | 0 <= u < s.st.Length && LeftAlone(events, u) && !us[u].restartPending
      ensures log(u) <= s.lives(u) && Watched(s.lives(u)[|log(u)|..], us[u].winOpen)
    {
      assert Tracked(us, log, s.st[..], s.lives, u);
      LivedWatched(us[u], s.lives(u)[|log(u)|..], s.st[..][u]);
    }
  }

  /** Every death has its right outcome, every window is on schedule, and unless one was
      open before, every crash is in a window. */
  ghost predicate Watched(ls: seq<Life>, open: bool) {
    && (forall i :: 0 <= i < |ls| ==> ls[i].unit.backoff < 4 && Concludes(ls[i]))
    && AllOnSchedule(ls)
    && (!open ==> forall i :: 0 <= i < |ls| && IsCrash(ls[i]) ==> Windowed(ls, i + 1))
  }

  lemma LivedWatched(v: Unit, ls: seq<Life>, w: Unit)
    requires Lived(v, ls, w)
    ensures Watched(ls, v.winOpen)
  {
    hide AllOnSchedule, IsCrash, Windowed, Restarted, Leaves, Concludes;
    LivedOnSchedule(v, ls, w);
    forall i | 0 <= i < |ls|
      ensures Concludes(ls[i])
    {
      DeathConcludes(ls[i]);
    }
    if !v.winOpen {
      forall i | 0 <= i < |ls| && IsCrash(ls[i])
        ensures Windowed(ls, i + 1)
      {
        WindowRecorded(v, ls, w, i + 1);
      }
    }
  }
}
