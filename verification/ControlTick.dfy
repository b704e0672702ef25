/** What a tick does: it visits every repository and starts every application that is free. */
module ControlTick {
  import opened ControlPlane
  import opened ControlInvariant
  import opened ControlTheorems

  /** Thread 0 is about to try the repository's mutex. */
  predicate AtRepo(s: State, r: RepoId) {
    |s.threads| > 0 && s.threads[0].TickRepos? && s.threads[0].todo != [] && s.threads[0].todo[0] == r
  }

  /** Thread 0 is about to try the application's mutex, in that repository. */
  predicate AtApp(s: State, r: RepoId, a: AppId) {
    |s.threads| > 0 && s.threads[0].TickApps? && s.threads[0].repo == r
    && s.threads[0].apps != [] && s.threads[0].apps[0] == a
  }

  /** A goroutine that runs the application's lifecycle has been appended, holding its mutex. */
  predicate Starts(s: State, s': State, a: AppId) {
    |s.threads| > 0 && |s'.threads| > 0
    && s'.threads == s.threads[0 := s'.threads[0]] + [LifeRun(a)] && s'.locks == s.locks[OfApp(a) := |s.threads|]
  }

  /** In that step of the run thread 0 tries the application, and starts it or finds it locked. */
  ghost predicate Tries(states: seq<State>, steps: seq<Step>, i: nat, r: RepoId, a: AppId) {
    && i < |steps| && i + 1 < |states| && steps[i] == Move(0) && AtApp(states[i], r, a)
    && |states[i + 1].threads| > 0
    && (OfApp(a) in states[i].locks || Starts(states[i], states[i + 1], a))
  }

  ghost predicate TriedWithin(states: seq<State>, steps: seq<Step>, n: nat, m: nat, r: RepoId, a: AppId) {
    exists i :: n < i < m && Tries(states, steps, i, r, a)
  }

  /** In that step of the run thread 0 tries the repository. */
  ghost predicate Visits(states: seq<State>, steps: seq<Step>, i: nat, r: RepoId) {
    i < |steps| && i < |states| && steps[i] == Move(0) && AtRepo(states[i], r)
  }

  /** Between `n` and `m` thread 0 has tried the repository, and if it was free then, each of its
  applications; those in `rest` are still to be tried. */
  ghost predicate Served(states: seq<State>, steps: seq<Step>, n: nat, m: nat, r: RepoId, rest: set<AppId>) {
    exists i :: n < i < m && Visits(states, steps, i, r) && ServedFrom(states, steps, i, m, r, rest)
  }

  ghost predicate ServedFrom(states: seq<State>, steps: seq<Step>, i: nat, m: nat, r: RepoId, rest: set<AppId>)
    requires i < |states|
  {
    OfRepo(r) !in states[i].locks ==>
      r in states[i].apps && forall a <- states[i].apps[r] :: a in rest || TriedWithin(states, steps, i, m, r, a)
  }

  function ReposLeft(pc: Pc): seq<RepoId> {
    match pc
    case TickRepos(todo) => todo
    case TickApps(_, _, todo) => todo
    case _ => []
  }

  function AppsLeft(pc: Pc, r: RepoId): set<AppId> {
    match pc
    case TickApps(q, apps, _) => if q == r then set a | a in apps else {}
    case _ => {}
  }

  /** The part of a tick up to `m`: every repository listed at its start is still to be visited,
  or has been served as far as thread 0 has come. */
  ghost predicate TickSoFar(states: seq<State>, steps: seq<Step>, n: nat, m: nat)
    requires n < |states| && m < |states|
  {
    && |states[m].threads| > 0
    && (states[m].threads[0].TickRepos? || states[m].threads[0].TickApps? || states[m].threads[0].TickWait?)
    && forall r <- states[n].repos ::
         || r in ReposLeft(states[m].threads[0])
         || Served(states, steps, n, m, r, AppsLeft(states[m].threads[0], r))
  }

  lemma {:induction false} ServedLater(states: seq<State>, steps: seq<Step>, n: nat, m: nat, r: RepoId,
                                       rest: set<AppId>, rest': set<AppId>)
    requires m < |states| && Served(states, steps, n, m, r, rest)
    requires forall a <- rest :: a in rest' || TriedAt(states, steps, m, r, a)
    ensures Served(states, steps, n, m + 1, r, rest')
  {
    hide Tries, Visits;
    var i: nat :| n < i < m && Visits(states, steps, i, r) && ServedFrom(states, steps, i, m, r, rest);
    if OfRepo(r) !in states[i].locks {
      forall a <- states[i].apps[r] ensures a in rest' || TriedWithin(states, steps, i, m + 1, r, a) {
        if a !in rest {
          var j: nat :| i < j < m && Tries(states, steps, j, r, a);
        } else if a !in rest' {
          assert Tries(states, steps, m, r, a);
        }
      }
    }
    assert ServedFrom(states, steps, i, m + 1, r, rest');
  }

  ghost predicate TriedAt(states: seq<State>, steps: seq<Step>, m: nat, r: RepoId, a: AppId) {
    Tries(states, steps, m, r, a)
  }

  /** One move of thread 0 in a tick, in terms of its program counter. */
  predicate GoesOn(s: State, s': State) {
    && |s.threads| > 0 && |s'.threads| > 0
    && match s.threads[0]
       case TickRepos(todo) =>
         if todo == [] then s'.threads[0].TickWait?
         else if OfRepo(todo[0]) in s.locks then s'.threads[0] == TickRepos(todo[1..])
         else todo[0] in s.apps && s'.threads[0] == TickApps(todo[0], s.apps[todo[0]], todo[1..])
       case TickApps(r, apps, todo) =>
         if apps == [] then s'.threads[0] == TickRepos(todo)
         else
           && s'.threads[0] == TickApps(r, apps[1..], todo)
           && (OfApp(apps[0]) !in s.locks ==> Starts(s, s', apps[0]))
       case _ => false
  }

  lemma TickerGoesOn(cfg: Config, s: State)
    requires Invariant(s) && CanMove(s, 0) && (s.threads[0].TickRepos? || s.threads[0].TickApps?)
    ensures GoesOn(s, MoveThread(cfg, s, 0))
  {
    assert IsTicker(s.threads[0]);
  }

  /** Nobody else moves thread 0. */
  lemma TickerStays(cfg: Config, s: State, step: Step)
    requires Invariant(s) && Enabled(s, step) && step != Move(0) && !s.threads[0].TickIdle?
    ensures |Next(cfg, s, step).threads| > 0 && Next(cfg, s, step).threads[0] == s.threads[0]
  {
    hide MoveThread, RequestThread;
    if step.Move? {
      MoveFrame(cfg, s, step.t, 0, HandlerLock);
    }
  }

  lemma TickSoFarThroughStep(cfg: Config, states: seq<State>, steps: seq<Step>, n: nat, m: nat)
    requires Run(cfg, states, steps) && n < m < |steps| && Invariant(states[m]) && TickSoFar(states, steps, n, m)
    requires states[m].threads[0].TickRepos? || states[m].threads[0].TickApps?
    ensures TickSoFar(states, steps, n, m + 1)
  {
    var s, s', step, pc := states[m], states[m + 1], steps[m], states[m].threads[0];
    assert Enabled(s, step) && s' == Next(cfg, s, step);
    if step != Move(0) {
      TickerStays(cfg, s, step);
      hide Next, Enabled, Invariant, Run;
      forall r <- states[n].repos | r !in ReposLeft(s'.threads[0])
        ensures Served(states, steps, n, m + 1, r, AppsLeft(s'.threads[0], r))
      {
        ServedLater(states, steps, n, m, r, AppsLeft(pc, r), AppsLeft(s'.threads[0], r));
      }
    } else {
      TickerGoesOn(cfg, s);
      hide Next, Enabled, Invariant, Run;
      forall r <- states[n].repos | r !in ReposLeft(s'.threads[0])
        ensures Served(states, steps, n, m + 1, r, AppsLeft(s'.threads[0], r))
      {
        TickerServes(states, steps, n, m, r);
      }
    }
  }

  /** What thread 0 takes off its lists with this move it has served. */
  lemma TickerServes(states: seq<State>, steps: seq<Step>, n: nat, m: nat, r: RepoId)
    requires n < m < |steps| && m + 1 < |states| && steps[m] == Move(0)
    requires GoesOn(states[m], states[m + 1])
    requires || r in ReposLeft(states[m].threads[0])
             || Served(states, steps, n, m, r, AppsLeft(states[m].threads[0], r))
    requires r !in ReposLeft(states[m + 1].threads[0])
    ensures Served(states, steps, n, m + 1, r, AppsLeft(states[m + 1].threads[0], r))
  {
    var s, s', pc := states[m], states[m + 1], states[m].threads[0];
    var rest, rest' := AppsLeft(pc, r), AppsLeft(s'.threads[0], r);
    if r in ReposLeft(pc) {
      assert pc.TickRepos? && pc.todo[0] == r;
      assert Visits(states, steps, m, r);
      assert ServedFrom(states, steps, m, m + 1, r, rest');
    } else {
      forall a <- rest ensures a in rest' || TriedAt(states, steps, m, r, a) {
        assert pc.TickApps? && pc.repo == r && a in pc.apps;
        if a != pc.apps[0] {
          assert a in pc.apps[1..];
        }
      }
      ServedLater(states, steps, n, m, r, rest, rest');
    }
  }

  lemma TickBegins(cfg: Config, states: seq<State>, steps: seq<Step>, n: nat)
    requires Run(cfg, states, steps) && n < |steps| && steps[n] == StartTick
    ensures TickSoFar(states, steps, n, n + 1)
  {
    assert Enabled(states[n], steps[n]) && states[n + 1] == Next(cfg, states[n], steps[n]);
    StartTickEffect(cfg, states[n], 0, HandlerLock);
  }

  lemma {:induction false} TickAlong(cfg: Config, states: seq<State>, steps: seq<Step>, n: nat, m: nat)
    requires Run(cfg, states, steps) && states[0] == INITIAL && n < m < |states| && steps[n] == StartTick
    requires forall k | n < k < m :: !(|states[k].threads| > 0 && states[k].threads[0].TickWait?)
    ensures TickSoFar(states, steps, n, m)
    decreases m
  {
    hide Next, Enabled, Invariant, Served, INITIAL;
    if m == n + 1 {
      TickBegins(cfg, states, steps, n);
    } else {
      TickAlong(cfg, states, steps, n, m - 1);
      InvariantAlong(cfg, states, steps, m - 1);
      TickSoFarThroughStep(cfg, states, steps, n, m - 1);
    }
  }

  /** A tick visits everything.  Between a StartTick and the next time thread 0 waits for its
  goroutines, it has tried the mutex of every repository listed at the start; and of every
  repository that it found free, it has tried every application, and started a goroutine for
  each that it did not find locked.  A repository that is locked is skipped, and only that
  one. */
  lemma TickVisitsEverything(cfg: Config, states: seq<State>, steps: seq<Step>, n: nat, m: nat, r: RepoId)
    requires Run(cfg, states, steps) && states[0] == INITIAL && n < m < |states| && steps[n] == StartTick
    requires |states[m].threads| > 0 && states[m].threads[0].TickWait?
    requires forall k | n < k < m :: !(|states[k].threads| > 0 && states[k].threads[0].TickWait?)
    requires r in states[n].repos
    ensures exists i :: n < i < m && Visits(states, steps, i, r)
                        && (OfRepo(r) !in states[i].locks ==>
                              r in states[i].apps
                              && forall a <- states[i].apps[r] :: TriedWithin(states, steps, i, m, r, a))
  {
    hide Run, Visits, TriedWithin, INITIAL;
    TickAlong(cfg, states, steps, n, m);
    assert Served(states, steps, n, m, r, AppsLeft(states[m].threads[0], r));
    var i: nat :| n < i < m && Visits(states, steps, i, r) && ServedFrom(states, steps, i, m, r, {});
  }
}
