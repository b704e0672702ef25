/** What the missing unlocks of the deletions cost, and that nothing else gets stuck. */
module ControlLeaks {
  import opened Prelude
  import opened ControlPlane
  import opened ControlInvariant
  import opened ControlTheorems
  import opened ControlWaitGroup
  import opened ControlProgress

  /*---------- where locks are left behind ----------*/

  /** The move ends a deletion that gives back nothing of what it locked. */
  predicate LeavesBehind(cfg: Config, pc: Pc, l: Lock) {
    !cfg.deletionsUnlock && (pc.AppDelUninstall? || pc.ChildUninstall?) && l in Holds(pc)
  }

  /** What the mover's end means for a lock it held. */
  ghost predicate EndsAsItShould(cfg: Config, s: State, s': State, t: Tid, l: Lock)
    requires t < |s.threads|
  {
    && |s'.threads| >= |s.threads|
    && (LeavesBehind(cfg, s.threads[t], l) ==> s'.threads[t].Ended? && (l in s.locks ==> l in s'.locks))
    && (!LeavesBehind(cfg, s.threads[t], l) && s'.threads[t].Ended? ==> l !in s'.locks)
  }

  lemma AppRequestEnds(cfg: Config, s: State, t: Tid, l: Lock)
    requires CanMove(s, t) && IsAppRequest(s.threads[t]) && l in Holds(s.threads[t])
    ensures EndsAsItShould(cfg, s, MoveAppRequest(cfg, s, t), t, l)
  {
  }

  lemma RepoRequestEnds(cfg: Config, s: State, t: Tid, l: Lock)
    requires CanMove(s, t) && IsRepoRequest(s.threads[t]) && l in Holds(s.threads[t])
    ensures EndsAsItShould(cfg, s, MoveRepoRequest(cfg, s, t), t, l)
  {
  }

  lemma MoverEnds(cfg: Config, s: State, t: Tid, l: Lock)
    requires CanMove(s, t) && l in Holds(s.threads[t])
    ensures EndsAsItShould(cfg, s, MoveThread(cfg, s, t), t, l)
  {
    hide MoveTicker, MoveAppRequest, MoveRepoRequest;
    if IsTicker(s.threads[t]) {
      TickerEffect(s, t, t, l);
    } else if IsAppRequest(s.threads[t]) {
      AppRequestEnds(cfg, s, t, l);
    } else if IsRepoRequest(s.threads[t]) {
      RepoRequestEnds(cfg, s, t, l);
    }
  }

  /** A lock is given back only by the thread that holds it. */
  lemma OnlyHolderReleases(cfg: Config, s: State, t: Tid, l: Lock)
    requires CanMove(s, t) && l in s.locks && l !in Holds(s.threads[t])
    ensures l in MoveThread(cfg, s, t).locks
  {
    hide MoveTicker, MoveAppRequest, MoveRepoRequest, MoveLife;
    if IsTicker(s.threads[t]) {
      TickerEffect(s, t, t, l);
    } else if IsAppRequest(s.threads[t]) {
      AppRequestLocks(cfg, s, t, l);
    } else if IsRepoRequest(s.threads[t]) {
      RepoRequestLocks(cfg, s, t, l);
    } else {
      LifeEffect(cfg, s, t, t, l);
    }
  }

  /** A lock is left behind for good exactly by the last move of a deletion as written:
  DeleteApplication leaves the repository's and the application's, each goroutine of
  DeleteRepository its application's. */
  lemma LeakExactlyWhen(cfg: Config, s: State, t: Tid, l: Lock)
    requires Invariant(s) && CanMove(s, t)
    ensures Leaked(MoveThread(cfg, s, t), l) <==> Leaked(s, l) || LeavesBehind(cfg, s.threads[t], l)
  {
    var s' := MoveThread(cfg, s, t);
    MoveFrame(cfg, s, t, t, l);
    if l in Holds(s.threads[t]) {
      MoverEnds(cfg, s, t, l);
      assert s.locks[l] == t;
    } else {
      if l in s.locks {
        OnlyHolderReleases(cfg, s, t, l);
        MoveFrame(cfg, s, t, s.locks[l], l);
      }
      if l in s'.locks {
        MoveFrame(cfg, s, t, s'.locks[l], l);
      }
    }
  }

  lemma LeaksThroughStep(cfg: Config, s: State, step: Step, l: Lock)
    requires Invariant(s) && Enabled(s, step)
    ensures Leaked(s, l) ==> Leaked(Next(cfg, s, step), l)
    ensures Leaked(Next(cfg, s, step), l) && cfg.deletionsUnlock ==> Leaked(s, l)
  {
    if step.Move? {
      LeakExactlyWhen(cfg, s, step.t, l);
    } else {
      hide RequestThread;
      if Leaked(Next(cfg, s, step), l) {
        OtherStepLeaks(cfg, s, step, l);
      }
    }
  }

  /*---------- with the unlocks ----------*/

  lemma {:induction false} UnlockingLeaksNothing(cfg: Config, states: seq<State>, steps: seq<Step>, n: nat, l: Lock)
    requires cfg.deletionsUnlock
    requires Run(cfg, states, steps) && states[0] == INITIAL && n < |states|
    ensures !Leaked(states[n], l)
  {
    hide Next, Enabled, Invariant, Leaked, INITIAL;
    if n > 0 {
      UnlockingLeaksNothing(cfg, states, steps, n - 1, l);
      InvariantAlong(cfg, states, steps, n - 1);
      LeaksThroughStep(cfg, states[n - 1], steps[n - 1], l);
    } else {
      NothingLocked(states[0], l);
    }
  }

  lemma NothingLocked(s: State, l: Lock)
    requires s == INITIAL
    ensures !Leaked(s, l)
  {
  }

  /** With deletions that unlock, and goroutines that unlock before Done, no reachable state is
  a deadlock: as long as a request, a goroutine or a tick is unfinished, somebody moves. */
  lemma UnlockingNeverDeadlocks(cfg: Config, states: seq<State>, steps: seq<Step>, n: nat, t: Tid)
    requires cfg.deletionsUnlock && !cfg.doneFirst
    requires Run(cfg, states, steps) && states[0] == INITIAL && n < |states|
    requires t < |states[n].threads| && Unfinished(states[n].threads[t])
    ensures SomeoneMoves(states[n])
  {
    ReachableAlong(cfg, states, steps, n);
    UnlockBeforeDoneIsSafe(cfg, states, steps, n);
    forall l ensures !Leaked(states[n], l) {
      UnlockingLeaksNothing(cfg, states, steps, n, l);
    }
    DeadlockFree(cfg, states[n], t);
  }

  /*---------- without ----------*/

  lemma {:induction false} LeakedForEver(cfg: Config, states: seq<State>, steps: seq<Step>, i: nat, j: nat, l: Lock)
    requires Run(cfg, states, steps) && states[0] == INITIAL && i <= j < |states| && Leaked(states[i], l)
    ensures Leaked(states[j], l)
    decreases j - i
  {
    if i < j {
      hide Next, Enabled, Invariant, Leaked, INITIAL;
      LeakedForEver(cfg, states, steps, i, j - 1, l);
      InvariantAlong(cfg, states, steps, j - 1);
      LeaksThroughStep(cfg, states[j - 1], steps[j - 1], l);
    }
  }

  lemma NobodyHoldsLeaked(s: State, l: Lock, t: Tid)
    requires Invariant(s) && Leaked(s, l) && t < |s.threads|
    ensures l !in Holds(s.threads[t])
    ensures WaitsFor(s, s.threads[t]) == Some(l) ==> !CanMove(s, t)
  {
  }

  /** As written, a completed DeleteApplication is the end of its repository: in every
  continuation nobody holds the repository's mutex again (the ticker skips it, so no
  application of it is started), and a request that waits for it waits for ever. */
  lemma DeleteApplicationStopsItsRepository(
    states: seq<State>, steps: seq<Step>, n: nat, m: nat, r: RepoId, i: nat, a: AppId, t: Tid, u: Tid)
    requires Run(AS_WRITTEN, states, steps) && states[0] == INITIAL && n < m < |states|
    requires steps[n] == Move(t) && t < |states[n].threads| && states[n].threads[t] == AppDelUninstall(r, i, a)
    requires u < |states[m].threads|
    ensures OfRepo(r) !in Holds(states[m].threads[u])
    ensures WaitsFor(states[m], states[m].threads[u]) == Some(OfRepo(r)) ==> !CanMove(states[m], u)
  {
    InvariantAlong(AS_WRITTEN, states, steps, n);
    InvariantAlong(AS_WRITTEN, states, steps, m);
    assert Leaked(states[n + 1], OfRepo(r)) by {
      assert Enabled(states[n], steps[n]) && states[n + 1] == Next(AS_WRITTEN, states[n], steps[n]);
      LeakExactlyWhen(AS_WRITTEN, states[n], t, OfRepo(r));
    }
    hide Leaked;
    LeakedForEver(AS_WRITTEN, states, steps, n + 1, m, OfRepo(r));
    NobodyHoldsLeaked(states[m], OfRepo(r), u);
  }

  /** A deletion of a repository whose mutex was left behind. */
  ghost predicate Wedged(s: State, t: Tid, r: RepoId) {
    t < |s.threads| && s.threads[t] == DelRepoWaitRepo(r) && Leaked(s, OfRepo(r))
  }

  lemma WedgedKept(cfg: Config, s: State, step: Step, t: Tid, r: RepoId)
    requires Invariant(s) && Wedged(s, t, r) && Enabled(s, step)
    ensures Wedged(Next(cfg, s, step), t, r)
  {
    LeaksThroughStep(cfg, s, step, OfRepo(r));
    if step.Move? {
      NobodyHoldsLeaked(s, OfRepo(r), t);
      MoveFrame(cfg, s, step.t, t, HandlerLock);
    } else {
      hide RequestThread, Leaked;
    }
  }

  /** And a DeleteRepository that comes after it stops the whole server: it spins with the
  handler's mutex held, so in every continuation no tick starts and no other request on
  repositories gets anywhere. */
  lemma {:induction false} WedgedDeletionStopsTheServer(
    cfg: Config, states: seq<State>, steps: seq<Step>, n: nat, m: nat, r: RepoId, t: Tid)
    requires Run(cfg, states, steps) && states[0] == INITIAL && n <= m < |states| && Wedged(states[n], t, r)
    ensures Wedged(states[m], t, r)
    ensures !Enabled(states[m], StartTick)
    ensures forall u: Tid | u < |states[m].threads| && WaitsFor(states[m], states[m].threads[u]) == Some(HandlerLock) ::
              !CanMove(states[m], u)
    decreases m - n
  {
    hide Next, Enabled, Invariant, INITIAL, Wedged, CanMove;
    InvariantAlong(cfg, states, steps, m);
    if n < m {
      WedgedDeletionStopsTheServer(cfg, states, steps, n, m - 1, r, t);
      InvariantAlong(cfg, states, steps, m - 1);
      WedgedKept(cfg, states[m - 1], steps[m - 1], t, r);
    }
    HandlerStaysTaken(states[m], t, r);
  }

  lemma HandlerStaysTaken(s: State, t: Tid, r: RepoId)
    requires Invariant(s) && Wedged(s, t, r)
    ensures !Enabled(s, StartTick)
    ensures forall u: Tid | u < |s.threads| && WaitsFor(s, s.threads[u]) == Some(HandlerLock) :: !CanMove(s, u)
  {
    assert HandlerLock in Holds(s.threads[t]);
    assert HandlerLock in s.locks;
  }
}
