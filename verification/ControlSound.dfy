/** The states in which nothing has gone wrong: with the unlocks in place, all that the server
can reach. */
module ControlSound {
  import opened ControlPlane
  import opened ControlInvariant
  import opened ControlWaitGroup
  import opened ControlProgress
  import opened ControlLeaks

  predicate AllFinished(s: State) {
    forall pc <- s.threads :: !Unfinished(pc)
  }

  lemma FinishedCannotMove(s: State, t: Tid)
    requires AllFinished(s)
    ensures !CanMove(s, t)
  {
    if t < |s.threads| {
      assert s.threads[t] in s.threads;
    }
  }

  /** Nothing has gone wrong: the counter is exact and no lock has been left behind. */
  ghost predicate Sound(cfg: Config, s: State) {
    Reachable(cfg, s) && s.busy == 0 && forall l :: !Leaked(s, l)
  }

  lemma SoundKept(cfg: Config, s: State, t: Tid)
    requires cfg.deletionsUnlock && !cfg.doneFirst
    requires Sound(cfg, s) && CanMove(s, t)
    ensures Sound(cfg, MoveThread(cfg, s, t))
  {
    var s' := Next(cfg, s, Move(t));
    ReachableKept(cfg, s, Move(t));
    if AtBusyBranch(s) {
      HolderOfVisited(cfg, s);
    }
    BusyGrowsAtBusyBranch(cfg, s, Move(t));
    hide MoveThread, Leaked, Reachable;
    forall l ensures !Leaked(s', l) {
      SoundLeaksNothing(cfg, s, t, l);
    }
  }

  lemma SoundLeaksNothing(cfg: Config, s: State, t: Tid, l: Lock)
    requires cfg.deletionsUnlock && Reachable(cfg, s) && CanMove(s, t) && !Leaked(s, l)
    ensures !Leaked(Next(cfg, s, Move(t)), l)
  {
    hide MoveThread, Leaked;
    LeaksThroughStep(cfg, s, Move(t), l);
  }

  lemma SoundProgress(cfg: Config, s: State)
    requires Sound(cfg, s) && !AllFinished(s)
    ensures SomeoneMoves(s)
  {
    var t: Tid :| t < |s.threads| && Unfinished(s.threads[t]);
    DeadlockFree(cfg, s, t);
  }

  lemma MoverIsThread(s: State, t: Tid)
    requires CanMove(s, t)
    ensures t < |s.threads|
  {
  }

  lemma ReachableRoles(cfg: Config, s: State)
    requires Reachable(cfg, s)
    ensures Roles(s)
  {
  }

  /** Every state of every run is sound, if deletions unlock and goroutines unlock before Done. */
  lemma ReachedIsSound(cfg: Config, states: seq<State>, steps: seq<Step>, n: nat)
    requires cfg.deletionsUnlock && !cfg.doneFirst
    requires Run(cfg, states, steps) && states[0] == INITIAL && n < |states|
    ensures Sound(cfg, states[n])
  {
    hide Next, Enabled, INITIAL, Reachable, Leaked;
    ReachableAlong(cfg, states, steps, n);
    UnlockBeforeDoneIsSafe(cfg, states, steps, n);
    forall l ensures !Leaked(states[n], l) {
      UnlockingLeaksNothing(cfg, states, steps, n, l);
    }
  }
}
