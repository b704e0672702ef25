/** Two runs of the code as written that go wrong, step by step. */
module ControlRuns {
  import opened Prelude
  import opened ControlPlane
  import opened ControlLeaks

  /** One repository with one application. */
  const R := RepoId("url", "repo", 0)
  const A := AppId("app", 1)

  const REGISTER_STEPS: seq<Step> := [
    AddRepository("url", "repo"), Move(1), Move(1), AddOrUpdateApplication("url", "app", false), Move(2), Move(2)]

  /** Application registered, nothing running. */
  const REGISTERED := State([R], map[R := [A]], map[], [TickIdle, Ended, Ended], 0, 0, 2, {})

  /** Two ticks; between the first goroutine's Done and its Unlock the second tick reaches the
  application. */
  const TICK_STEPS: seq<Step> := [
    StartTick, Move(0), Move(0), Move(0), Move(0), Move(3), Move(0), StartTick, Move(0), Move(0)]

  /** An application is deleted, then its repository. */
  const DELETE_STEPS: seq<Step> := [
    DeleteApplication("url", "app"), Move(3), Move(3), Move(3), DeleteRepository("repo"), Move(4), Move(4)]

  /*---------- the states ----------*/

  function Registering(i: nat): State {
    match i
    case 0 => INITIAL
    case 1 => State([], map[], map[], [TickIdle, AddRepoWait(R)], 0, 0, 1, {})
    case 2 => State([], map[], map[HandlerLock := 1], [TickIdle, AddRepoLocked(R)], 0, 0, 1, {})
    case 3 => State([R], map[R := []], map[], [TickIdle, Ended], 0, 0, 1, {})
    case 4 => State([R], map[R := []], map[], [TickIdle, Ended, AppAddWait(R, A)], 0, 0, 2, {})
    case 5 => State([R], map[R := []], map[OfRepo(R) := 2], [TickIdle, Ended, AppAddLocked(R, A)], 0, 0, 2, {})
    case _ => REGISTERED
  }

  function WithTicker(ticker: Pc, locks: map<Lock, Tid>, wg: int, busy: nat, life: Option<Pc>): State {
    var threads := if life.Some? then [ticker, Ended, Ended, life.value] else [ticker, Ended, Ended];
    REGISTERED.(threads := threads, locks := locks, wg := wg, busy := busy)
  }

  function Ticking(i: nat): State {
    var app: map<Lock, Tid> := map[OfApp(A) := 3];
    var handler: map<Lock, Tid> := map[HandlerLock := 0];
    match i
    case 0 => REGISTERED
    case 1 => WithTicker(TickRepos([R]), handler, 0, 0, None)
    case 2 => WithTicker(TickApps(R, [A], []), handler[OfRepo(R) := 0], 0, 0, None)
    case 3 => WithTicker(TickApps(R, [], []), handler[OfRepo(R) := 0][OfApp(A) := 3], 1, 0, Some(LifeRun(A)))
    case 4 => WithTicker(TickRepos([]), app[HandlerLock := 0], 1, 0, Some(LifeRun(A)))
    case 5 => WithTicker(TickWait, app[HandlerLock := 0], 1, 0, Some(LifeRun(A)))
    case 6 => WithTicker(TickWait, app[HandlerLock := 0], 0, 0, Some(LifeUnlock(A)))
    case 7 => WithTicker(TickIdle, app, 0, 0, Some(LifeUnlock(A)))
    case 8 => WithTicker(TickRepos([R]), app[HandlerLock := 0], 0, 0, Some(LifeUnlock(A)))
    case 9 => WithTicker(TickApps(R, [A], []), app[HandlerLock := 0][OfRepo(R) := 0], 0, 0, Some(LifeUnlock(A)))
    case _ => WithTicker(TickApps(R, [], []), app[HandlerLock := 0][OfRepo(R) := 0], -1, 1, Some(LifeUnlock(A)))
  }

  function Deleting(i: nat): State {
    var repo: map<Lock, Tid> := map[OfRepo(R) := 3];
    var both := repo[OfApp(A) := 3];
    match i
    case 0 => REGISTERED
    case 1 => REGISTERED.(threads := [TickIdle, Ended, Ended, AppDelWait(R, 0, A)], serial := 3)
    case 2 => REGISTERED.(threads := [TickIdle, Ended, Ended, AppDelWaitApp(R, 0, A)], serial := 3, locks := repo)
    case 3 =>
      State([R], map[R := [A]], both, [TickIdle, Ended, Ended, AppDelUninstall(R, 0, A)], 0, 0, 3, {A})
    case 4 => State([R], map[R := []], both, [TickIdle, Ended, Ended, Ended], 0, 0, 3, {A})
    case 5 => State([R], map[R := []], both, [TickIdle, Ended, Ended, Ended, DelRepoWait("repo")], 0, 0, 4, {A})
    case 6 =>
      State([R], map[R := []], both[HandlerLock := 4], [TickIdle, Ended, Ended, Ended, DelRepoLocked("repo")],
            0, 0, 4, {A})
    case _ =>
      State([R], map[R := []], both[HandlerLock := 4], [TickIdle, Ended, Ended, Ended, DelRepoWaitRepo(R)],
            0, 0, 4, {A})
  }

  /*---------- the steps ----------*/

  /** The step leads to that state, compared part by part. */
  ghost predicate Leads(s: State, step: Step, s': State) {
    && Enabled(s, step)
    && var next := Next(AS_WRITTEN, s, step);
    && s'.repos == next.repos && s'.apps == next.apps && s'.locks == next.locks && s'.threads == next.threads
    && s'.wg == next.wg && s'.busy == next.busy && s'.serial == next.serial && s'.uninstalled == next.uninstalled
  }

  lemma RequestSteps(i: nat)
    requires i < 3
    ensures Leads(Registering(i), REGISTER_STEPS[i], Registering(i + 1))
  {
    hide MoveAppRequest, MoveTicker, MoveLife;
  }

  lemma ApplicationSteps(i: nat)
    requires 3 <= i < 6
    ensures Leads(Registering(i), REGISTER_STEPS[i], Registering(i + 1))
  {
    hide MoveRepoRequest, MoveTicker, MoveLife;
    assert [] + [A] == [A];
    assert FindRepo([R], "url") == Some(R);
  }

  lemma TickerSteps(i: nat)
    requires i < 5 || 7 <= i < 10
    ensures Leads(Ticking(i), TICK_STEPS[i], Ticking(i + 1))
  {
    hide MoveAppRequest, MoveRepoRequest, MoveLife, RequestThread;
    assert [R][1..] == [] && [A][1..] == [];
  }

  lemma GoroutineSteps(i: nat)
    requires 5 <= i < 7
    ensures Leads(Ticking(i), TICK_STEPS[i], Ticking(i + 1))
  {
    hide MoveAppRequest, MoveRepoRequest, RequestThread;
  }

  lemma DeleteRequests(i: nat)
    requires i in {0, 4}
    ensures Leads(Deleting(i), DELETE_STEPS[i], Deleting(i + 1))
  {
    hide MoveThread;
    assert FindRepo([R], "url") == Some(R) && LastApp([A], "app") == Some(0);
  }

  lemma DeleteApplicationSteps(i: nat)
    requires 1 <= i < 4
    ensures Leads(Deleting(i), DELETE_STEPS[i], Deleting(i + 1))
  {
    hide MoveRepoRequest, MoveTicker, MoveLife, RequestThread;
    assert SwapRemove([A], 0) == [];
  }

  lemma DeleteRepositorySteps(i: nat)
    requires 5 <= i < 7
    ensures Leads(Deleting(i), DELETE_STEPS[i], Deleting(i + 1))
  {
    hide MoveAppRequest, MoveTicker, MoveLife, RequestThread;
    assert LastRepo([R], "repo") == Some(0);
  }

  /*---------- the runs ----------*/

  lemma JoinedRun(first: seq<State>, firstSteps: seq<Step>, second: seq<State>, secondSteps: seq<Step>)
    requires |first| == |firstSteps| + 1 && |second| == |secondSteps| + 1
    requires forall i | 0 <= i < |firstSteps| :: Leads(first[i], firstSteps[i], first[i + 1])
    requires forall i | 0 <= i < |secondSteps| :: Leads(second[i], secondSteps[i], second[i + 1])
    requires first[|firstSteps|] == second[0]
    ensures Run(AS_WRITTEN, first + second[1..], firstSteps + secondSteps)
  {
    hide Next, Enabled;
    var states, steps, n := first + second[1..], firstSteps + secondSteps, |firstSteps|;
    forall i | 0 <= i < |steps|
      ensures Enabled(states[i], steps[i]) && states[i + 1] == Next(AS_WRITTEN, states[i], steps[i])
    {
      if i < n {
        assert Leads(first[i], firstSteps[i], first[i + 1]);
      } else {
        assert Leads(second[i - n], secondSteps[i - n], second[i - n + 1]);
      }
    }
  }

  lemma Registers()
    ensures forall i | 0 <= i < 6 :: Leads(Registering(i), REGISTER_STEPS[i], Registering(i + 1))
  {
    hide Leads;
    forall i | 0 <= i < 6 ensures Leads(Registering(i), REGISTER_STEPS[i], Registering(i + 1)) {
      if i < 3 { RequestSteps(i); } else { ApplicationSteps(i); }
    }
  }

  ghost predicate CounterGoesNegative(states: seq<State>, steps: seq<Step>) {
    Run(AS_WRITTEN, states, steps) && states[0] == INITIAL && states[|steps|].wg < 0
  }

  /** As written, the WaitGroup counter can go negative. */
  lemma DoneBeforeUnlockGoesNegative()
    ensures exists states, steps :: CounterGoesNegative(states, steps)
  {
    hide Leads;
    Registers();
    var first := seq(7, i requires 0 <= i < 7 => Registering(i));
    var second := seq(11, i requires 0 <= i < 11 => Ticking(i));
    forall i | 0 <= i < |TICK_STEPS| ensures Leads(second[i], TICK_STEPS[i], second[i + 1]) {
      if 5 <= i < 7 { GoroutineSteps(i); } else { TickerSteps(i); }
    }
    JoinedRun(first, REGISTER_STEPS, second, TICK_STEPS);
    assert CounterGoesNegative(first + second[1..], REGISTER_STEPS + TICK_STEPS);
  }

  ghost predicate GetsWedged(states: seq<State>, steps: seq<Step>) {
    Run(AS_WRITTEN, states, steps) && states[0] == INITIAL && exists t, r :: Wedged(states[|steps|], t, r)
  }

  /** As written, deleting an application and then its repository wedges the server. */
  lemma DeletionsWedgeTheServer()
    ensures exists states, steps :: GetsWedged(states, steps)
  {
    hide Leads;
    Registers();
    var first := seq(7, i requires 0 <= i < 7 => Registering(i));
    var second := seq(8, i requires 0 <= i < 8 => Deleting(i));
    forall i | 0 <= i < |DELETE_STEPS| ensures Leads(second[i], DELETE_STEPS[i], second[i + 1]) {
      if i in {0, 4} {
        DeleteRequests(i);
      } else if i < 4 {
        DeleteApplicationSteps(i);
      } else {
        DeleteRepositorySteps(i);
      }
    }
    JoinedRun(first, REGISTER_STEPS, second, DELETE_STEPS);
    assert Wedged(Deleting(7), 4, R);
    assert (first + second[1..])[13] == Deleting(7);
    assert GetsWedged(first + second[1..], REGISTER_STEPS + DELETE_STEPS);
  }
}
