/** The WaitGroup of the ticker, and the branch it takes for a locked application. */
module ControlWaitGroup {
  import opened ControlPlane
  import opened ControlInvariant
  import opened ControlTheorems

  /** A lifecycle goroutine that has not called Done yet. */
  predicate Pending(cfg: Config, pc: Pc) {
    pc.LifeRun? || (!cfg.doneFirst && pc.LifeSignal?)
  }

  function Count(cfg: Config, threads: seq<Pc>): nat {
    if threads == [] then 0
    else Count(cfg, threads[..|threads| - 1]) + if Pending(cfg, threads[|threads| - 1]) then 1 else 0
  }

  lemma {:induction false} CountUpdate(cfg: Config, threads: seq<Pc>, t: nat, pc: Pc)
    requires t < |threads|
    ensures Count(cfg, threads[t := pc]) + (if Pending(cfg, threads[t]) then 1 else 0)
            == Count(cfg, threads) + if Pending(cfg, pc) then 1 else 0
  {
    var n := |threads| - 1;
    if t == n {
      assert threads[t := pc][..n] == threads[..n];
    } else {
      CountUpdate(cfg, threads[..n], t, pc);
      assert threads[t := pc][..n] == threads[..n][t := pc];
    }
  }

  lemma {:induction false} CountAppend(cfg: Config, threads: seq<Pc>, more: seq<Pc>)
    ensures Count(cfg, threads + more) == Count(cfg, threads) + Count(cfg, more)
    decreases |more|
  {
    if more == [] {
      assert threads + more == threads;
    } else {
      var n := |more| - 1;
      CountAppend(cfg, threads, more[..n]);
      assert (threads + more)[..|threads| + n] == threads + more[..n];
    }
  }

  lemma {:induction false} CountZero(cfg: Config, threads: seq<Pc>)
    ensures Count(cfg, threads) == 0 <==> forall pc <- threads :: !Pending(cfg, pc)
  {
    if threads != [] {
      var n := |threads| - 1;
      CountZero(cfg, threads[..n]);
      assert threads == threads[..n] + [threads[n]];
    }
  }

  /** The counter is the number of goroutines that owe a Done, less the calls of the busy
  branch that nobody owed. */
  ghost predicate Balanced(cfg: Config, s: State) {
    s.wg == Count(cfg, s.threads) - s.busy
  }

  lemma SingleCount(cfg: Config, pc: Pc)
    ensures Count(cfg, [pc]) == if Pending(cfg, pc) then 1 else 0
  {
    assert [pc][..0] == [];
  }

  lemma BalancedTicker(cfg: Config, s: State, t: Tid)
    requires Balanced(cfg, s) && CanMove(s, t) && IsTicker(s.threads[t])
    ensures Balanced(cfg, MoveTicker(s, t))
  {
    var pc, s' := s.threads[t], MoveTicker(s, t);
    CountUpdate(cfg, s.threads, t, s'.threads[t]);
    if pc.TickApps? && pc.apps != [] && OfApp(pc.apps[0]) !in s.locks {
      SingleCount(cfg, LifeRun(pc.apps[0]));
      CountAppend(cfg, s.threads[t := s'.threads[t]], [LifeRun(pc.apps[0])]);
    }
  }

  /** Threads that owe nothing do not count. */
  lemma CountUnchanged(cfg: Config, threads: seq<Pc>, threads': seq<Pc>, t: nat)
    requires t < |threads| <= |threads'| && !Pending(cfg, threads[t]) && !Pending(cfg, threads'[t])
    requires forall u | 0 <= u < |threads| && u != t :: threads'[u] == threads[u]
    requires forall u | |threads| <= u < |threads'| :: !Pending(cfg, threads'[u])
    ensures Count(cfg, threads') == Count(cfg, threads)
  {
    var more := threads'[|threads|..];
    CountUpdate(cfg, threads, t, threads'[t]);
    CountZero(cfg, more);
    CountAppend(cfg, threads[t := threads'[t]], more);
    assert threads' == threads[t := threads'[t]] + more;
  }

  lemma BalancedRepoRequest(cfg: Config, s: State, t: Tid)
    requires Balanced(cfg, s) && CanMove(s, t) && IsRepoRequest(s.threads[t])
    ensures Balanced(cfg, MoveRepoRequest(cfg, s, t))
  {
    var s' := MoveRepoRequest(cfg, s, t);
    hide MoveRepoRequest, Count;
    RepoRequestEffect(cfg, s, t, t);
    forall u: Tid | u < |s'.threads| && u != t
      ensures if u < |s.threads| then s'.threads[u] == s.threads[u] else !Pending(cfg, s'.threads[u])
    {
      RepoRequestEffect(cfg, s, t, u);
    }
    CountUnchanged(cfg, s.threads, s'.threads, t);
  }

  /** A goroutine ends the way the configuration says. */
  ghost predicate ExitOrder(cfg: Config, s: State) {
    forall pc <- s.threads :: (pc.LifeUnlock? ==> cfg.doneFirst) && (pc.LifeSignal? ==> !cfg.doneFirst)
  }

  lemma ExitOrderMove(cfg: Config, s: State, t: Tid)
    requires Accounted(s) && ExitOrder(cfg, s) && CanMove(s, t)
    ensures ExitOrder(cfg, MoveThread(cfg, s, t))
  {
    var s' := MoveThread(cfg, s, t);
    forall u: Tid | u < |s'.threads|
      ensures s'.threads[u].LifeUnlock? ==> cfg.doneFirst
      ensures s'.threads[u].LifeSignal? ==> !cfg.doneFirst
    {
      MoveFrame(cfg, s, t, u, HandlerLock);
      if u == t {
        ExitOrderMover(cfg, s, t);
      } else if u < |s.threads| {
        assert s.threads[u] in s.threads;
      }
    }
  }

  lemma ExitOrderMover(cfg: Config, s: State, t: Tid)
    requires CanMove(s, t) && t < |MoveThread(cfg, s, t).threads|
    ensures MoveThread(cfg, s, t).threads[t].LifeUnlock? ==> cfg.doneFirst
    ensures MoveThread(cfg, s, t).threads[t].LifeSignal? ==> !cfg.doneFirst
  {
    hide MoveTicker, MoveRepoRequest, MoveAppRequest;
    if IsTicker(s.threads[t]) {
      TickerEffect(s, t, t, HandlerLock);
    } else if IsAppRequest(s.threads[t]) {
      AppRequestEffect(cfg, s, t, t);
    } else if IsRepoRequest(s.threads[t]) {
      RepoRequestEffect(cfg, s, t, t);
    }
  }

  lemma ExitOrderKept(cfg: Config, s: State, step: Step)
    requires Accounted(s) && ExitOrder(cfg, s) && Enabled(s, step)
    ensures ExitOrder(cfg, Next(cfg, s, step))
  {
    hide MoveThread, RequestThread;
    if step.Move? {
      ExitOrderMove(cfg, s, step.t);
    } else if step.StartTick? {
    } else if RequestThread(s, step).Some? {
      RequestsOweNothing(cfg, s, step);
    }
  }

  lemma BalancedMove(cfg: Config, s: State, t: Tid)
    requires Balanced(cfg, s) && ExitOrder(cfg, s) && CanMove(s, t)
    ensures Balanced(cfg, MoveThread(cfg, s, t))
  {
    hide MoveTicker, MoveRepoRequest;
    if IsTicker(s.threads[t]) {
      BalancedTicker(cfg, s, t);
    } else if IsRepoRequest(s.threads[t]) {
      BalancedRepoRequest(cfg, s, t);
    } else {
      assert s.threads[t] in s.threads;
      CountUpdate(cfg, s.threads, t, MoveThread(cfg, s, t).threads[t]);
    }
  }

  lemma BalancedSpawn(cfg: Config, s: State, pc: Pc)
    requires Balanced(cfg, s) && !Pending(cfg, pc)
    ensures Balanced(cfg, Spawn(s, pc))
  {
    SingleCount(cfg, pc);
    CountAppend(cfg, s.threads, [pc]);
  }

  lemma RequestsOweNothing(cfg: Config, s: State, step: Step)
    requires RequestThread(s, step).Some?
    ensures var pc := RequestThread(s, step).value; !Pending(cfg, pc) && !pc.LifeUnlock? && !pc.LifeSignal?
  {
  }

  lemma BalancedKept(cfg: Config, s: State, step: Step)
    requires Balanced(cfg, s) && ExitOrder(cfg, s) && Enabled(s, step)
    ensures Balanced(cfg, Next(cfg, s, step))
  {
    hide MoveThread, RequestThread, Balanced, ExitOrder;
    match step
    case StartTick => BalancedStart(cfg, s);
    case Move(t) => BalancedMove(cfg, s, t);
    case _ =>
      if RequestThread(s, step).Some? {
        RequestsOweNothing(cfg, s, step);
        BalancedSpawn(cfg, s, RequestThread(s, step).value);
      }
  }

  lemma BalancedStart(cfg: Config, s: State)
    requires Balanced(cfg, s) && Enabled(s, StartTick)
    ensures Balanced(cfg, Next(cfg, s, StartTick))
  {
    CountUpdate(cfg, s.threads, 0, TickRepos(s.repos));
  }

  /*---------- which applications a tick still has to visit ----------*/

  /** As long as the busy branch has not been taken: between ticks nobody owes a Done, and
  during a tick no application that is still to be visited is running. */
  ghost predicate VisitedOnce(cfg: Config, s: State) {
    s.busy == 0 && |s.threads| > 0 ==>
      match s.threads[0]
      case TickIdle => forall pc <- s.threads :: !Pending(cfg, pc)
      case TickRepos(todo) =>
        forall a | LifeRun(a) in s.threads :: forall q <- todo | q in s.apps :: a !in s.apps[q]
      case TickApps(_, apps, todo) =>
        forall a | LifeRun(a) in s.threads :: a !in apps && forall q <- todo | q in s.apps :: a !in s.apps[q]
      case _ => true
  }

  /** A running goroutine after a move of another thread than the ticker ran before, and no
  list has gained a running application. */
  lemma OthersKeepVisited(cfg: Config, s: State, t: Tid, a: AppId, q: RepoId)
    requires Invariant(s) && CanMove(s, t) && t != 0
    requires LifeRun(a) in MoveThread(cfg, s, t).threads
    ensures LifeRun(a) in s.threads
    ensures q in MoveThread(cfg, s, t).apps && a in MoveThread(cfg, s, t).apps[q] ==> q in s.apps && a in s.apps[q]
  {
    var s' := MoveThread(cfg, s, t);
    var u: Tid :| u < |s'.threads| && s'.threads[u] == LifeRun(a);
    MoveFrame(cfg, s, t, u, HandlerLock);
    OthersStartNoLife(cfg, s, t, u, a);
    assert s.threads[u] == LifeRun(a);
    assert OfApp(a) in Holds(s.threads[u]);
    ListsFrame(cfg, s, t, q, a);
  }

  lemma OthersStartNoLife(cfg: Config, s: State, t: Tid, u: Tid, a: AppId)
    requires Invariant(s) && CanMove(s, t) && t != 0
    requires u < |MoveThread(cfg, s, t).threads| && MoveThread(cfg, s, t).threads[u] == LifeRun(a)
    ensures u < |s.threads| && u != t
  {
    hide MoveTicker, MoveAppRequest, MoveRepoRequest, MoveLife;
    assert !IsTicker(s.threads[t]);
    if IsAppRequest(s.threads[t]) {
      AppRequestEffect(cfg, s, t, u);
    } else if IsRepoRequest(s.threads[t]) {
      RepoRequestEffect(cfg, s, t, u);
      RepoRequestEffect(cfg, s, t, t);
    } else {
      LifeEffect(cfg, s, t, u, HandlerLock);
    }
  }

  lemma VisitedByOthers(cfg: Config, s: State, t: Tid)
    requires Invariant(s) && Balanced(cfg, s) && ExitOrder(cfg, s) && VisitedOnce(cfg, s) && CanMove(s, t) && t != 0
    ensures VisitedOnce(cfg, MoveThread(cfg, s, t))
  {
    var s' := MoveThread(cfg, s, t);
    MoveFrame(cfg, s, t, 0, HandlerLock);
    OthersDoneOnly(cfg, s, t);
    hide MoveThread, Invariant, Balanced;
    if s'.busy == 0 {
      if s.threads[0].TickIdle? {
        IdleOwesNothing(cfg, s, t);
      } else {
        forall a, q | LifeRun(a) in s'.threads && q in s'.apps && a in s'.apps[q]
          ensures LifeRun(a) in s.threads && q in s.apps && a in s.apps[q]
        {
          OthersKeepVisited(cfg, s, t, a, q);
        }
        forall a | LifeRun(a) in s'.threads ensures LifeRun(a) in s.threads {
          OthersKeepVisited(cfg, s, t, a, RepoId("", "", 0));
        }
      }
    }
  }

  lemma IdleOwesNothing(cfg: Config, s: State, t: Tid)
    requires Invariant(s) && Balanced(cfg, s) && ExitOrder(cfg, s) && CanMove(s, t) && t != 0
    requires MoveThread(cfg, s, t).busy == s.busy == 0 && MoveThread(cfg, s, t).wg <= s.wg
    requires forall pc <- s.threads :: !Pending(cfg, pc)
    ensures forall pc <- MoveThread(cfg, s, t).threads :: !Pending(cfg, pc)
  {
    BalancedMove(cfg, s, t);
    hide MoveThread, Invariant;
    CountZero(cfg, s.threads);
    CountZero(cfg, MoveThread(cfg, s, t).threads);
  }

  /** Other threads than the ticker never raise the counter and never take its busy branch. */
  lemma OthersDoneOnly(cfg: Config, s: State, t: Tid)
    requires Invariant(s) && CanMove(s, t) && t != 0
    ensures MoveThread(cfg, s, t).busy == s.busy && MoveThread(cfg, s, t).wg <= s.wg
  {
    assert !IsTicker(s.threads[t]);
  }

  lemma VisitedByTicker(cfg: Config, s: State)
    requires Invariant(s) && Balanced(cfg, s) && ExitOrder(cfg, s) && VisitedOnce(cfg, s) && CanMove(s, 0)
    ensures VisitedOnce(cfg, MoveThread(cfg, s, 0))
  {
    var pc, s' := s.threads[0], MoveThread(cfg, s, 0);
    assert pc in s.threads && Fits(s, pc);
    assert IsTicker(pc);
    TickerEffect(s, 0, 0, HandlerLock);
    forall a | LifeRun(a) in s'.threads
      ensures || LifeRun(a) in s.threads
              || (pc.TickApps? && pc.apps != [] && pc.apps[0] == a && |s'.threads| > |s.threads|)
    {
      var u: Tid :| u < |s'.threads| && s'.threads[u] == LifeRun(a);
      TickerEffect(s, 0, u, HandlerLock);
    }
    if pc.TickWait? {
      BalancedMove(cfg, s, 0);
      CountZero(cfg, s'.threads);
    } else {
      TickerLeavesVisited(cfg, s, s');
    }
  }

  /** The ticker's own progress: what it takes off its lists it has visited. */
  lemma TickerLeavesVisited(cfg: Config, s: State, s': State)
    requires ListsDistinct(s) && VisitedOnce(cfg, s) && CanMove(s, 0) && IsTicker(s.threads[0])
    requires !s.threads[0].TickWait? && Fits(s, s.threads[0])
    requires s' == MoveTicker(s, 0)
    requires forall a | LifeRun(a) in s'.threads ::
               || LifeRun(a) in s.threads
               || (s.threads[0].TickApps? && s.threads[0].apps != [] && s.threads[0].apps[0] == a
                   && |s'.threads| > |s.threads|)
    ensures VisitedOnce(cfg, s')
  {
    match s.threads[0]
    case TickRepos(todo) =>
      if todo != [] {
        assert todo[0] in todo;
        assert forall q <- todo[1..] :: q in todo;
      }
    case TickApps(r, apps, todo) =>
      if apps != [] {
        assert apps[0] in apps;
        assert forall a <- apps[1..] :: a in apps;
        assert forall i | 0 <= i < |apps[1..]| :: apps[1..][i] == apps[i + 1];
      }
  }

  lemma VisitedKept(cfg: Config, s: State, step: Step)
    requires Invariant(s) && Balanced(cfg, s) && ExitOrder(cfg, s) && VisitedOnce(cfg, s) && Enabled(s, step)
    ensures VisitedOnce(cfg, Next(cfg, s, step))
  {
    var s' := Next(cfg, s, step);
    hide MoveThread, Invariant;
    match step
    case Move(t) =>
      if t == 0 { VisitedByTicker(cfg, s); } else { VisitedByOthers(cfg, s, t); }
    case StartTick =>
      forall a ensures LifeRun(a) !in s'.threads || s.busy > 0 {
        if LifeRun(a) in s'.threads {
          OtherStepThreads(cfg, s, step);
          assert LifeRun(a) in s.threads;
        }
      }
    case _ =>
      OtherStepThreads(cfg, s, step);
      if RequestThread(s, step).Some? {
        assert !Pending(cfg, RequestThread(s, step).value);
        assert |s.threads| > 0 ==> s'.threads[0] == s.threads[0];
      }
  }

  ghost predicate Reachable(cfg: Config, s: State) {
    Invariant(s) && UninstalledStayOut(s) && Balanced(cfg, s) && ExitOrder(cfg, s) && VisitedOnce(cfg, s)
  }

  lemma InvariantAccounts(s: State)
    requires Invariant(s)
    ensures Accounted(s)
  {
  }

  lemma InitiallyReachable(cfg: Config)
    ensures Reachable(cfg, INITIAL)
  {
    InitialStaysOut();
    SingleCount(cfg, TickIdle);
  }

  lemma ReachableKept(cfg: Config, s: State, step: Step)
    requires Reachable(cfg, s) && Enabled(s, step)
    ensures Reachable(cfg, Next(cfg, s, step))
  {
    hide Next, Enabled, Invariant, UninstalledStayOut, Balanced, VisitedOnce, ExitOrder, Accounted;
    InvariantKept(cfg, s, step);
    StayOutKept(cfg, s, step);
    BalancedKept(cfg, s, step);
    InvariantAccounts(s);
    ExitOrderKept(cfg, s, step);
    VisitedKept(cfg, s, step);
  }

  lemma {:induction false} ReachableAlong(cfg: Config, states: seq<State>, steps: seq<Step>, n: nat)
    requires Run(cfg, states, steps) && states[0] == INITIAL && n < |states|
    ensures Reachable(cfg, states[n])
  {
    InitiallyReachable(cfg);
    hide Next, Enabled, INITIAL, Reachable;
    if n > 0 {
      ReachableAlong(cfg, states, steps, n - 1);
      ReachableKept(cfg, states[n - 1], steps[n - 1]);
    }
  }

  /*---------- theorems ----------*/

  /** The ticker is about to find an application locked. */
  predicate AtBusyBranch(s: State) {
    && |s.threads| > 0 && s.threads[0].TickApps? && s.threads[0].apps != []
    && OfApp(s.threads[0].apps[0]) in s.locks
  }

  /** The application is held by a goroutine that has signalled Done and not yet unlocked. */
  predicate HeldByLingering(s: State, a: AppId) {
    OfApp(a) in s.locks && s.locks[OfApp(a)] < |s.threads| && s.threads[s.locks[OfApp(a)]] == LifeUnlock(a)
  }

  /** The busy branch.  In every reachable state in which it has not been taken before, the
  counter equals the number of goroutines that owe a Done; and the ticker finds a listed
  application locked only when a goroutine of an earlier tick has signalled Done but not yet
  unlocked it, never because of a request. */
  lemma BusyOnlyForLingeringGoroutine(cfg: Config, states: seq<State>, steps: seq<Step>, n: nat)
    requires Run(cfg, states, steps) && states[0] == INITIAL && n < |states| && states[n].busy == 0
    ensures states[n].wg == Count(cfg, states[n].threads)
    ensures AtBusyBranch(states[n]) ==> cfg.doneFirst && HeldByLingering(states[n], states[n].threads[0].apps[0])
  {
    hide Run;
    ReachableAlong(cfg, states, steps, n);
    if AtBusyBranch(states[n]) {
      HolderOfVisited(cfg, states[n]);
    }
  }

  lemma HolderOfVisited(cfg: Config, s: State)
    requires Reachable(cfg, s) && s.busy == 0 && AtBusyBranch(s)
    ensures cfg.doneFirst && HeldByLingering(s, s.threads[0].apps[0])
  {
    var a, r := s.threads[0].apps[0], s.threads[0].repo;
    var u := s.locks[OfApp(a)];
    assert s.threads[0] in s.threads && Fits(s, s.threads[0]) && a in s.threads[0].apps;
    TickerSparesUninstalled(s, r, a);
    assert s.threads[u] in s.threads && Fits(s, s.threads[u]);
    assert OfApp(a) in Holds(s.threads[u]);
    if s.threads[u].AppUpdReplace? {
      assert a in s.apps[s.threads[u].repo];
      OneHolder(s, 0, u, OfRepo(r));
    }
  }

  /** With the two deferred calls in the other order (unlock, then Done) the busy branch is
  unreachable and the counter is never negative. */
  lemma {:induction false} UnlockBeforeDoneIsSafe(cfg: Config, states: seq<State>, steps: seq<Step>, n: nat)
    requires !cfg.doneFirst
    requires Run(cfg, states, steps) && states[0] == INITIAL && n < |states|
    ensures states[n].busy == 0 && states[n].wg == Count(cfg, states[n].threads)
  {
    hide Next, Enabled, INITIAL;
    if n > 0 {
      UnlockBeforeDoneIsSafe(cfg, states, steps, n - 1);
      BusyOnlyForLingeringGoroutine(cfg, states, steps, n - 1);
      ReachableAlong(cfg, states, steps, n - 1);
      BusyGrowsAtBusyBranch(cfg, states[n - 1], steps[n - 1]);
    } else {
      InitiallyIdle(states[0]);
    }
    BusyOnlyForLingeringGoroutine(cfg, states, steps, n);
  }

  lemma InitiallyIdle(s: State)
    requires s == INITIAL
    ensures s.busy == 0
  {
  }

  lemma BusyGrowsAtBusyBranch(cfg: Config, s: State, step: Step)
    requires Roles(s) && Enabled(s, step) && !AtBusyBranch(s)
    ensures Next(cfg, s, step).busy == s.busy
  {
  }
}
