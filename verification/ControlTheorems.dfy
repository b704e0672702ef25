/** Safety of the control plane over whole runs: exclusion, no resurrection, and the WaitGroup. */
module ControlTheorems {
  import opened Prelude
  import opened ControlPlane
  import opened ControlInvariant

  /*---------- exclusion ----------*/

  /** The application a thread is running, uninstalling or replacing. */
  function WorksOn(pc: Pc): Option<AppId> {
    match pc
    case LifeRun(a) => Some(a)
    case ChildUninstall(_, a) => Some(a)
    case AppUpdReplace(_, _, a, _) => Some(a)
    case AppDelUninstall(_, _, a) => Some(a)
    case _ => None
  }

  /** In every reachable state at most one thread runs, uninstalls or replaces an application,
  whatever the configuration. */
  lemma OneWorkerPerApplication(cfg: Config, states: seq<State>, steps: seq<Step>, n: nat, t: Tid, u: Tid)
    requires Run(cfg, states, steps) && states[0] == INITIAL && n < |states|
    requires t < |states[n].threads| && u < |states[n].threads|
    requires WorksOn(states[n].threads[t]).Some? && WorksOn(states[n].threads[t]) == WorksOn(states[n].threads[u])
    ensures t == u
  {
    InvariantAlong(cfg, states, steps, n);
    OneHolder(states[n], t, u, OfApp(WorksOn(states[n].threads[t]).value));
  }

  /*---------- no resurrection ----------*/

  /** Wherever the instance is still listed, its repository has been dropped, or is locked by
  the deletion in progress. */
  ghost predicate Removed(s: State, a: AppId) {
    forall r | r in s.apps && a in s.apps[r] ::
      r !in s.repos || DelRepoJoin(r) in s.threads || exists i :: AppDelUninstall(r, i, a) in s.threads
  }

  ghost predicate UninstalledStayOut(s: State) {
    && (forall a <- s.uninstalled :: Removed(s, a) && LifeRun(a) !in s.threads)
    && (forall l | Leaked(s, l) && l.OfApp? :: l.app in s.uninstalled)
  }

  lemma ThreadStays(s: State, s': State, t: Tid, pc: Pc)
    requires t < |s.threads| && pc in s.threads && pc != s.threads[t]
    requires forall u :: OnlyMoves(s, s', t, u)
    ensures pc in s'.threads
  {
    var u :| 0 <= u < |s.threads| && s.threads[u] == pc;
    assert OnlyMoves(s, s', t, u);
    assert s'.threads[u] == pc;
  }

  /** An instance that the ticker is about to start is not being uninstalled. */
  lemma TickerSparesUninstalled(s: State, r: RepoId, a: AppId)
    requires Invariant(s) && UninstalledStayOut(s)
    requires s.threads[0].TickApps? && s.threads[0].repo == r && a in s.threads[0].apps
    ensures a !in s.uninstalled
  {
    assert s.threads[0] in s.threads && Fits(s, s.threads[0]);
    if a in s.uninstalled {
      assert Removed(s, a);
      if DelRepoJoin(r) in s.threads {
        var u :| 0 <= u < |s.threads| && s.threads[u] == DelRepoJoin(r);
        OneHolder(s, 0, u, HandlerLock);
      } else {
        var i :| AppDelUninstall(r, i, a) in s.threads;
        var u :| 0 <= u < |s.threads| && s.threads[u] == AppDelUninstall(r, i, a);
        OneHolder(s, 0, u, OfRepo(r));
      }
    }
  }

  /** A thread that ends with an application still locked was uninstalling it. */
  lemma EndsHolding(cfg: Config, s: State, t: Tid, a: AppId)
    requires CanMove(s, t) && OfApp(a) in Holds(s.threads[t])
    requires t < |MoveThread(cfg, s, t).threads| && MoveThread(cfg, s, t).threads[t].Ended?
    requires OfApp(a) in MoveThread(cfg, s, t).locks
    ensures s.threads[t].ChildUninstall? || s.threads[t].AppDelUninstall?
    ensures s.threads[t].app == a
  {
  }

  /** Only uninstalled applications stay locked after their thread has ended. */
  lemma LeaksUninstalled(cfg: Config, s: State, t: Tid, l: Lock)
    requires Invariant(s) && CanMove(s, t) && Leaked(MoveThread(cfg, s, t), l) && l.OfApp?
    ensures Leaked(s, l) || l.app in s.uninstalled
  {
    var s' := MoveThread(cfg, s, t);
    var u := s'.locks[l];
    MoveFrame(cfg, s, t, u, l);
    if u == t {
      assert l in Holds(s.threads[t]);
      EndsHolding(cfg, s, t, l.app);
      assert s.threads[t] in s.threads && Fits(s, s.threads[t]);
    }
  }

  /** What any move leaves alone, for one thread and one lock. */
  lemma MoveFrame(cfg: Config, s: State, t: Tid, u: Tid, l: Lock)
    requires Accounted(s) && CanMove(s, t)
    ensures var s' := MoveThread(cfg, s, t);
            && OnlyMoves(s, s', t, u)
            && (|s.threads| <= u < |s'.threads| ==> s'.threads[u].LifeRun? || s'.threads[u].ChildWait?)
            && (l in s.locks && l in s'.locks ==> s'.locks[l] == s.locks[l])
            && (l in s'.locks && l !in s.locks ==> s'.locks[l] < |s'.threads| && !s'.threads[s'.locks[l]].Ended?)
            && (l in s'.locks && l in s.locks && s.locks[l] == t ==> l in Holds(s.threads[t]))
  {
    hide MoveTicker, MoveAppRequest, MoveRepoRequest, MoveLife;
    if IsTicker(s.threads[t]) {
      TickerEffect(s, t, u, l);
    } else if IsAppRequest(s.threads[t]) {
      AppRequestEffect(cfg, s, t, u);
      AppRequestLocks(cfg, s, t, l);
    } else if IsRepoRequest(s.threads[t]) {
      RepoRequestEffect(cfg, s, t, u);
      RepoRequestEffect(cfg, s, t, t);
      RepoRequestLocks(cfg, s, t, l);
    } else {
      LifeEffect(cfg, s, t, u, l);
    }
  }

  lemma AppRequestListsFrame(cfg: Config, s: State, t: Tid, r: RepoId, a: AppId)
    requires Invariant(s) && CanMove(s, t) && IsAppRequest(s.threads[t])
    ensures var s' := MoveAppRequest(cfg, s, t);
            && (r in s'.apps && a in s'.apps[r] ==> (r in s.apps && a in s.apps[r]) || Unused(s, a))
            && (s.threads[t].AppDelUninstall? && s.threads[t].repo == r && s.threads[t].app == a && r in s'.apps ==>
                  a !in s'.apps[r])
            && s.uninstalled <= s'.uninstalled
            && (a in s'.uninstalled && a !in s.uninstalled ==>
                  s.threads[t].AppDelWaitApp? && s.threads[t].app == a && OfApp(a) !in s.locks
                  && AppDelUninstall(s.threads[t].repo, s.threads[t].i, a) in s'.threads)
  {
    var pc, s' := s.threads[t], MoveAppRequest(cfg, s, t);
    assert pc in s.threads && Fits(s, pc);
    if pc.AppDelUninstall? {
      SwapRemoveDropsOne(s.apps[pc.repo], pc.i);
    } else if pc.AppDelWaitApp? {
      assert s'.threads[t] == AppDelUninstall(pc.repo, pc.i, pc.app);
    }
  }

  lemma RepoRequestListsFrame(cfg: Config, s: State, t: Tid, r: RepoId, a: AppId)
    requires Invariant(s) && CanMove(s, t) && IsRepoRequest(s.threads[t])
    ensures var s' := MoveRepoRequest(cfg, s, t);
            && (r in s'.apps && a in s'.apps[r] ==> r in s.apps && a in s.apps[r])
            && (r in s'.repos ==> r in s.repos || r !in s.apps)
            && (s.threads[t] == DelRepoJoin(r) ==> r !in s'.repos)
            && s.uninstalled <= s'.uninstalled
            && (a in s'.uninstalled && a !in s.uninstalled ==>
                  s.threads[t].ChildWait? && s.threads[t].app == a && OfApp(a) !in s.locks && s'.apps == s.apps)
  {
    var pc := s.threads[t];
    assert pc in s.threads && Fits(s, pc);
    if pc.DelRepoJoin? {
      SwapRemoveDropsOne(s.repos, IndexOf(s.repos, pc.repo));
    }
  }

  lemma ListsFrame(cfg: Config, s: State, t: Tid, r: RepoId, a: AppId)
    requires Invariant(s) && CanMove(s, t)
    ensures var s' := MoveThread(cfg, s, t);
            && (r in s'.apps && a in s'.apps[r] ==> (r in s.apps && a in s.apps[r]) || Unused(s, a))
            && (r in s'.repos ==> r in s.repos || r !in s.apps)
            && (s.threads[t] == DelRepoJoin(r) ==> r !in s'.repos)
            && (s.threads[t].AppDelUninstall? && s.threads[t].repo == r && s.threads[t].app == a && r in s'.apps ==>
                  a !in s'.apps[r])
            && s.uninstalled <= s'.uninstalled
  {
    hide MoveTicker, MoveAppRequest, MoveRepoRequest, MoveLife, Invariant;
    if IsTicker(s.threads[t]) {
      TickerEffect(s, t, t, HandlerLock);
    } else if IsAppRequest(s.threads[t]) {
      AppRequestEffect(cfg, s, t, t);
      AppRequestListsFrame(cfg, s, t, r, a);
    } else if IsRepoRequest(s.threads[t]) {
      RepoRequestListsFrame(cfg, s, t, r, a);
    } else {
      LifeEffect(cfg, s, t, t, HandlerLock);
    }
  }

  /** The step that begins an uninstall finds the instance unlocked and protects its list. */
  lemma UninstallBegins(cfg: Config, s: State, t: Tid, a: AppId)
    requires Invariant(s) && CanMove(s, t)
    requires a in MoveThread(cfg, s, t).uninstalled && a !in s.uninstalled
    ensures OfApp(a) !in s.locks && Removed(MoveThread(cfg, s, t), a)
  {
    var pc, s' := s.threads[t], MoveThread(cfg, s, t);
    assert pc in s.threads && Fits(s, pc);
    hide MoveTicker, MoveAppRequest, MoveRepoRequest, MoveLife;
    if IsTicker(pc) {
      TickerEffect(s, t, t, HandlerLock);
    } else if IsAppRequest(pc) {
      AppRequestListsFrame(cfg, s, t, pc.repo, a);
      forall r | r in s'.apps && a in s'.apps[r] ensures r == pc.repo {
        AppRequestListsFrame(cfg, s, t, r, a);
        assert s.apps[pc.repo][pc.i] in s.apps[pc.repo];
        assert Listed(s, a);
      }
    } else if IsRepoRequest(pc) {
      RepoRequestListsFrame(cfg, s, t, pc.repo, a);
      var v :| 0 <= v < |s.threads| && s.threads[v] == DelRepoJoin(pc.repo);
      RepoRequestEffect(cfg, s, t, v);
      assert s'.threads[v] == DelRepoJoin(pc.repo);
    } else {
      LifeEffect(cfg, s, t, t, HandlerLock);
    }
  }

  lemma RemovedKept(cfg: Config, s: State, t: Tid, a: AppId)
    requires Invariant(s) && UninstalledStayOut(s) && CanMove(s, t) && a in s.uninstalled
    ensures Removed(MoveThread(cfg, s, t), a)
  {
    var s' := MoveThread(cfg, s, t);
    hide MoveThread, Fits;
    forall r | r in s'.apps && a in s'.apps[r]
      ensures r !in s'.repos || DelRepoJoin(r) in s'.threads || exists i :: AppDelUninstall(r, i, a) in s'.threads
    {
      ListsFrame(cfg, s, t, r, a);
      forall u ensures OnlyMoves(s, s', t, u) { MoveFrame(cfg, s, t, u, HandlerLock); }
      assert Removed(s, a);
      if r in s.repos {
        if DelRepoJoin(r) in s.threads {
          if s.threads[t] != DelRepoJoin(r) {
            ThreadStays(s, s', t, DelRepoJoin(r));
          }
        } else {
          var i :| AppDelUninstall(r, i, a) in s.threads;
          ThreadStays(s, s', t, AppDelUninstall(r, i, a));
        }
      }
    }
  }

  /** A lifecycle goroutine after the move was there before, or the ticker has just started it
  on an application that is not being uninstalled. */
  lemma NoLifeOfUninstalled(cfg: Config, s: State, t: Tid, a: AppId)
    requires Invariant(s) && UninstalledStayOut(s) && CanMove(s, t)
    requires a in MoveThread(cfg, s, t).uninstalled
    ensures LifeRun(a) !in MoveThread(cfg, s, t).threads
  {
    var s' := MoveThread(cfg, s, t);
    hide Fits;
    NotRunningBefore(cfg, s, t, a);
    forall u: Tid | u < |s'.threads| ensures s'.threads[u] != LifeRun(a) {
      MoveFrame(cfg, s, t, u, HandlerLock);
      if u < |s.threads| && u != t {
        assert s.threads[u] in s.threads;
      } else {
        NewLifeIsTickers(cfg, s, t, u, a);
      }
    }
  }

  lemma NotRunningBefore(cfg: Config, s: State, t: Tid, a: AppId)
    requires Invariant(s) && UninstalledStayOut(s) && CanMove(s, t)
    requires a in MoveThread(cfg, s, t).uninstalled
    ensures LifeRun(a) !in s.threads
  {
    if a !in s.uninstalled {
      UninstallBegins(cfg, s, t, a);
      forall u: Tid | u < |s.threads| ensures s.threads[u] != LifeRun(a) {
        assert OfApp(a) !in Holds(s.threads[u]);
      }
    }
  }

  lemma NewLifeIsTickers(cfg: Config, s: State, t: Tid, u: Tid, a: AppId)
    requires Invariant(s) && UninstalledStayOut(s) && CanMove(s, t)
    requires u == t || u >= |s.threads|
    requires u < |MoveThread(cfg, s, t).threads| && a in MoveThread(cfg, s, t).uninstalled
    ensures MoveThread(cfg, s, t).threads[u] != LifeRun(a)
  {
    hide MoveTicker, MoveAppRequest, MoveRepoRequest, MoveLife;
    if IsTicker(s.threads[t]) {
      TickerEffect(s, t, u, HandlerLock);
      if u >= |s.threads| {
        assert s.threads[t].apps[0] in s.threads[t].apps;
        if s.threads[t].apps[0] in s.uninstalled {
          TickerSparesUninstalled(s, s.threads[t].repo, s.threads[t].apps[0]);
        }
      }
    } else if IsAppRequest(s.threads[t]) {
      AppRequestEffect(cfg, s, t, u);
    } else if IsRepoRequest(s.threads[t]) {
      RepoRequestEffect(cfg, s, t, u);
      RepoRequestEffect(cfg, s, t, t);
    } else {
      LifeEffect(cfg, s, t, u, HandlerLock);
    }
  }

  lemma StayOutKept(cfg: Config, s: State, step: Step)
    requires Invariant(s) && UninstalledStayOut(s) && Enabled(s, step)
    ensures UninstalledStayOut(Next(cfg, s, step)) && s.uninstalled <= Next(cfg, s, step).uninstalled
  {
    var s' := Next(cfg, s, step);
    hide Fits, Invariant;
    if step.Move? {
      hide MoveThread, Removed;
      forall a <- s'.uninstalled ensures Removed(s', a) && LifeRun(a) !in s'.threads {
        NoLifeOfUninstalled(cfg, s, step.t, a);
        if a in s.uninstalled {
          RemovedKept(cfg, s, step.t, a);
        } else {
          UninstallBegins(cfg, s, step.t, a);
        }
      }
      forall l | Leaked(s', l) && l.OfApp? ensures l.app in s'.uninstalled {
        LeaksUninstalled(cfg, s, step.t, l);
        ListsFrame(cfg, s, step.t, RepoId("", "", 0), l.app);
      }
      ListsFrame(cfg, s, step.t, RepoId("", "", 0), AppId("", 0));
    } else {
      assert s'.apps == s.apps && s'.repos == s.repos && s'.uninstalled == s.uninstalled;
      OtherStepThreads(cfg, s, step);
      forall a <- s'.uninstalled ensures Removed(s', a) && LifeRun(a) !in s'.threads {
        assert Removed(s, a);
      }
      forall l | Leaked(s', l) && l.OfApp? ensures l.app in s'.uninstalled {
        OtherStepLeaks(cfg, s, step, l);
      }
    }
  }

  lemma OtherStepThreads(cfg: Config, s: State, step: Step)
    requires Enabled(s, step) && !step.Move?
    ensures forall pc | pc in s.threads && !IsTicker(pc) :: pc in Next(cfg, s, step).threads
    ensures forall a | LifeRun(a) in Next(cfg, s, step).threads :: LifeRun(a) in s.threads
  {
    var s' := Next(cfg, s, step);
    assert forall u: Tid | u < |s.threads| && !IsTicker(s.threads[u]) :: s'.threads[u] == s.threads[u];
  }

  lemma OtherStepLeaks(cfg: Config, s: State, step: Step, l: Lock)
    requires Enabled(s, step) && !step.Move? && Accounted(s) && Leaked(Next(cfg, s, step), l)
    ensures Leaked(s, l)
  {
  }

  lemma InitialStaysOut()
    ensures Invariant(INITIAL) && UninstalledStayOut(INITIAL)
  {
  }

  lemma RemovedDoesNotRun(s: State, a: AppId)
    requires UninstalledStayOut(s) && a in s.uninstalled
    ensures LifeRun(a) !in s.threads
  {
  }

  lemma {:induction false} StayOutAlong(cfg: Config, states: seq<State>, steps: seq<Step>, n: nat)
    requires Run(cfg, states, steps) && states[0] == INITIAL && n < |states|
    ensures Invariant(states[n]) && UninstalledStayOut(states[n])
  {
    InitialStaysOut();
    hide Next, Enabled, Invariant, UninstalledStayOut, INITIAL;
    if n > 0 {
      InvariantAlong(cfg, states, steps, n);
      StayOutAlong(cfg, states, steps, n - 1);
      StayOutKept(cfg, states[n - 1], steps[n - 1]);
    }
  }

  /** No resurrection: once an Uninstall of an instance has begun, through DeleteApplication or
  DeleteRepository, no lifecycle call (so no Delivery) runs on it in any continuation, with
  or without the missing unlocks. */
  lemma {:induction false} NoResurrection(cfg: Config, states: seq<State>, steps: seq<Step>, i: nat, j: nat, a: AppId)
    requires Run(cfg, states, steps) && states[0] == INITIAL && i <= j < |states|
    requires a in states[i].uninstalled
    ensures a in states[j].uninstalled && LifeRun(a) !in states[j].threads
    decreases j - i
  {
    hide Next, Enabled, Invariant, UninstalledStayOut, INITIAL;
    StayOutAlong(cfg, states, steps, j);
    if i < j {
      NoResurrection(cfg, states, steps, i, j - 1, a);
      StayOutAlong(cfg, states, steps, j - 1);
      StayOutKept(cfg, states[j - 1], steps[j - 1]);
    }
    RemovedDoesNotRun(states[j], a);
  }
}
