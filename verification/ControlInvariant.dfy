/** What holds in every reachable state of the control plane. */
module ControlInvariant {
  import opened Prelude
  import opened ControlPlane

  /*---------- mutexes ----------*/

  /** Every thread owns the locks its program counter says it holds. */
  ghost predicate Owned(s: State) {
    forall t: Tid, l | t < |s.threads| && l in Holds(s.threads[t]) :: l in s.locks && s.locks[l] == t
  }

  /** A lock that is taken is held by a live thread, or was never released by an ended one. */
  ghost predicate Accounted(s: State) {
    forall l <- s.locks :: s.locks[l] < |s.threads| && (l in Holds(s.threads[s.locks[l]]) || Leaked(s, l))
  }

  predicate Leaked(s: State, l: Lock) {
    l in s.locks && s.locks[l] < |s.threads| && s.threads[s.locks[l]].Ended?
  }

  lemma OneHolder(s: State, t: Tid, u: Tid, l: Lock)
    requires Owned(s) && t < |s.threads| && u < |s.threads|
    requires l in Holds(s.threads[t]) && l in Holds(s.threads[u])
    ensures t == u
  {
    assert s.locks[l] == t;
    assert s.locks[l] == u;
  }

  /** Thread 0 is the ticker and nobody else is. */
  ghost predicate OneTicker(s: State) {
    |s.threads| > 0 && forall t: Tid | t < |s.threads| :: IsTicker(s.threads[t]) <==> t == 0
  }

  /*---------- lists ----------*/

  predicate Listed(s: State, a: AppId) {
    exists r <- s.apps :: a in s.apps[r]
  }

  predicate Distinct<T(==)>(xs: seq<T>) {
    forall i, j | 0 <= i < j < |xs| :: xs[i] != xs[j]
  }

  /** Repositories are listed once, and an application instance has one place. */
  ghost predicate ListsDistinct(s: State) {
    && Distinct(s.repos)
    && (forall r <- s.repos :: r in s.apps)
    && (forall r <- s.apps :: Distinct(s.apps[r]))
    && (forall r, q, a | r in s.apps && q in s.apps && a in s.apps[r] && a in s.apps[q] :: r == q)
  }

  ghost predicate SerialsUsed(s: State) {
    && (forall r <- s.apps :: r.serial < s.serial)
    && (forall r <- s.apps, a <- s.apps[r] :: a.serial < s.serial)
    && (forall a <- s.uninstalled :: a.serial < s.serial)
    && (forall l <- s.locks :: l.OfApp? ==> l.app.serial < s.serial)
  }

  /** The instance has been created but never registered. */
  ghost predicate Unused(s: State, a: AppId) {
    !Listed(s, a) && a !in s.uninstalled && OfApp(a) !in s.locks && a.serial < s.serial
  }

  /** What a thread found before it waited is still so. */
  ghost predicate Fits(s: State, pc: Pc) {
    match pc
    case TickRepos(todo) => Distinct(todo) && forall r <- todo :: r in s.repos
    case TickApps(r, apps, todo) =>
      && r in s.repos && r in s.apps && r !in todo && Distinct(todo) && (forall q <- todo :: q in s.repos)
      && Distinct(apps) && (forall a <- apps :: a in s.apps[r])
    case AddRepoWait(r) => r !in s.apps && r.serial < s.serial
    case AddRepoLocked(r) => r !in s.apps && r.serial < s.serial
    case DelRepoWaitRepo(r) => r in s.repos
    case DelRepoJoin(r) => r in s.repos
    case ChildWait(r, a) => r in s.apps && a in s.apps[r] && DelRepoJoin(r) in s.threads
    case ChildUninstall(r, a) => r in s.apps && a in s.apps[r] && DelRepoJoin(r) in s.threads && a in s.uninstalled
    case AppAddWait(r, a) => r in s.apps && Unused(s, a)
    case AppAddLocked(r, a) => r in s.apps && Unused(s, a)
    case AppUpdWait(r, i, a) => r in s.apps && i < |s.apps[r]| && Unused(s, a)
    case AppUpdWaitApp(r, i, a) => r in s.apps && i < |s.apps[r]| && Unused(s, a)
    case AppUpdReplace(r, i, b, a) => r in s.apps && i < |s.apps[r]| && s.apps[r][i] == b && Unused(s, a)
    case AppDelWait(r, i, a) => r in s.apps && i < |s.apps[r]| && s.apps[r][i] == a
    case AppDelWaitApp(r, i, a) => r in s.apps && i < |s.apps[r]| && s.apps[r][i] == a
    case AppDelUninstall(r, i, a) => r in s.apps && i < |s.apps[r]| && s.apps[r][i] == a && a in s.uninstalled
    case _ => true
  }

  ghost predicate AllFit(s: State) {
    forall pc <- s.threads :: Fits(s, pc)
  }

  ghost predicate OneAppRequest(s: State) {
    forall t: Tid, u: Tid
      | t < |s.threads| && u < |s.threads| && IsAppRequest(s.threads[t]) && IsAppRequest(s.threads[u]) :: t == u
  }

  predicate AddsRepo(pc: Pc, r: RepoId) {
    (pc.AddRepoWait? || pc.AddRepoLocked?) && pc.repo == r
  }

  ghost predicate NewReposDistinct(s: State) {
    forall t: Tid, u: Tid, r
      | t < |s.threads| && u < |s.threads| && AddsRepo(s.threads[t], r) && AddsRepo(s.threads[u], r) :: t == u
  }

  /*---------- what a step leaves alone ----------*/

  /** Only thread `t` changes its program counter. */
  predicate OnlyMoves(s: State, s': State, t: Tid, u: Tid) {
    && |s.threads| <= |s'.threads|
    && (u < |s.threads| && u != t ==> s'.threads[u] == s.threads[u])
  }

  /** A lock stays as it was, or the mover (from `pc` to `pc'`) takes it free, or gives it
  back; a mover that ends may keep what it holds. */
  predicate LockChange(pc: Pc, pc': Pc, locks: map<Lock, Tid>, locks': map<Lock, Tid>, t: Tid, l: Lock) {
    && (l in locks' && l in locks ==> locks'[l] == locks[l])
    && (l in locks' && l !in locks ==> locks'[l] == t && l in Holds(pc'))
    && (l in locks && l !in locks' ==> l in Holds(pc) && l !in Holds(pc'))
    && (l in Holds(pc') && l !in Holds(pc) ==> l !in locks && l in locks')
    && (l in Holds(pc) && l !in Holds(pc') && l in locks' ==> pc'.Ended?)
  }

  predicate LockMoves(s: State, s': State, t: Tid, l: Lock)
    requires t < |s.threads| <= |s'.threads|
  {
    LockChange(s.threads[t], s'.threads[t], s.locks, s'.locks, t, l)
  }

  lemma TakesOne(pc: Pc, pc': Pc, locks: map<Lock, Tid>, k: Lock, t: Tid, l: Lock)
    requires k !in locks && Holds(pc') == Holds(pc) + {k}
    ensures LockChange(pc, pc', locks, locks[k := t], t, l)
  {
  }

  lemma GivesBack(pc: Pc, pc': Pc, locks: map<Lock, Tid>, ls: set<Lock>, t: Tid, l: Lock)
    requires ls <= Holds(pc) && Holds(pc') <= Holds(pc) && Holds(pc') !! ls
    requires Holds(pc) == Holds(pc') + ls || pc'.Ended?
    ensures LockChange(pc, pc', locks, locks - ls, t, l)
  {
  }

  lemma AppRequestEffect(cfg: Config, s: State, t: Tid, u: Tid)
    requires CanMove(s, t) && IsAppRequest(s.threads[t])
    ensures var s' := MoveAppRequest(cfg, s, t);
            && OnlyMoves(s, s', t, u) && |s'.threads| == |s.threads|
            && s'.repos == s.repos && s'.serial == s.serial && s'.wg == s.wg && s'.busy == s.busy
            && (IsAppRequest(s'.threads[t]) || s'.threads[t].Ended?)
  {
  }

  lemma AppRequestTakes(cfg: Config, s: State, t: Tid, l: Lock)
    requires CanMove(s, t) && IsAppRequest(s.threads[t]) && WaitsFor(s, s.threads[t]).Some?
    ensures |MoveAppRequest(cfg, s, t).threads| == |s.threads|
    ensures LockMoves(s, MoveAppRequest(cfg, s, t), t, l)
  {
    var pc, pc' := s.threads[t], MoveAppRequest(cfg, s, t).threads[t];
    hide LockChange;
    TakesOne(pc, pc', s.locks, WaitsFor(s, pc).value, t, l);
  }

  lemma AppRequestLocks(cfg: Config, s: State, t: Tid, l: Lock)
    requires CanMove(s, t) && IsAppRequest(s.threads[t])
    ensures |MoveAppRequest(cfg, s, t).threads| == |s.threads|
    ensures LockMoves(s, MoveAppRequest(cfg, s, t), t, l)
  {
    var pc, pc' := s.threads[t], MoveAppRequest(cfg, s, t).threads[t];
    hide LockChange;
    match pc
    case AppAddLocked(r, _) => GivesBack(pc, pc', s.locks, {OfRepo(r)}, t, l);
    case AppUpdReplace(r, _, a, _) => GivesBack(pc, pc', s.locks, {OfRepo(r), OfApp(a)}, t, l);
    case AppDelUninstall(r, _, a) =>
      GivesBack(pc, pc', s.locks, if cfg.deletionsUnlock then {OfRepo(r), OfApp(a)} else {}, t, l);
    case _ => AppRequestTakes(cfg, s, t, l);
  }

  lemma LifeEffect(cfg: Config, s: State, t: Tid, u: Tid, l: Lock)
    requires CanMove(s, t) && (s.threads[t].LifeRun? || s.threads[t].LifeUnlock? || s.threads[t].LifeSignal?)
    ensures var s' := MoveLife(cfg, s, t);
            && OnlyMoves(s, s', t, u) && LockMoves(s, s', t, l)
            && |s'.threads| == |s.threads|
            && s'.repos == s.repos && s'.apps == s.apps && s'.uninstalled == s.uninstalled
            && s'.serial == s.serial && s'.busy == s.busy
            && (s'.threads[t].Ended? || s'.threads[t].LifeUnlock? || s'.threads[t].LifeSignal?)
            && (l in s'.locks ==> l in s.locks)
  {
  }

  lemma TickerEffect(s: State, t: Tid, u: Tid, l: Lock)
    requires CanMove(s, t) && IsTicker(s.threads[t])
    ensures var s' := MoveTicker(s, t);
            && OnlyMoves(s, s', t, u)
            && (|s'.threads| == |s.threads| ==> LockMoves(s, s', t, l))
            && s'.repos == s.repos && s'.apps == s.apps && s'.uninstalled == s.uninstalled && s'.serial == s.serial
            && IsTicker(s'.threads[t])
    ensures var s' := MoveTicker(s, t);
            |s'.threads| > |s.threads| ==>
              var pc := s.threads[t];
              && |s'.threads| == |s.threads| + 1
              && pc.TickApps? && pc.apps != [] && OfApp(pc.apps[0]) !in s.locks
              && s'.threads[t] == pc.(apps := pc.apps[1..])
              && s'.threads[|s.threads|] == LifeRun(pc.apps[0])
              && s'.locks == s.locks[OfApp(pc.apps[0]) := |s.threads|]
              && s'.wg == s.wg + 1 && s'.busy == s.busy
  {
  }

  lemma RepoRequestEffect(cfg: Config, s: State, t: Tid, u: Tid)
    requires CanMove(s, t) && IsRepoRequest(s.threads[t])
    ensures var s' := MoveRepoRequest(cfg, s, t);
            && OnlyMoves(s, s', t, u)
            && s'.serial == s.serial && s'.wg == s.wg && s'.busy == s.busy
            && (IsRepoRequest(s'.threads[t]) || s'.threads[t].Ended?)
            && (|s.threads| <= u < |s'.threads| ==>
                  && s'.threads[u].ChildWait?
                  && s.threads[t] == DelRepoWaitRepo(s'.threads[u].repo)
                  && s'.threads[t] == DelRepoJoin(s'.threads[u].repo)
                  && s'.threads[u].repo in s.apps && s'.threads[u].app in s.apps[s'.threads[u].repo])
  {
  }

  lemma RepoRequestTakes(cfg: Config, s: State, t: Tid, l: Lock)
    requires CanMove(s, t) && IsRepoRequest(s.threads[t]) && WaitsFor(s, s.threads[t]).Some?
    ensures |MoveRepoRequest(cfg, s, t).threads| >= |s.threads|
    ensures LockMoves(s, MoveRepoRequest(cfg, s, t), t, l)
  {
    var pc, pc' := s.threads[t], MoveRepoRequest(cfg, s, t).threads[t];
    hide LockChange;
    TakesOne(pc, pc', s.locks, WaitsFor(s, pc).value, t, l);
  }

  lemma RepoRequestLocks(cfg: Config, s: State, t: Tid, l: Lock)
    requires CanMove(s, t) && IsRepoRequest(s.threads[t])
    ensures |MoveRepoRequest(cfg, s, t).threads| >= |s.threads|
    ensures LockMoves(s, MoveRepoRequest(cfg, s, t), t, l)
  {
    var pc, pc' := s.threads[t], MoveRepoRequest(cfg, s, t).threads[t];
    hide LockChange;
    match pc
    case AddRepoLocked(_) => GivesBack(pc, pc', s.locks, {HandlerLock}, t, l);
    case DelRepoLocked(_) => GivesBack(pc, pc', s.locks, if pc'.Ended? then {HandlerLock} else {}, t, l);
    case DelRepoJoin(r) => GivesBack(pc, pc', s.locks, {HandlerLock, OfRepo(r)}, t, l);
    case ChildUninstall(_, a) => GivesBack(pc, pc', s.locks, if cfg.deletionsUnlock then {OfApp(a)} else {}, t, l);
    case _ => RepoRequestTakes(cfg, s, t, l);
  }

  lemma StartTickEffect(cfg: Config, s: State, u: Tid, l: Lock)
    requires Enabled(s, StartTick)
    ensures var s' := Next(cfg, s, StartTick);
            && OnlyMoves(s, s', 0, u) && LockMoves(s, s', 0, l)
            && |s'.threads| == |s.threads| && s'.threads[0] == TickRepos(s.repos)
            && s' == s.(threads := s'.threads, locks := s'.locks)
  {
  }

  /*---------- mutexes stay accounted for ----------*/

  lemma LocksStayOwned(s: State, s': State, t: Tid)
    requires Owned(s) && Accounted(s) && t < |s.threads| <= |s'.threads| && !s.threads[t].Ended?
    requires forall u :: OnlyMoves(s, s', t, u)
    requires forall l :: LockMoves(s, s', t, l)
    requires forall u | |s.threads| <= u < |s'.threads| :: Holds(s'.threads[u]) == {}
    ensures Owned(s') && Accounted(s')
  {
    forall u: Tid, l | u < |s'.threads| && l in Holds(s'.threads[u]) ensures l in s'.locks && s'.locks[l] == u {
      assert OnlyMoves(s, s', t, u) && LockMoves(s, s', t, l);
      if u != t {
        assert u < |s.threads| && l in Holds(s.threads[u]);
        assert s.locks[l] == u;
        if l in Holds(s.threads[t]) {
          OneHolder(s, t, u, l);
        }
      } else if l in Holds(s.threads[t]) {
        assert s.locks[l] == t;
      }
    }
    forall l <- s'.locks
      ensures s'.locks[l] < |s'.threads| && (l in Holds(s'.threads[s'.locks[l]]) || Leaked(s', l))
    {
      assert LockMoves(s, s', t, l);
      assert OnlyMoves(s, s', t, s'.locks[l]);
    }
  }

  /** The ticker locks an application for the goroutine it spawns. */
  lemma SpawnStaysOwned(s: State, s': State, t: Tid, k: Lock, pc: Pc, pc': Pc)
    requires Owned(s) && Accounted(s) && t < |s.threads| && k !in s.locks && !s.threads[t].Ended?
    requires s'.threads == s.threads[t := pc'] + [pc] && s'.locks == s.locks[k := |s.threads|]
    requires Holds(pc') == Holds(s.threads[t]) && Holds(pc) == {k}
    ensures Owned(s') && Accounted(s')
  {
    forall l <- s'.locks
      ensures s'.locks[l] < |s'.threads| && (l in Holds(s'.threads[s'.locks[l]]) || Leaked(s', l))
    {
      if l != k {
        assert l in s.locks;
      }
    }
  }

  lemma RequestStaysOwned(s: State, pc: Pc)
    requires Owned(s) && Accounted(s) && Holds(pc) == {}
    ensures Owned(Spawn(s, pc)) && Accounted(Spawn(s, pc))
  {
    var s' := Spawn(s, pc);
    forall l <- s'.locks
      ensures s'.locks[l] < |s'.threads| && (l in Holds(s'.threads[s'.locks[l]]) || Leaked(s', l))
    {
      assert l in s.locks;
    }
  }

  lemma TickerStaysOwned(s: State, t: Tid)
    requires Owned(s) && Accounted(s) && CanMove(s, t) && IsTicker(s.threads[t])
    ensures Owned(MoveTicker(s, t)) && Accounted(MoveTicker(s, t))
  {
    var s' := MoveTicker(s, t);
    TickerEffect(s, t, t, HandlerLock);
    if |s'.threads| > |s.threads| {
      SpawnStaysOwned(s, s', t, OfApp(s.threads[t].apps[0]), s'.threads[|s.threads|], s'.threads[t]);
    } else {
      hide MoveTicker;
      forall u ensures OnlyMoves(s, s', t, u) { TickerEffect(s, t, u, HandlerLock); }
      forall l ensures LockMoves(s, s', t, l) { TickerEffect(s, t, t, l); }
      LocksStayOwned(s, s', t);
    }
  }

  lemma MutexesAccounted(cfg: Config, s: State, step: Step)
    requires Owned(s) && Accounted(s) && Enabled(s, step)
    ensures Owned(Next(cfg, s, step)) && Accounted(Next(cfg, s, step))
  {
    var s' := Next(cfg, s, step);
    hide MoveTicker, MoveLife, MoveRepoRequest, MoveAppRequest, LockChange;
    match step
    case StartTick =>
      forall u ensures OnlyMoves(s, s', 0, u) { StartTickEffect(cfg, s, u, HandlerLock); }
      StartTickEffect(cfg, s, 0, HandlerLock);
      forall l ensures LockMoves(s, s', 0, l) { StartTickEffect(cfg, s, 0, l); }
      LocksStayOwned(s, s', 0);
    case Move(t) =>
      if IsTicker(s.threads[t]) {
        TickerStaysOwned(s, t);
      } else if IsAppRequest(s.threads[t]) {
        forall u ensures OnlyMoves(s, s', t, u) { AppRequestEffect(cfg, s, t, u); }
        AppRequestEffect(cfg, s, t, t);
        forall l ensures LockMoves(s, s', t, l) { AppRequestLocks(cfg, s, t, l); }
        LocksStayOwned(s, s', t);
      } else if IsRepoRequest(s.threads[t]) {
        forall u ensures OnlyMoves(s, s', t, u) { RepoRequestEffect(cfg, s, t, u); }
        forall u: Tid | |s.threads| <= u < |s'.threads| ensures Holds(s'.threads[u]) == {} {
          RepoRequestEffect(cfg, s, t, u);
        }
        RepoRequestEffect(cfg, s, t, t);
        forall l ensures LockMoves(s, s', t, l) { RepoRequestLocks(cfg, s, t, l); }
        LocksStayOwned(s, s', t);
      } else {
        forall u ensures OnlyMoves(s, s', t, u) { LifeEffect(cfg, s, t, u, HandlerLock); }
        LifeEffect(cfg, s, t, t, HandlerLock);
        forall l ensures LockMoves(s, s', t, l) { LifeEffect(cfg, s, t, t, l); }
        LocksStayOwned(s, s', t);
      }
    case _ =>
      if RequestThread(s, step).Some? {
        RequestStaysOwned(s, RequestThread(s, step).value);
      }
  }

  /*---------- roles ----------*/

  ghost predicate Roles(s: State) {
    OneTicker(s) && OneAppRequest(s) && NewReposDistinct(s)
  }

  /** The mover keeps its role, and threads it starts have none of the unique ones. */
  lemma RolesKept(s: State, s': State, t: Tid)
    requires Roles(s) && t < |s.threads| <= |s'.threads|
    requires forall u :: OnlyMoves(s, s', t, u)
    requires IsTicker(s'.threads[t]) == IsTicker(s.threads[t])
    requires IsAppRequest(s'.threads[t]) ==> IsAppRequest(s.threads[t])
    requires forall r :: AddsRepo(s'.threads[t], r) ==> AddsRepo(s.threads[t], r)
    requires forall u | |s.threads| <= u < |s'.threads| :: s'.threads[u].LifeRun? || s'.threads[u].ChildWait?
    ensures Roles(s')
  {
    forall u: Tid | u < |s'.threads|
      ensures IsTicker(s'.threads[u]) <==> u == 0
      ensures IsAppRequest(s'.threads[u]) ==> u < |s.threads| && IsAppRequest(s.threads[u])
      ensures forall r :: AddsRepo(s'.threads[u], r) ==> u < |s.threads| && AddsRepo(s.threads[u], r)
    {
      assert OnlyMoves(s, s', t, u);
    }
  }

  lemma RepoRequestRoles(cfg: Config, s: State, t: Tid)
    requires Roles(s) && CanMove(s, t) && IsRepoRequest(s.threads[t])
    ensures Roles(MoveRepoRequest(cfg, s, t))
  {
    var s' := MoveRepoRequest(cfg, s, t);
    RepoRequestEffect(cfg, s, t, t);
    forall r ensures AddsRepo(s'.threads[t], r) ==> AddsRepo(s.threads[t], r) { }
    hide MoveRepoRequest, Roles;
    forall u ensures OnlyMoves(s, s', t, u) { RepoRequestEffect(cfg, s, t, u); }
    forall u: Tid | |s.threads| <= u < |s'.threads| ensures s'.threads[u].ChildWait? {
      RepoRequestEffect(cfg, s, t, u);
    }
    RolesKept(s, s', t);
  }

  lemma RolesThroughMove(cfg: Config, s: State, t: Tid)
    requires Roles(s) && CanMove(s, t)
    ensures Roles(MoveThread(cfg, s, t))
  {
    var s' := MoveThread(cfg, s, t);
    var pc := s.threads[t];
    hide MoveTicker, MoveLife, MoveAppRequest, MoveRepoRequest, Roles;
    if IsTicker(pc) {
      forall u ensures OnlyMoves(s, s', t, u) { TickerEffect(s, t, u, HandlerLock); }
      TickerEffect(s, t, t, HandlerLock);
      RolesKept(s, s', t);
    } else if IsAppRequest(pc) {
      forall u ensures OnlyMoves(s, s', t, u) { AppRequestEffect(cfg, s, t, u); }
      AppRequestEffect(cfg, s, t, t);
      RolesKept(s, s', t);
    } else if IsRepoRequest(pc) {
      RepoRequestRoles(cfg, s, t);
    } else {
      forall u ensures OnlyMoves(s, s', t, u) { LifeEffect(cfg, s, t, u, HandlerLock); }
      LifeEffect(cfg, s, t, t, HandlerLock);
      RolesKept(s, s', t);
    }
  }

  /*---------- lists ----------*/

  lemma SwapRemoveDropsOne<T>(xs: seq<T>, i: nat)
    requires i < |xs| && Distinct(xs)
    ensures Distinct(SwapRemove(xs, i))
    ensures forall x :: x in SwapRemove(xs, i) <==> x in xs && x != xs[i]
  {
    var ys := SwapRemove(xs, i);
    var n := |xs| - 1;
    assert forall j | 0 <= j < n :: ys[j] == if j == i then xs[n] else xs[j];
    forall x ensures x in ys <==> x in xs && x != xs[i] {
      if x in xs && x != xs[i] {
        var j :| 0 <= j < |xs| && xs[j] == x;
        assert ys[if j == n then i else j] == x;
      }
    }
  }

  /** The registry part of the invariant. */
  ghost predicate Registered(s: State) {
    ListsDistinct(s) && SerialsUsed(s) && AllFit(s)
  }

  /** New entries among the locks and the uninstalled instances are listed applications. */
  ghost predicate TouchesListed(s: State, s': State) {
    && (forall a <- s'.uninstalled :: a in s.uninstalled || Listed(s, a))
    && (forall l <- s'.locks :: l in s.locks || (l.OfApp? ==> Listed(s, l.app)))
  }

  lemma ListedSerial(s: State, a: AppId)
    requires SerialsUsed(s) && Listed(s, a)
    ensures a.serial < s.serial
  {
  }

  /** A step that leaves the lists alone leaves every waiting thread's knowledge valid. */
  lemma QuietFits(s: State, s': State, pc: Pc)
    requires Fits(s, pc) && s'.apps == s.apps && s'.repos == s.repos && s'.serial >= s.serial
    requires TouchesListed(s, s') && s.uninstalled <= s'.uninstalled
    requires pc.ChildWait? || pc.ChildUninstall? ==> DelRepoJoin(pc.repo) in s'.threads
    ensures Fits(s', pc)
  {
    assert forall a :: Listed(s', a) == Listed(s, a);
  }

  lemma QuietRegistered(s: State, s': State, t: Tid)
    requires Registered(s) && t < |s.threads| <= |s'.threads| && !s.threads[t].DelRepoJoin?
    requires forall u :: OnlyMoves(s, s', t, u)
    requires s'.apps == s.apps && s'.repos == s.repos && s'.serial == s.serial
    requires TouchesListed(s, s') && s.uninstalled <= s'.uninstalled
    requires Fits(s', s'.threads[t])
    requires forall u | |s.threads| <= u < |s'.threads| :: Fits(s', s'.threads[u])
    ensures Registered(s')
  {
    forall a <- s'.uninstalled ensures a.serial < s'.serial {
      if Listed(s, a) { ListedSerial(s, a); }
    }
    forall l <- s'.locks ensures l.OfApp? ==> l.app.serial < s'.serial {
      if l.OfApp? && Listed(s, l.app) { ListedSerial(s, l.app); }
    }
    forall pc <- s'.threads ensures Fits(s', pc) {
      var u :| 0 <= u < |s'.threads| && s'.threads[u] == pc;
      if u < |s.threads| && u != t {
        assert OnlyMoves(s, s', t, u);
        assert pc in s.threads;
        if pc.ChildWait? || pc.ChildUninstall? {
          var v :| 0 <= v < |s.threads| && s.threads[v] == DelRepoJoin(pc.repo);
          assert OnlyMoves(s, s', t, v);
          assert s'.threads[v] == DelRepoJoin(pc.repo);
        }
        QuietFits(s, s', pc);
      }
    }
  }

  /** The list of one repository changes under its lock, by the only application request. */
  lemma ListChangeRegistered(s: State, s': State, t: Tid, r: RepoId, list: seq<AppId>)
    requires Owned(s) && Roles(s) && Registered(s) && t < |s.threads| && r in s.apps
    requires IsAppRequest(s.threads[t]) && OfRepo(r) in Holds(s.threads[t])
    requires s'.threads == s.threads[t := Ended] && s'.apps == s.apps[r := list]
    requires s'.repos == s.repos && s'.serial == s.serial && s'.uninstalled == s.uninstalled
    requires forall l <- s'.locks :: l in s.locks
    requires Distinct(list)
    requires forall a <- list :: a in s.apps[r] || Unused(s, a)
    ensures Registered(s')
  {
    assert s.threads[t] in s.threads;
    forall pc <- s'.threads ensures Fits(s', pc) {
      var u :| 0 <= u < |s'.threads| && s'.threads[u] == pc;
      if u != t {
        assert pc in s.threads && Fits(s, pc);
        ListBystanderFits(s, s', t, u, r, list);
      }
    }
    forall q, p, a | q in s'.apps && p in s'.apps && a in s'.apps[q] && a in s'.apps[p] ensures q == p {
      assert a in s.apps[q] ==> Listed(s, a);
      assert a in s.apps[p] ==> Listed(s, a);
    }
  }

  lemma ListBystanderFits(s: State, s': State, t: Tid, u: Tid, r: RepoId, list: seq<AppId>)
    requires Owned(s) && Roles(s) && Registered(s) && t < |s.threads| && r in s.apps
    requires u < |s.threads| && u != t && Fits(s, s.threads[u])
    requires IsAppRequest(s.threads[t]) && OfRepo(r) in Holds(s.threads[t])
    requires s'.threads == s.threads[t := Ended] && s'.apps == s.apps[r := list]
    requires s'.repos == s.repos && s'.serial == s.serial && s'.uninstalled == s.uninstalled
    ensures Fits(s', s.threads[u])
  {
    var pc := s.threads[u];
    if OfRepo(r) in Holds(pc) {
      OneHolder(s, t, u, OfRepo(r));
    }
    assert !IsAppRequest(pc);
    if pc.ChildWait? || pc.ChildUninstall? {
      var v :| 0 <= v < |s.threads| && s.threads[v] == DelRepoJoin(pc.repo);
      assert s'.threads[v] == DelRepoJoin(pc.repo);
      if pc.repo == r {
        OneHolder(s, t, v, OfRepo(r));
      }
    }
  }

  lemma AddRepoRegistered(s: State, s': State, t: Tid, r: RepoId)
    requires Owned(s) && Roles(s) && Registered(s) && t < |s.threads| && s.threads[t] == AddRepoLocked(r)
    requires s'.threads == s.threads[t := Ended]
    requires s'.repos == s.repos + [r] && s'.apps == s.apps[r := []]
    requires s'.serial == s.serial && s'.uninstalled == s.uninstalled
    requires forall l <- s'.locks :: l in s.locks
    ensures Registered(s')
  {
    assert r !in s.apps && r.serial < s.serial by {
      assert s.threads[t] in s.threads && Fits(s, AddRepoLocked(r));
    }
    AddRepoLists(s, s', r);
    hide ListsDistinct, SerialsUsed;
    forall a ensures Listed(s', a) ==> Listed(s, a) { }
    forall pc <- s'.threads ensures Fits(s', pc) {
      var u :| 0 <= u < |s'.threads| && s'.threads[u] == pc;
      if u != t {
        assert pc in s.threads;
        if pc.ChildWait? || pc.ChildUninstall? {
          var v :| 0 <= v < |s.threads| && s.threads[v] == DelRepoJoin(pc.repo);
          assert s'.threads[v] == DelRepoJoin(pc.repo);
        }
        assert AddsRepo(pc, r) ==> AddsRepo(s.threads[u], r) && AddsRepo(s.threads[t], r);
        AddRepoBystander(s, s', pc, r);
      }
    }
  }

  lemma AddRepoLists(s: State, s': State, r: RepoId)
    requires ListsDistinct(s) && SerialsUsed(s) && r !in s.apps && r.serial < s.serial
    requires s'.repos == s.repos + [r] && s'.apps == s.apps[r := []]
    requires s'.serial == s.serial && s'.uninstalled == s.uninstalled
    requires forall l <- s'.locks :: l in s.locks
    ensures ListsDistinct(s') && SerialsUsed(s')
  {
  }

  lemma AddRepoBystander(s: State, s': State, pc: Pc, r: RepoId)
    requires Fits(s, pc) && r !in s.apps && !AddsRepo(pc, r)
    requires s'.repos == s.repos + [r] && s'.apps == s.apps[r := []]
    requires s'.serial == s.serial && s'.uninstalled == s.uninstalled
    requires forall l <- s'.locks :: l in s.locks
    requires forall a :: Listed(s', a) ==> Listed(s, a)
    requires pc.ChildWait? || pc.ChildUninstall? ==> DelRepoJoin(pc.repo) in s'.threads
    ensures Fits(s', pc)
  {
  }

  lemma DropRepoRegistered(s: State, s': State, t: Tid, r: RepoId)
    requires Owned(s) && Roles(s) && Registered(s) && t < |s.threads| && s.threads[t] == DelRepoJoin(r)
    requires r in s.repos && forall pc <- s.threads :: !IsChildOf(pc, r)
    requires s'.threads == s.threads[t := Ended]
    requires s'.repos == SwapRemove(s.repos, IndexOf(s.repos, r)) && s'.apps == s.apps
    requires s'.serial == s.serial && s'.uninstalled == s.uninstalled
    requires forall l <- s'.locks :: l in s.locks
    ensures Registered(s')
  {
    DropRepoLists(s, s', r);
    assert forall a :: Listed(s', a) == Listed(s, a);
    hide ListsDistinct, SerialsUsed;
    forall pc <- s'.threads ensures Fits(s', pc) {
      var u :| 0 <= u < |s'.threads| && s'.threads[u] == pc;
      if u != t {
        assert pc in s.threads && Fits(s, pc);
        if HandlerLock in Holds(pc) {
          OneHolder(s, t, u, HandlerLock);
        } else if pc.ChildWait? || pc.ChildUninstall? {
          var v :| 0 <= v < |s.threads| && s.threads[v] == DelRepoJoin(pc.repo);
          assert s'.threads[v] == DelRepoJoin(pc.repo);
        }
      }
    }
  }

  lemma DropRepoLists(s: State, s': State, r: RepoId)
    requires ListsDistinct(s) && SerialsUsed(s) && r in s.repos
    requires s'.repos == SwapRemove(s.repos, IndexOf(s.repos, r)) && s'.apps == s.apps
    requires s'.serial == s.serial && s'.uninstalled == s.uninstalled
    requires forall l <- s'.locks :: l in s.locks
    ensures ListsDistinct(s') && SerialsUsed(s')
  {
    SwapRemoveDropsOne(s.repos, IndexOf(s.repos, r));
  }

  lemma AppRequestRegistered(cfg: Config, s: State, t: Tid)
    requires Owned(s) && Roles(s) && Registered(s) && CanMove(s, t) && IsAppRequest(s.threads[t])
    ensures Registered(MoveAppRequest(cfg, s, t))
  {
    var s' := MoveAppRequest(cfg, s, t);
    var pc := s.threads[t];
    assert pc in s.threads && Fits(s, pc);
    match pc
    case AppAddLocked(r, a) =>
      assert a !in s.apps[r] by { assert !Listed(s, a); }
      ListChangeRegistered(s, s', t, r, s.apps[r] + [a]);
    case AppUpdReplace(r, i, b, a) =>
      assert a !in s.apps[r] by { assert !Listed(s, a); }
      ListChangeRegistered(s, s', t, r, s.apps[r][i := a]);
    case AppDelUninstall(r, i, a) =>
      SwapRemoveDropsOne(s.apps[r], i);
      ListChangeRegistered(s, s', t, r, SwapRemove(s.apps[r], i));
    case _ => QuietAppRequest(cfg, s, t);
  }

  lemma QuietAppRequest(cfg: Config, s: State, t: Tid)
    requires Registered(s) && CanMove(s, t) && IsAppRequest(s.threads[t])
    requires !s.threads[t].AppAddLocked? && !s.threads[t].AppUpdReplace? && !s.threads[t].AppDelUninstall?
    ensures Registered(MoveAppRequest(cfg, s, t))
  {
    var s' := MoveAppRequest(cfg, s, t);
    var pc := s.threads[t];
    assert pc in s.threads && Fits(s, pc);
    assert s'.apps == s.apps && s'.repos == s.repos && s.uninstalled <= s'.uninstalled;
    QuietAppTouches(cfg, s, t);
    QuietAppFits(cfg, s, t);
    hide MoveAppRequest, Fits;
    forall u ensures OnlyMoves(s, s', t, u) { AppRequestEffect(cfg, s, t, u); }
    AppRequestEffect(cfg, s, t, t);
    QuietRegistered(s, s', t);
  }

  lemma QuietAppTouches(cfg: Config, s: State, t: Tid)
    requires CanMove(s, t) && IsAppRequest(s.threads[t]) && Fits(s, s.threads[t])
    requires !s.threads[t].AppAddLocked? && !s.threads[t].AppUpdReplace? && !s.threads[t].AppDelUninstall?
    ensures TouchesListed(s, MoveAppRequest(cfg, s, t))
  {
    var pc := s.threads[t];
    if pc.AppUpdWaitApp? {
      assert s.apps[pc.repo][pc.i] in s.apps[pc.repo];
    } else if pc.AppDelWaitApp? {
      assert s.apps[pc.repo][pc.i] in s.apps[pc.repo];
    }
  }

  lemma QuietAppFits(cfg: Config, s: State, t: Tid)
    requires CanMove(s, t) && IsAppRequest(s.threads[t]) && Fits(s, s.threads[t])
    requires !s.threads[t].AppAddLocked? && !s.threads[t].AppUpdReplace? && !s.threads[t].AppDelUninstall?
    ensures |MoveAppRequest(cfg, s, t).threads| == |s.threads|
    ensures Fits(MoveAppRequest(cfg, s, t), MoveAppRequest(cfg, s, t).threads[t])
  {
    var pc := s.threads[t];
    var s' := MoveAppRequest(cfg, s, t);
    assert forall a :: Listed(s', a) == Listed(s, a);
    if pc.AppUpdWaitApp? {
      assert Listed(s, s.apps[pc.repo][pc.i]) by {
        assert s.apps[pc.repo][pc.i] in s.apps[pc.repo];
      }
    }
  }

  lemma RepoRequestRegistered(cfg: Config, s: State, t: Tid)
    requires Owned(s) && Roles(s) && Registered(s) && CanMove(s, t) && IsRepoRequest(s.threads[t])
    ensures Registered(MoveRepoRequest(cfg, s, t))
  {
    var s' := MoveRepoRequest(cfg, s, t);
    var pc := s.threads[t];
    assert pc in s.threads && Fits(s, pc);
    if pc.AddRepoLocked? && pc.repo.url !in Urls(s.repos) {
      AddRepoRegistered(s, s', t, pc.repo);
    } else if pc.DelRepoJoin? {
      DropRepoRegistered(s, s', t, pc.repo);
    } else {
      if pc.ChildWait? {
        assert Listed(s, pc.app);
      }
      QuietRepoRequest(cfg, s, t);
    }
  }

  lemma QuietRepoRequest(cfg: Config, s: State, t: Tid)
    requires Owned(s) && Roles(s) && Registered(s) && CanMove(s, t) && IsRepoRequest(s.threads[t])
    requires !(s.threads[t].AddRepoLocked? && s.threads[t].repo.url !in Urls(s.repos)) && !s.threads[t].DelRepoJoin?
    requires Fits(s, s.threads[t]) && (s.threads[t].ChildWait? ==> Listed(s, s.threads[t].app))
    ensures Registered(MoveRepoRequest(cfg, s, t))
  {
    var s' := MoveRepoRequest(cfg, s, t);
    QuietRepoFrame(cfg, s, t);
    QuietRepoFits(cfg, s, t);
    hide MoveRepoRequest, Fits;
    forall u ensures OnlyMoves(s, s', t, u) { RepoRequestEffect(cfg, s, t, u); }
    forall u: Tid | |s.threads| <= u < |s'.threads| ensures Fits(s', s'.threads[u]) {
      RepoRequestEffect(cfg, s, t, u);
      NewChildFits(s', s'.threads[u], t);
    }
    RepoRequestEffect(cfg, s, t, t);
    QuietRegistered(s, s', t);
  }

  lemma NewChildFits(s: State, pc: Pc, t: Tid)
    requires pc.ChildWait? && t < |s.threads| && s.threads[t] == DelRepoJoin(pc.repo)
    requires pc.repo in s.apps && pc.app in s.apps[pc.repo]
    ensures Fits(s, pc)
  {
  }

  lemma QuietRepoFrame(cfg: Config, s: State, t: Tid)
    requires CanMove(s, t) && IsRepoRequest(s.threads[t]) && (s.threads[t].ChildWait? ==> Listed(s, s.threads[t].app))
    requires !(s.threads[t].AddRepoLocked? && s.threads[t].repo.url !in Urls(s.repos)) && !s.threads[t].DelRepoJoin?
    ensures var s' := MoveRepoRequest(cfg, s, t);
            s'.apps == s.apps && s'.repos == s.repos && s.uninstalled <= s'.uninstalled && TouchesListed(s, s')
  {
  }

  lemma QuietRepoFits(cfg: Config, s: State, t: Tid)
    requires CanMove(s, t) && IsRepoRequest(s.threads[t]) && Fits(s, s.threads[t])
    requires !(s.threads[t].AddRepoLocked? && s.threads[t].repo.url !in Urls(s.repos)) && !s.threads[t].DelRepoJoin?
    ensures |MoveRepoRequest(cfg, s, t).threads| >= |s.threads|
    ensures Fits(MoveRepoRequest(cfg, s, t), MoveRepoRequest(cfg, s, t).threads[t])
  {
    var pc, s' := s.threads[t], MoveRepoRequest(cfg, s, t);
    if pc.ChildWait? {
      var v :| 0 <= v < |s.threads| && s.threads[v] == DelRepoJoin(pc.repo);
      assert s'.threads[v] == DelRepoJoin(pc.repo);
    }
  }

  lemma TickerRegistered(s: State, t: Tid)
    requires Registered(s) && CanMove(s, t) && IsTicker(s.threads[t])
    ensures Registered(MoveTicker(s, t))
  {
    var s' := MoveTicker(s, t);
    var pc := s.threads[t];
    assert pc in s.threads && Fits(s, pc);
    TickerEffect(s, t, t, HandlerLock);
    if pc.TickApps? && pc.apps != [] {
      assert pc.apps[0] in pc.apps;
      assert Listed(s, pc.apps[0]);
    }
    assert Fits(s', s'.threads[t]);
    assert TouchesListed(s, s');
    hide MoveTicker;
    forall u ensures OnlyMoves(s, s', t, u) { TickerEffect(s, t, u, HandlerLock); }
    QuietRegistered(s, s', t);
  }

  lemma MoveRegistered(cfg: Config, s: State, t: Tid)
    requires Owned(s) && Roles(s) && Registered(s) && CanMove(s, t)
    ensures Registered(MoveThread(cfg, s, t))
  {
    hide MoveTicker, MoveRepoRequest, MoveAppRequest, MoveLife;
    if IsTicker(s.threads[t]) {
      TickerRegistered(s, t);
    } else if IsAppRequest(s.threads[t]) {
      AppRequestRegistered(cfg, s, t);
    } else if IsRepoRequest(s.threads[t]) {
      RepoRequestRegistered(cfg, s, t);
    } else {
      var s' := MoveLife(cfg, s, t);
      forall u ensures OnlyMoves(s, s', t, u) { LifeEffect(cfg, s, t, u, HandlerLock); }
      LifeEffect(cfg, s, t, t, HandlerLock);
      forall l <- s'.locks ensures l in s.locks {
        LifeEffect(cfg, s, t, t, l);
      }
      QuietRegistered(s, s', t);
    }
  }

  /*---------- requests ----------*/

  lemma LookupsFound(s: State, url: string, name: string)
    requires ListsDistinct(s)
    ensures FindRepo(s.repos, url).Some? ==> FindRepo(s.repos, url).value in s.repos
    ensures forall r | r in s.apps :: FirstApp(s.apps[r], name).Some? ==> FirstApp(s.apps[r], name).value < |s.apps[r]|
  {
    FindRepoListed(s.repos, url);
    forall r | r in s.apps ensures FirstApp(s.apps[r], name).Some? ==> FirstApp(s.apps[r], name).value < |s.apps[r]| {
      FirstAppInRange(s.apps[r], name);
    }
  }

  lemma FindRepoListed(repos: seq<RepoId>, url: string)
    ensures FindRepo(repos, url).Some? ==> FindRepo(repos, url).value in repos
  {
  }

  lemma FirstAppInRange(apps: seq<AppId>, name: string)
    ensures FirstApp(apps, name).Some? ==> FirstApp(apps, name).value < |apps|
  {
  }

  lemma RequestRoles(s: State, step: Step)
    requires Roles(s) && AllFit(s) && Enabled(s, step) && RequestThread(s, step).Some?
    ensures Roles(Spawn(s, RequestThread(s, step).value))
  {
    var pc := RequestThread(s, step).value;
    RequestPc(s, step);
    hide RequestThread, Enabled;
    var s' := Spawn(s, pc);
    forall u: Tid | u < |s.threads| ensures Fits(s, s.threads[u]) && s'.threads[u] == s.threads[u] {
      assert s.threads[u] in s.threads;
    }
    assert forall u: Tid, r | u < |s.threads| && AddsRepo(s.threads[u], r) :: r.serial < s.serial;
  }

  lemma RequestPc(s: State, step: Step)
    requires Enabled(s, step) && RequestThread(s, step).Some?
    ensures var pc := RequestThread(s, step).value;
            && !IsTicker(pc)
            && (IsAppRequest(pc) ==> AppRequestsIdle(s))
            && forall r :: AddsRepo(pc, r) ==> r.serial == s.serial
  {
  }

  lemma RequestRegistered(s: State, step: Step)
    requires Registered(s) && Enabled(s, step) && RequestThread(s, step).Some?
    ensures Registered(Spawn(s, RequestThread(s, step).value))
  {
    var pc := RequestThread(s, step).value;
    var s' := Spawn(s, pc);
    RequestFits(s, step);
    hide RequestThread, Enabled;
    assert forall a :: Listed(s', a) == Listed(s, a);
    forall q <- s'.threads ensures Fits(s', q) {
      if q != pc {
        assert q in s.threads;
        if q.ChildWait? || q.ChildUninstall? {
          var v :| 0 <= v < |s.threads| && s.threads[v] == DelRepoJoin(q.repo);
          assert s'.threads[v] == DelRepoJoin(q.repo);
        }
        QuietFits(s, s', q);
      }
    }
  }

  lemma RequestFits(s: State, step: Step)
    requires Registered(s) && Enabled(s, step) && RequestThread(s, step).Some?
    ensures Fits(Spawn(s, RequestThread(s, step).value), RequestThread(s, step).value)
  {
    var pc := RequestThread(s, step).value;
    var s' := Spawn(s, pc);
    if step.AddOrUpdateApplication? || step.DeleteApplication? {
      LookupsFound(s, step.url, step.name);
    }
    assert forall a :: Listed(s', a) == Listed(s, a);
    if pc.AppAddWait? || pc.AppUpdWait? {
      if Listed(s, pc.added) { ListedSerial(s, pc.added); }
    }
  }

  /*---------- the invariant ----------*/

  /** Mutexes are owned by whoever holds them, every thread has one role, the lists name each
  instance once, and what a thread found before it waited for a lock is still so: an index
  found by name before the spin still points at that instance after it. */
  ghost predicate Invariant(s: State) {
    Owned(s) && Accounted(s) && Roles(s) && Registered(s)
  }

  lemma InvariantKept(cfg: Config, s: State, step: Step)
    requires Invariant(s) && Enabled(s, step)
    ensures Invariant(Next(cfg, s, step))
  {
    MutexesAccounted(cfg, s, step);
    hide MoveThread, Fits;
    match step
    case StartTick =>
      var s' := Next(cfg, s, step);
      StartTickEffect(cfg, s, 0, HandlerLock);
      forall u ensures OnlyMoves(s, s', 0, u) { StartTickEffect(cfg, s, u, HandlerLock); }
      forall l <- s'.locks ensures l in s.locks || l == HandlerLock { StartTickEffect(cfg, s, 0, l); }
      StartTickFits(s, s');
      QuietRegistered(s, s', 0);
      RolesKept(s, s', 0);
    case Move(t) =>
      RolesThroughMove(cfg, s, t);
      MoveRegistered(cfg, s, t);
    case _ =>
      if RequestThread(s, step).Some? {
        RequestRoles(s, step);
        RequestRegistered(s, step);
      }
  }

  lemma StartTickFits(s: State, s': State)
    requires ListsDistinct(s) && s'.repos == s.repos
    ensures Fits(s', TickRepos(s.repos))
  {
  }

  lemma {:induction false} InvariantAlong(cfg: Config, states: seq<State>, steps: seq<Step>, n: nat)
    requires Run(cfg, states, steps) && states[0] == INITIAL && n < |states|
    ensures Invariant(states[n])
  {
    if n > 0 {
      hide Next, Enabled, Invariant;
      InvariantAlong(cfg, states, steps, n - 1);
      InvariantKept(cfg, states[n - 1], steps[n - 1]);
    }
  }
}
