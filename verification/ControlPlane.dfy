/** The control plane as a transition system: the ticker, the lifecycle goroutines it spawns,
and the request handlers, all taking mutexes with TryLock (in spin loops, except for the
ticker, which skips what is busy).

A thread is a program counter; every TryLock, unlock, WaitGroup operation and list update is
one atomic step of one thread.  Instances of repositories and applications carry serial
numbers, because a name may be deleted and added again. */
module ControlPlane {
  import opened Prelude

  datatype RepoId = RepoId(url: string, name: string, serial: nat)

  datatype AppId = AppId(name: string, serial: nat)

  datatype Lock = HandlerLock | OfRepo(repo: RepoId) | OfApp(app: AppId)

  type Tid = nat

  /** Two places where the order or the kind of deferred calls matters.  As written in the
  source, a lifecycle goroutine signals the WaitGroup before it unlocks its application
  (deferred calls run last-in first-out), and deletions never unlock what they locked (a
  second TryLock is deferred, or nothing at all). */
  datatype Config = Config(doneFirst: bool, deletionsUnlock: bool)

  const AS_WRITTEN := Config(true, false)

  datatype Pc =
    // the ticker, thread 0
    | TickIdle
    | TickRepos(todo: seq<RepoId>)
    | TickApps(repo: RepoId, apps: seq<AppId>, todo: seq<RepoId>)
    | TickWait
    // a lifecycle goroutine
    | LifeRun(app: AppId)
    | LifeUnlock(app: AppId)
    | LifeSignal(app: AppId)
    // AddRepository
    | AddRepoWait(repo: RepoId)
    | AddRepoLocked(repo: RepoId)
    // DeleteRepository and its goroutines
    | DelRepoWait(name: string)
    | DelRepoLocked(name: string)
    | DelRepoWaitRepo(repo: RepoId)
    | DelRepoJoin(repo: RepoId)
    | ChildWait(repo: RepoId, app: AppId)
    | ChildUninstall(repo: RepoId, app: AppId)
    // AddOrUpdateApplication: a new application, or a changed one at index `i`
    | AppAddWait(repo: RepoId, added: AppId)
    | AppAddLocked(repo: RepoId, added: AppId)
    | AppUpdWait(repo: RepoId, i: nat, added: AppId)
    | AppUpdWaitApp(repo: RepoId, i: nat, added: AppId)
    | AppUpdReplace(repo: RepoId, i: nat, app: AppId, added: AppId)
    // DeleteApplication
    | AppDelWait(repo: RepoId, i: nat, app: AppId)
    | AppDelWaitApp(repo: RepoId, i: nat, app: AppId)
    | AppDelUninstall(repo: RepoId, i: nat, app: AppId)
    | Ended

  /** `busy` counts how often the ticker found an application locked and called Done for it;
  `uninstalled` collects the instances on which an Uninstall has begun. */
  datatype State = State(
    repos: seq<RepoId>,
    apps: map<RepoId, seq<AppId>>,
    locks: map<Lock, Tid>,
    threads: seq<Pc>,
    wg: int,
    busy: nat,
    serial: nat,
    uninstalled: set<AppId>)

  datatype Step =
    | StartTick
    | Move(t: Tid)
    | AddRepository(url: string, name: string)
    | DeleteRepository(name: string)
    | AddOrUpdateApplication(url: string, name: string, changed: bool)
    | DeleteApplication(url: string, name: string)

  /*---------- locks ----------*/

  /** The locks a thread owns. */
  function Holds(pc: Pc): set<Lock> {
    match pc
    case TickRepos(_) => {HandlerLock}
    case TickApps(r, _, _) => {HandlerLock, OfRepo(r)}
    case TickWait => {HandlerLock}
    case LifeRun(a) => {OfApp(a)}
    case LifeUnlock(a) => {OfApp(a)}
    case AddRepoLocked(_) => {HandlerLock}
    case DelRepoLocked(_) => {HandlerLock}
    case DelRepoWaitRepo(_) => {HandlerLock}
    case DelRepoJoin(r) => {HandlerLock, OfRepo(r)}
    case ChildUninstall(_, a) => {OfApp(a)}
    case AppAddLocked(r, _) => {OfRepo(r)}
    case AppUpdWaitApp(r, _, _) => {OfRepo(r)}
    case AppUpdReplace(r, _, a, _) => {OfRepo(r), OfApp(a)}
    case AppDelWaitApp(r, _, _) => {OfRepo(r)}
    case AppDelUninstall(r, _, a) => {OfRepo(r), OfApp(a)}
    case _ => {}
  }

  /** The lock a spin loop is waiting for. */
  function WaitsFor(s: State, pc: Pc): Option<Lock> {
    match pc
    case AddRepoWait(_) => Some(HandlerLock)
    case DelRepoWait(_) => Some(HandlerLock)
    case DelRepoWaitRepo(r) => Some(OfRepo(r))
    case ChildWait(_, a) => Some(OfApp(a))
    case AppAddWait(r, _) => Some(OfRepo(r))
    case AppUpdWait(r, _, _) => Some(OfRepo(r))
    case AppUpdWaitApp(r, i, _) =>
      if r in s.apps && i < |s.apps[r]| then Some(OfApp(s.apps[r][i])) else None
    case AppDelWait(r, _, _) => Some(OfRepo(r))
    case AppDelWaitApp(_, _, a) => Some(OfApp(a))
    case _ => None
  }

  /*---------- the registry lists ----------*/

  function Urls(repos: seq<RepoId>): set<string> {
    set r | r in repos :: r.url
  }

  /** The repository that a forward search by URL finds. */
  function FindRepo(repos: seq<RepoId>, url: string): Option<RepoId> {
    if repos == [] then None
    else if repos[0].url == url then Some(repos[0])
    else FindRepo(repos[1..], url)
  }

  /** The index that a full scan by name leaves behind: the last match. */
  function LastRepo(repos: seq<RepoId>, name: string): Option<nat> {
    if repos == [] then None
    else if repos[|repos| - 1].name == name then Some(|repos| - 1)
    else LastRepo(repos[..|repos| - 1], name)
  }

  function FirstApp(apps: seq<AppId>, name: string): Option<nat> {
    if apps == [] then None
    else if apps[0].name == name then Some(0)
    else match FirstApp(apps[1..], name) case None => None case Some(i) => Some(i + 1)
  }

  function LastApp(apps: seq<AppId>, name: string): Option<nat> {
    if apps == [] then None
    else if apps[|apps| - 1].name == name then Some(|apps| - 1)
    else LastApp(apps[..|apps| - 1], name)
  }

  predicate IsAppRequest(pc: Pc) {
    || pc.AppAddWait? || pc.AppAddLocked? || pc.AppUpdWait? || pc.AppUpdWaitApp? || pc.AppUpdReplace?
    || pc.AppDelWait? || pc.AppDelWaitApp? || pc.AppDelUninstall?
  }

  predicate IsChildOf(pc: Pc, r: RepoId) {
    (pc.ChildWait? || pc.ChildUninstall?) && pc.repo == r
  }

  predicate IsTicker(pc: Pc) {
    pc.TickIdle? || pc.TickRepos? || pc.TickApps? || pc.TickWait?
  }

  /*---------- steps of a thread ----------*/

  /** The thread can take a step that is not one more turn of a spin loop. */
  predicate CanMove(s: State, t: Tid) {
    && t < |s.threads|
    && match s.threads[t]
       case TickIdle => false
       case Ended => false
       case TickWait => s.wg == 0
       case TickRepos(todo) => todo != [] ==> todo[0] in s.apps
       case DelRepoWaitRepo(r) => OfRepo(r) !in s.locks && r in s.apps
       case DelRepoJoin(r) => r in s.repos && forall pc <- s.threads :: !IsChildOf(pc, r)
       case AppAddLocked(r, _) => r in s.apps
       case AppUpdWaitApp(r, i, _) => r in s.apps && i < |s.apps[r]| && OfApp(s.apps[r][i]) !in s.locks
       case AppUpdReplace(r, i, _, _) => r in s.apps && i < |s.apps[r]|
       case AppDelUninstall(r, i, _) => r in s.apps && i < |s.apps[r]|
       case pc => WaitsFor(s, pc).Some? ==> WaitsFor(s, pc).value !in s.locks
  }

  function Goto(s: State, t: Tid, pc: Pc): State
    requires t < |s.threads|
  {
    s.(threads := s.threads[t := pc])
  }

  function Acquire(s: State, t: Tid, l: Lock, pc: Pc): State
    requires t < |s.threads|
  {
    Goto(s, t, pc).(locks := s.locks[l := t])
  }

  function Release(s: State, t: Tid, ls: set<Lock>, pc: Pc): State
    requires t < |s.threads|
  {
    Goto(s, t, pc).(locks := s.locks - ls)
  }

  function IndexOf<T(==)>(xs: seq<T>, x: T): (i: nat)
    requires x in xs
    ensures i < |xs| && xs[i] == x
  {
    if xs[0] == x then 0 else IndexOf(xs[1..], x) + 1
  }

  function MoveTicker(s: State, t: Tid): State
    requires CanMove(s, t) && IsTicker(s.threads[t])
  {
    match s.threads[t]
    case TickRepos(todo) =>
      if todo == [] then Goto(s, t, TickWait)
      else if OfRepo(todo[0]) in s.locks then Goto(s, t, TickRepos(todo[1..]))
      else Acquire(s, t, OfRepo(todo[0]), TickApps(todo[0], s.apps[todo[0]], todo[1..]))
    case TickApps(r, apps, todo) =>
      if apps == [] then Release(s, t, {OfRepo(r)}, TickRepos(todo))
      else if OfApp(apps[0]) in s.locks then
        Goto(s, t, TickApps(r, apps[1..], todo)).(wg := s.wg - 1, busy := s.busy + 1)
      else
        var s' := Goto(s, t, TickApps(r, apps[1..], todo));
        s'.(threads := s'.threads + [LifeRun(apps[0])], locks := s.locks[OfApp(apps[0]) := |s.threads|], wg := s.wg + 1)
    case TickWait => Release(s, t, {HandlerLock}, TickIdle)
  }

  function MoveLife(cfg: Config, s: State, t: Tid): State
    requires t < |s.threads| && (s.threads[t].LifeRun? || s.threads[t].LifeUnlock? || s.threads[t].LifeSignal?)
  {
    match s.threads[t]
    case LifeRun(a) =>
      if cfg.doneFirst then Goto(s, t, LifeUnlock(a)).(wg := s.wg - 1)
      else Release(s, t, {OfApp(a)}, LifeSignal(a))
    case LifeUnlock(a) => Release(s, t, {OfApp(a)}, Ended)
    case LifeSignal(a) => Goto(s, t, Ended).(wg := s.wg - 1)
  }

  predicate IsRepoRequest(pc: Pc) {
    || pc.AddRepoWait? || pc.AddRepoLocked? || pc.DelRepoWait? || pc.DelRepoLocked? || pc.DelRepoWaitRepo?
    || pc.DelRepoJoin? || pc.ChildWait? || pc.ChildUninstall?
  }

  function MoveRepoRequest(cfg: Config, s: State, t: Tid): State
    requires CanMove(s, t) && IsRepoRequest(s.threads[t])
  {
    match s.threads[t]
    case AddRepoWait(r) => Acquire(s, t, HandlerLock, AddRepoLocked(r))
    case AddRepoLocked(r) =>
      var s' := Release(s, t, {HandlerLock}, Ended);
      if r.url in Urls(s.repos) then s' else s'.(repos := s.repos + [r], apps := s.apps[r := []])
    case DelRepoWait(name) => Acquire(s, t, HandlerLock, DelRepoLocked(name))
    case DelRepoLocked(name) =>
      (match LastRepo(s.repos, name)
       case None => Release(s, t, {HandlerLock}, Ended)
       case Some(i) =>
         if i < |s.repos| then Goto(s, t, DelRepoWaitRepo(s.repos[i])) else Release(s, t, {HandlerLock}, Ended))
    case DelRepoWaitRepo(r) =>
      var s' := Acquire(s, t, OfRepo(r), DelRepoJoin(r));
      s'.(threads := s'.threads + seq(|s.apps[r]|, i requires 0 <= i < |s.apps[r]| => ChildWait(r, s.apps[r][i])))
    case DelRepoJoin(r) =>
      Release(s, t, {HandlerLock, OfRepo(r)}, Ended).(repos := SwapRemove(s.repos, IndexOf(s.repos, r)))
    case ChildWait(r, a) =>
      Acquire(s, t, OfApp(a), ChildUninstall(r, a)).(uninstalled := s.uninstalled + {a})
    case ChildUninstall(r, a) => Release(s, t, if cfg.deletionsUnlock then {OfApp(a)} else {}, Ended)
  }

  function MoveAppRequest(cfg: Config, s: State, t: Tid): State
    requires CanMove(s, t) && IsAppRequest(s.threads[t])
  {
    match s.threads[t]
    case AppAddWait(r, a) => Acquire(s, t, OfRepo(r), AppAddLocked(r, a))
    case AppAddLocked(r, a) => Release(s, t, {OfRepo(r)}, Ended).(apps := s.apps[r := s.apps[r] + [a]])
    case AppUpdWait(r, i, a) => Acquire(s, t, OfRepo(r), AppUpdWaitApp(r, i, a))
    case AppUpdWaitApp(r, i, a) => Acquire(s, t, OfApp(s.apps[r][i]), AppUpdReplace(r, i, s.apps[r][i], a))
    case AppUpdReplace(r, i, b, a) =>
      Release(s, t, {OfRepo(r), OfApp(b)}, Ended).(apps := s.apps[r := s.apps[r][i := a]])
    case AppDelWait(r, i, a) => Acquire(s, t, OfRepo(r), AppDelWaitApp(r, i, a))
    case AppDelWaitApp(r, i, a) =>
      Acquire(s, t, OfApp(a), AppDelUninstall(r, i, a)).(uninstalled := s.uninstalled + {a})
    case AppDelUninstall(r, i, a) =>
      Release(s, t, if cfg.deletionsUnlock then {OfRepo(r), OfApp(a)} else {}, Ended)
      .(apps := s.apps[r := SwapRemove(s.apps[r], i)])
  }

  function MoveThread(cfg: Config, s: State, t: Tid): State
    requires CanMove(s, t)
  {
    if IsTicker(s.threads[t]) then MoveTicker(s, t)
    else if IsAppRequest(s.threads[t]) then MoveAppRequest(cfg, s, t)
    else if IsRepoRequest(s.threads[t]) then MoveRepoRequest(cfg, s, t)
    else MoveLife(cfg, s, t)
  }

  /*---------- all steps ----------*/

  /** No application request is in progress: the operator sends them one at a time. */
  predicate AppRequestsIdle(s: State) {
    forall pc <- s.threads :: !IsAppRequest(pc)
  }

  predicate Enabled(s: State, step: Step) {
    match step
    case StartTick => |s.threads| > 0 && s.threads[0].TickIdle? && HandlerLock !in s.locks
    case Move(t) => CanMove(s, t)
    case AddRepository(_, _) => true
    case DeleteRepository(_) => true
    case AddOrUpdateApplication(_, _, _) => AppRequestsIdle(s)
    case DeleteApplication(_, _) => AppRequestsIdle(s)
  }

  function Spawn(s: State, pc: Pc): State {
    s.(threads := s.threads + [pc], serial := s.serial + 1)
  }

  /** The thread a request starts, if it does not return at once. */
  function RequestThread(s: State, step: Step): Option<Pc> {
    match step
    case AddRepository(url, name) =>
      if FindRepo(s.repos, url).Some? then None else Some(AddRepoWait(RepoId(url, name, s.serial)))
    case DeleteRepository(name) => Some(DelRepoWait(name))
    case AddOrUpdateApplication(url, name, changed) =>
      (match FindRepo(s.repos, url)
       case None => None
       case Some(r) =>
         if r !in s.apps then None
         else match FirstApp(s.apps[r], name)
              case None => Some(AppAddWait(r, AppId(name, s.serial)))
              case Some(i) => if changed then Some(AppUpdWait(r, i, AppId(name, s.serial))) else None)
    case DeleteApplication(url, name) =>
      (match FindRepo(s.repos, url)
       case None => None
       case Some(r) =>
         if r !in s.apps then None
         else match LastApp(s.apps[r], name)
              case None => None
              case Some(i) => if i < |s.apps[r]| then Some(AppDelWait(r, i, s.apps[r][i])) else None)
    case _ => None
  }

  function Next(cfg: Config, s: State, step: Step): State
    requires Enabled(s, step)
  {
    match step
    case StartTick => Acquire(s, 0, HandlerLock, TickRepos(s.repos))
    case Move(t) => MoveThread(cfg, s, t)
    case _ =>
      match RequestThread(s, step)
      case None => s
      case Some(pc) => Spawn(s, pc)
  }

  /** The server after start-up: nothing registered, the ticker idle. */
  const INITIAL := State([], map[], map[], [TickIdle], 0, 0, 0, {})

  ghost predicate Run(cfg: Config, states: seq<State>, steps: seq<Step>) {
    && |states| == |steps| + 1
    && forall i | 0 <= i < |steps| :: Enabled(states[i], steps[i]) && states[i + 1] == Next(cfg, states[i], steps[i])
  }
}
