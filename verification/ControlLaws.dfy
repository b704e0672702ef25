/** What requests do to the lists: which thread a request starts, what its last step changes,
and that nothing is dropped before it has been uninstalled. */
module ControlLaws {
  import opened Prelude
  import opened ControlPlane
  import opened ControlInvariant
  import opened ControlTheorems

  /*---------- searches ----------*/

  lemma {:induction false} FindRepoExactly(repos: seq<RepoId>, url: string)
    ensures match FindRepo(repos, url)
            case None => forall i | 0 <= i < |repos| :: repos[i].url != url
            case Some(r) => exists i :: FirstAt(repos, url, i) && repos[i] == r
  {
    if repos != [] && repos[0].url != url {
      FindRepoExactly(repos[1..], url);
      if FindRepo(repos, url).Some? {
        var i :| FirstAt(repos[1..], url, i) && repos[1..][i] == FindRepo(repos, url).value;
        assert FirstAt(repos, url, i + 1);
      }
    } else if repos != [] {
      assert FirstAt(repos, url, 0);
    }
  }

  predicate FirstAt(repos: seq<RepoId>, url: string, i: int) {
    0 <= i < |repos| && repos[i].url == url && forall j | 0 <= j < i :: repos[j].url != url
  }

  lemma {:induction false} LastRepoExactly(repos: seq<RepoId>, name: string)
    ensures match LastRepo(repos, name)
            case None => forall i | 0 <= i < |repos| :: repos[i].name != name
            case Some(i) => i < |repos| && repos[i].name == name && forall j | i < j < |repos| :: repos[j].name != name
  {
    if repos != [] && repos[|repos| - 1].name != name {
      LastRepoExactly(repos[..|repos| - 1], name);
    }
  }

  lemma {:induction false} FirstAppExactly(apps: seq<AppId>, name: string)
    ensures match FirstApp(apps, name)
            case None => forall i | 0 <= i < |apps| :: apps[i].name != name
            case Some(i) => i < |apps| && apps[i].name == name && forall j | 0 <= j < i :: apps[j].name != name
  {
    if apps != [] && apps[0].name != name {
      FirstAppExactly(apps[1..], name);
      assert apps == [apps[0]] + apps[1..];
    }
  }

  lemma {:induction false} LastAppExactly(apps: seq<AppId>, name: string)
    ensures match LastApp(apps, name)
            case None => forall i | 0 <= i < |apps| :: apps[i].name != name
            case Some(i) => i < |apps| && apps[i].name == name && forall j | i < j < |apps| :: apps[j].name != name
  {
    if apps != [] && apps[|apps| - 1].name != name {
      LastAppExactly(apps[..|apps| - 1], name);
    }
  }

  /*---------- which thread a request starts ----------*/

  /** A registration is answered at once exactly when its URL is listed. */
  lemma AddRepositoryStarts(s: State, url: string, name: string)
    ensures if exists i :: 0 <= i < |s.repos| && s.repos[i].url == url then
              RequestThread(s, AddRepository(url, name)).None?
            else
              RequestThread(s, AddRepository(url, name)) == Some(AddRepoWait(RepoId(url, name, s.serial)))
  {
    FindRepoExactly(s.repos, url);
  }

  /** An application request goes to the first repository with its URL.  A new name is added; a
  known one is replaced at its first place if it has changed, and answered at once if not. */
  lemma AddOrUpdateStarts(s: State, url: string, name: string, changed: bool, i: nat)
    requires ListsDistinct(s) && FirstAt(s.repos, url, i)
    ensures var r, thread := s.repos[i], RequestThread(s, AddOrUpdateApplication(url, name, changed));
            && r in s.apps
            && (thread.None? <==> !changed && exists j :: 0 <= j < |s.apps[r]| && s.apps[r][j].name == name)
            && (thread.Some? && (forall j | 0 <= j < |s.apps[r]| :: s.apps[r][j].name != name) ==>
                  thread.value == AppAddWait(r, AppId(name, s.serial)))
            && (thread.Some? && (exists j :: 0 <= j < |s.apps[r]| && s.apps[r][j].name == name) ==>
                  && thread.value.AppUpdWait? && thread.value.repo == r && thread.value.added == AppId(name, s.serial)
                  && thread.value.i < |s.apps[r]| && s.apps[r][thread.value.i].name == name
                  && forall j | 0 <= j < thread.value.i :: s.apps[r][j].name != name)
  {
    FindsFirst(s.repos, url, i);
    FirstAppExactly(s.apps[s.repos[i]], name);
  }

  lemma FindsFirst(repos: seq<RepoId>, url: string, i: nat)
    requires FirstAt(repos, url, i)
    ensures FindRepo(repos, url) == Some(repos[i])
  {
    FindRepoExactly(repos, url);
    if FindRepo(repos, url).Some? {
      var j :| FirstAt(repos, url, j) && repos[j] == FindRepo(repos, url).value;
    }
  }

  /** A deletion goes to the first repository with its URL and the last application of its name,
  and is answered at once exactly when there is none. */
  lemma DeleteApplicationStarts(s: State, url: string, name: string, i: nat)
    requires ListsDistinct(s) && FirstAt(s.repos, url, i)
    ensures var r, thread := s.repos[i], RequestThread(s, DeleteApplication(url, name));
            && r in s.apps
            && (thread.None? <==> forall j | 0 <= j < |s.apps[r]| :: s.apps[r][j].name != name)
            && (thread.Some? ==>
                  && thread.value.AppDelWait? && thread.value.repo == r
                  && thread.value.i < |s.apps[r]| && thread.value.app == s.apps[r][thread.value.i]
                  && thread.value.app.name == name
                  && forall j | thread.value.i < j < |s.apps[r]| :: s.apps[r][j].name != name)
  {
    FindsFirst(s.repos, url, i);
    LastAppExactly(s.apps[s.repos[i]], name);
  }

  lemma UnknownUrlStartsNothing(s: State, url: string, name: string, changed: bool)
    requires forall i | 0 <= i < |s.repos| :: s.repos[i].url != url
    ensures RequestThread(s, AddOrUpdateApplication(url, name, changed)).None?
    ensures RequestThread(s, DeleteApplication(url, name)).None?
    ensures RequestThread(s, DeleteRepository(name)) == Some(DelRepoWait(name))
  {
    FindRepoExactly(s.repos, url);
  }

  /*---------- what a request's steps do ----------*/

  ghost predicate ListsStay(s: State, s': State) {
    s'.repos == s.repos && s'.apps == s.apps
  }

  /** The entries are those of before without the i-th, which the last one replaces. */
  predicate DropsAt<T(==)>(xs: seq<T>, xs': seq<T>, i: nat)
    requires i < |xs|
  {
    && |xs'| == |xs| - 1
    && forall j | 0 <= j < |xs'| :: xs'[j] == if j == i then xs[|xs| - 1] else xs[j]
  }

  /** A request about applications: it waits for its repository, then (to change or delete) for
  the application, and only its last step changes a list: that of its repository, in one
  place. */
  ghost predicate AppRequestStep(s: State, s': State, t: Tid)
    requires t < |s.threads| && t < |s'.threads|
  {
    var pc' := s'.threads[t];
    match s.threads[t]
    case AppAddWait(r, a) => pc' == AppAddLocked(r, a) && ListsStay(s, s')
    case AppAddLocked(r, a) =>
      pc'.Ended? && s'.repos == s.repos && r in s.apps && s'.apps == s.apps[r := s.apps[r] + [a]]
    case AppUpdWait(r, i, a) => pc' == AppUpdWaitApp(r, i, a) && ListsStay(s, s')
    case AppUpdWaitApp(r, i, a) =>
      r in s.apps && i < |s.apps[r]| && pc' == AppUpdReplace(r, i, s.apps[r][i], a) && ListsStay(s, s')
    case AppUpdReplace(r, i, _, a) =>
      pc'.Ended? && s'.repos == s.repos && r in s.apps && i < |s.apps[r]| && s'.apps == s.apps[r := s.apps[r][i := a]]
    case AppDelWait(r, i, a) => pc' == AppDelWaitApp(r, i, a) && ListsStay(s, s')
    case AppDelWaitApp(r, i, a) =>
      pc' == AppDelUninstall(r, i, a) && ListsStay(s, s') && s'.uninstalled == s.uninstalled + {a}
    case AppDelUninstall(r, i, a) =>
      && pc'.Ended? && s'.repos == s.repos && r in s.apps && i < |s.apps[r]| && s.apps[r][i] == a
      && r in s'.apps && s'.apps == s.apps[r := s'.apps[r]] && DropsAt(s.apps[r], s'.apps[r], i)
    case _ => true
  }

  lemma AppRequestSteps(cfg: Config, s: State, t: Tid)
    requires Invariant(s) && CanMove(s, t) && IsAppRequest(s.threads[t])
    ensures t < |MoveAppRequest(cfg, s, t).threads| && AppRequestStep(s, MoveAppRequest(cfg, s, t), t)
  {
    assert s.threads[t] in s.threads && Fits(s, s.threads[t]);
  }

  /** A request about repositories: a registration adds its repository unless its URL has been
  listed meanwhile; a deletion takes the last repository of its name, starts one goroutine for
  each of its applications, and drops it when they have ended. */
  ghost predicate RepoRequestStep(s: State, s': State, t: Tid)
    requires t < |s.threads| <= |s'.threads|
  {
    var pc' := s'.threads[t];
    match s.threads[t]
    case AddRepoWait(r) => pc' == AddRepoLocked(r) && ListsStay(s, s')
    case AddRepoLocked(r) =>
      && pc'.Ended?
      && if exists i :: 0 <= i < |s.repos| && s.repos[i].url == r.url then ListsStay(s, s')
         else s'.repos == s.repos + [r] && s'.apps == s.apps[r := []]
    case DelRepoWait(name) => pc' == DelRepoLocked(name) && ListsStay(s, s')
    case DelRepoLocked(name) =>
      && ListsStay(s, s')
      && if forall i | 0 <= i < |s.repos| :: s.repos[i].name != name then pc'.Ended?
         else pc'.DelRepoWaitRepo? && exists i :: IsLastNamed(s.repos, name, i) && pc'.repo == s.repos[i]
    case DelRepoWaitRepo(r) =>
      && pc' == DelRepoJoin(r) && ListsStay(s, s')
      && r in s.apps && |s'.threads| == |s.threads| + |s.apps[r]|
      && forall i | 0 <= i < |s.apps[r]| :: s'.threads[|s.threads| + i] == ChildWait(r, s.apps[r][i])
    case DelRepoJoin(r) =>
      && pc'.Ended? && s'.apps == s.apps && (forall pc <- s.threads :: !IsChildOf(pc, r))
      && exists i: nat :: i < |s.repos| && s.repos[i] == r && DropsAt(s.repos, s'.repos, i)
    case ChildWait(r, a) =>
      pc' == ChildUninstall(r, a) && ListsStay(s, s') && s'.uninstalled == s.uninstalled + {a}
    case ChildUninstall(_, _) => pc'.Ended? && ListsStay(s, s')
    case _ => true
  }

  predicate IsLastNamed(repos: seq<RepoId>, name: string, i: int) {
    0 <= i < |repos| && repos[i].name == name && forall j | i < j < |repos| :: repos[j].name != name
  }

  lemma RepoRequestSteps(cfg: Config, s: State, t: Tid)
    requires Invariant(s) && CanMove(s, t) && IsRepoRequest(s.threads[t])
    ensures |MoveRepoRequest(cfg, s, t).threads| >= |s.threads|
    ensures RepoRequestStep(s, MoveRepoRequest(cfg, s, t), t)
  {
    var pc, s' := s.threads[t], MoveRepoRequest(cfg, s, t);
    assert pc in s.threads && Fits(s, pc);
    if pc.DelRepoLocked? {
      LastRepoExactly(s.repos, pc.name);
      var found := LastRepo(s.repos, pc.name);
      assert found.Some? ==> IsLastNamed(s.repos, pc.name, found.value);
    } else if pc.DelRepoJoin? {
      DropsRepo(s, s', pc.repo);
    }
  }

  lemma DropsRepo(s: State, s': State, r: RepoId)
    requires r in s.repos && s'.repos == SwapRemove(s.repos, IndexOf(s.repos, r))
    ensures exists i: nat :: i < |s.repos| && s.repos[i] == r && DropsAt(s.repos, s'.repos, i)
  {
    var i := IndexOf(s.repos, r);
    assert DropsAt(s.repos, s'.repos, i);
  }

  /*---------- nothing is dropped before it is uninstalled ----------*/

  /** While a repository is being deleted, each of its applications is being uninstalled, or has
  a goroutine that waits to do so. */
  ghost predicate AllSummoned(s: State) {
    forall r, a | DelRepoJoin(r) in s.threads && r in s.apps && a in s.apps[r] ::
      a in s.uninstalled || ChildWait(r, a) in s.threads
  }

  /** A list changes only by the hand of a thread that holds its repository's mutex. */
  lemma HeldListStays(cfg: Config, s: State, t: Tid, u: Tid, r: RepoId)
    requires Invariant(s) && CanMove(s, t) && u < |s.threads| && s.threads[u] == DelRepoJoin(r)
    ensures r in s.apps && r in MoveThread(cfg, s, t).apps && MoveThread(cfg, s, t).apps[r] == s.apps[r]
  {
    assert s.threads[u] in s.threads && Fits(s, s.threads[u]);
    assert s.threads[t] in s.threads && Fits(s, s.threads[t]);
    hide MoveTicker, MoveLife;
    if IsTicker(s.threads[t]) {
      TickerEffect(s, t, t, HandlerLock);
    } else if IsAppRequest(s.threads[t]) {
      if OfRepo(r) in Holds(s.threads[t]) {
        OneHolder(s, t, u, OfRepo(r));
      }
    } else if !IsRepoRequest(s.threads[t]) {
      LifeEffect(cfg, s, t, t, HandlerLock);
    }
  }

  lemma SummonedThroughMove(cfg: Config, s: State, t: Tid)
    requires Invariant(s) && AllSummoned(s) && CanMove(s, t)
    ensures AllSummoned(MoveThread(cfg, s, t))
  {
    var s' := MoveThread(cfg, s, t);
    forall r, a | DelRepoJoin(r) in s'.threads && r in s'.apps && a in s'.apps[r]
      ensures a in s'.uninstalled || ChildWait(r, a) in s'.threads
    {
      SummonedOne(cfg, s, t, r, a);
    }
  }

  lemma SummonedOne(cfg: Config, s: State, t: Tid, r: RepoId, a: AppId)
    requires Invariant(s) && AllSummoned(s) && CanMove(s, t)
    requires var s' := MoveThread(cfg, s, t); DelRepoJoin(r) in s'.threads && r in s'.apps && a in s'.apps[r]
    ensures var s' := MoveThread(cfg, s, t); a in s'.uninstalled || ChildWait(r, a) in s'.threads
  {
    var s' := MoveThread(cfg, s, t);
    var u: Tid :| u < |s'.threads| && s'.threads[u] == DelRepoJoin(r);
    MoveFrame(cfg, s, t, u, HandlerLock);
    ListsFrame(cfg, s, t, r, a);
    if u == t && s.threads[t] != DelRepoJoin(r) {
      JoinsAfterSpawning(cfg, s, t, r, a);
    } else {
      HeldListStays(cfg, s, t, u, r);
      assert DelRepoJoin(r) in s.threads;
      if a !in s.uninstalled {
        var v: Tid :| v < |s.threads| && s.threads[v] == ChildWait(r, a);
        MoveFrame(cfg, s, t, v, HandlerLock);
        if v == t {
          assert a in s'.uninstalled;
        } else {
          assert s'.threads[v] == ChildWait(r, a);
        }
      }
    }
  }

  lemma JoinsAfterSpawning(cfg: Config, s: State, t: Tid, r: RepoId, a: AppId)
    requires Invariant(s) && CanMove(s, t) && s.threads[t] != DelRepoJoin(r)
    requires var s' := MoveThread(cfg, s, t);
             t < |s'.threads| && s'.threads[t] == DelRepoJoin(r) && r in s'.apps && a in s'.apps[r]
    ensures ChildWait(r, a) in MoveThread(cfg, s, t).threads
  {
    hide MoveTicker, MoveAppRequest;
    if IsTicker(s.threads[t]) {
      TickerEffect(s, t, t, HandlerLock);
    } else if IsAppRequest(s.threads[t]) {
      AppRequestEffect(cfg, s, t, t);
    } else if IsRepoRequest(s.threads[t]) {
      RepoRequestSteps(cfg, s, t);
      hide MoveRepoRequest;
      assert s.threads[t] == DelRepoWaitRepo(r);
      var s' := MoveRepoRequest(cfg, s, t);
      var i :| 0 <= i < |s.apps[r]| && s.apps[r][i] == a;
      assert s'.threads[|s.threads| + i] == ChildWait(r, a);
    }
  }

  lemma SummonedKept(cfg: Config, s: State, step: Step)
    requires Invariant(s) && AllSummoned(s) && Enabled(s, step)
    ensures AllSummoned(Next(cfg, s, step))
  {
    hide MoveThread, RequestThread, Fits;
    if step.Move? {
      SummonedThroughMove(cfg, s, step.t);
    } else {
      OtherStepThreads(cfg, s, step);
      OtherStepJoins(cfg, s, step);
    }
  }

  lemma OtherStepJoins(cfg: Config, s: State, step: Step)
    requires Enabled(s, step) && !step.Move?
    ensures ListsStay(s, Next(cfg, s, step)) && Next(cfg, s, step).uninstalled == s.uninstalled
    ensures forall r | DelRepoJoin(r) in Next(cfg, s, step).threads :: DelRepoJoin(r) in s.threads
  {
  }

  lemma {:induction false} SummonedAlong(cfg: Config, states: seq<State>, steps: seq<Step>, n: nat)
    requires Run(cfg, states, steps) && states[0] == INITIAL && n < |states|
    ensures Invariant(states[n]) && AllSummoned(states[n])
  {
    InvariantAlong(cfg, states, steps, n);
    if n > 0 {
      hide Next, Enabled, Invariant, AllSummoned, INITIAL;
      SummonedAlong(cfg, states, steps, n - 1);
      SummonedKept(cfg, states[n - 1], steps[n - 1]);
    }
  }

  /** In every run, when a repository is dropped, the uninstallation of each of its applications
  has begun, and no thread is uninstalling one of them any more. */
  lemma DroppedAfterUninstall(cfg: Config, states: seq<State>, steps: seq<Step>, n: nat, r: RepoId)
    requires Run(cfg, states, steps) && states[0] == INITIAL && n < |steps|
    requires r in states[n].repos && r !in states[n + 1].repos
    ensures r in states[n].apps && forall a <- states[n].apps[r] :: a in states[n].uninstalled
    ensures forall pc <- states[n].threads :: !IsChildOf(pc, r)
  {
    SummonedAlong(cfg, states, steps, n);
    var s, step := states[n], steps[n];
    assert Enabled(s, step) && states[n + 1] == Next(cfg, s, step);
    if step.Move? {
      OnlyJoinDrops(cfg, s, step.t, r);
      forall a <- s.apps[r] ensures a in s.uninstalled {
        assert ChildWait(r, a) in s.threads ==> IsChildOf(ChildWait(r, a), r);
      }
    } else {
      hide MoveThread, RequestThread;
      OtherStepJoins(cfg, s, step);
    }
  }

  lemma OnlyJoinDrops(cfg: Config, s: State, t: Tid, r: RepoId)
    requires Invariant(s) && CanMove(s, t) && r in s.repos && r !in MoveThread(cfg, s, t).repos
    ensures r in s.apps && DelRepoJoin(r) in s.threads && forall pc <- s.threads :: !IsChildOf(pc, r)
  {
    hide MoveTicker, MoveAppRequest, MoveLife;
    if IsTicker(s.threads[t]) {
      TickerEffect(s, t, t, HandlerLock);
    } else if IsAppRequest(s.threads[t]) {
      AppRequestEffect(cfg, s, t, t);
    } else if IsRepoRequest(s.threads[t]) {
      RepoRequestSteps(cfg, s, t);
      DropsOnly(s, MoveRepoRequest(cfg, s, t), t, r);
    } else {
      LifeEffect(cfg, s, t, t, HandlerLock);
    }
  }

  lemma OthersStay<T>(xs: seq<T>, xs': seq<T>, i: nat, x: T)
    requires i < |xs| && DropsAt(xs, xs', i) && x in xs && x != xs[i]
    ensures x in xs'
  {
    var j: nat :| j < |xs| && xs[j] == x;
    assert xs'[if j == |xs| - 1 then i else j] == x;
  }

  lemma DropsOnly(s: State, s': State, t: Tid, r: RepoId)
    requires t < |s.threads| <= |s'.threads| && IsRepoRequest(s.threads[t]) && RepoRequestStep(s, s', t)
    requires r in s.repos
    ensures s.threads[t] == DelRepoJoin(r) || r in s'.repos
  {
    if s.threads[t].DelRepoJoin? && s.threads[t].repo != r {
      var i: nat :| i < |s.repos| && s.repos[i] == s.threads[t].repo && DropsAt(s.repos, s'.repos, i);
      OthersStay(s.repos, s'.repos, i, r);
    }
  }

  /** And an application leaves a list only when its uninstallation has begun, or when a changed
  specification's instance takes its place. */
  lemma LeavesOnlyUninstalledOrReplaced(cfg: Config, s: State, t: Tid, r: RepoId, a: AppId)
    requires Invariant(s) && CanMove(s, t)
    requires r in s.apps && a in s.apps[r]
    requires r in MoveThread(cfg, s, t).apps ==> a !in MoveThread(cfg, s, t).apps[r]
    ensures || a in s.uninstalled
            || exists i, added ::
                 s.threads[t] == AppUpdReplace(r, i, a, added) && added in MoveThread(cfg, s, t).apps[r]
  {
    assert s.threads[t] in s.threads && Fits(s, s.threads[t]);
    hide MoveTicker, MoveLife, MoveRepoRequest;
    if IsTicker(s.threads[t]) {
      TickerEffect(s, t, t, HandlerLock);
    } else if IsAppRequest(s.threads[t]) {
      AppRequestSteps(cfg, s, t);
      hide MoveAppRequest;
      LeavesByRequest(s, MoveAppRequest(cfg, s, t), t, r, a);
    } else if IsRepoRequest(s.threads[t]) {
      RepoRequestSteps(cfg, s, t);
    } else {
      LifeEffect(cfg, s, t, t, HandlerLock);
    }
  }

  lemma LeavesByRequest(s: State, s': State, t: Tid, r: RepoId, a: AppId)
    requires t < |s.threads| && t < |s'.threads| && IsAppRequest(s.threads[t]) && AppRequestStep(s, s', t)
    requires Fits(s, s.threads[t]) && r in s.apps && a in s.apps[r]
    ensures || (r in s'.apps && a in s'.apps[r])
            || a in s.uninstalled
            || exists i, added :: s.threads[t] == AppUpdReplace(r, i, a, added) && r in s'.apps && added in s'.apps[r]
  {
    var j :| 0 <= j < |s.apps[r]| && s.apps[r][j] == a;
    match s.threads[t]
    case AppAddLocked(q, _) =>
      if q == r {
        assert s'.apps[r][j] == a;
      }
    case AppUpdReplace(q, i, b, added) =>
      if q == r {
        assert s'.apps[r][j] == if j == i then added else a;
      }
    case AppDelUninstall(q, i, b) =>
      if q == r && b != a {
        OthersStay(s.apps[r], s'.apps[r], i, a);
      }
    case _ =>
  }
}
