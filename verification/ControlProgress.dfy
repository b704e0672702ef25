/** Deadlock freedom and termination of the spin loops; and what the missing unlocks cost. */
module ControlProgress {
  import opened ControlPlane
  import opened ControlInvariant
  import opened ControlWaitGroup

  /*---------- lock order ----------*/

  function Rank(l: Lock): nat {
    match l
    case HandlerLock => 0
    case OfRepo(_) => 1
    case OfApp(_) => 2
  }

  /** Handler before repository before application: whatever a thread waits for ranks above
  everything it holds, so no cycle of waiting threads exists. */
  lemma WaitsUpwards(s: State, pc: Pc, l: Lock)
    requires WaitsFor(s, pc).Some? && l in Holds(pc)
    ensures Rank(l) < Rank(WaitsFor(s, pc).value)
  {
  }

  /** Nobody waits for a lock that no live thread will give back. */
  ghost predicate NoHopelessWait(s: State) {
    forall pc <- s.threads | WaitsFor(s, pc).Some? :: !Leaked(s, WaitsFor(s, pc).value)
  }

  predicate Unfinished(pc: Pc) {
    !pc.Ended? && !pc.TickIdle?
  }

  ghost predicate SomeoneMoves(s: State) {
    exists t :: CanMove(s, t)
  }

  /** Goroutines and other holders of an application never wait. */
  lemma AppHolderMoves(s: State, t: Tid, a: AppId)
    requires Invariant(s) && t < |s.threads| && OfApp(a) in Holds(s.threads[t])
    ensures CanMove(s, t)
  {
    assert s.threads[t] in s.threads && Fits(s, s.threads[t]);
  }

  /** Whoever waits for an application can move, or its holder can. */
  lemma AppWaiterProgress(s: State, t: Tid)
    requires Invariant(s) && NoHopelessWait(s) && t < |s.threads|
    requires WaitsFor(s, s.threads[t]).Some? && WaitsFor(s, s.threads[t]).value.OfApp?
    ensures SomeoneMoves(s)
  {
    var l := WaitsFor(s, s.threads[t]).value;
    assert s.threads[t] in s.threads && Fits(s, s.threads[t]);
    if l in s.locks {
      assert !Leaked(s, l);
      AppHolderMoves(s, s.locks[l], l.app);
    } else {
      assert CanMove(s, t);
    }
  }

  /** A goroutine of a repository deletion is done, or something moves. */
  lemma ChildProgress(s: State, t: Tid, r: RepoId)
    requires Invariant(s) && NoHopelessWait(s) && t < |s.threads| && IsChildOf(s.threads[t], r)
    ensures SomeoneMoves(s)
  {
    if s.threads[t].ChildUninstall? {
      AppHolderMoves(s, t, s.threads[t].app);
    } else {
      AppWaiterProgress(s, t);
    }
  }

  lemma RepoHolderProgress(s: State, t: Tid, r: RepoId)
    requires Invariant(s) && NoHopelessWait(s) && t < |s.threads| && OfRepo(r) in Holds(s.threads[t])
    ensures SomeoneMoves(s)
  {
    var pc := s.threads[t];
    assert pc in s.threads && Fits(s, pc);
    if pc.AppUpdWaitApp? || pc.AppDelWaitApp? {
      AppWaiterProgress(s, t);
    } else if pc.DelRepoJoin? {
      if u: Tid :| u < |s.threads| && IsChildOf(s.threads[u], pc.repo) {
        ChildProgress(s, u, pc.repo);
      } else {
        assert CanMove(s, t);
      }
    } else {
      assert CanMove(s, t);
    }
  }

  lemma RepoWaiterProgress(s: State, t: Tid)
    requires Invariant(s) && NoHopelessWait(s) && t < |s.threads|
    requires WaitsFor(s, s.threads[t]).Some? && WaitsFor(s, s.threads[t]).value.OfRepo?
    ensures SomeoneMoves(s)
  {
    var l := WaitsFor(s, s.threads[t]).value;
    assert s.threads[t] in s.threads && Fits(s, s.threads[t]);
    if l in s.locks {
      assert !Leaked(s, l);
      RepoHolderProgress(s, s.locks[l], l.repo);
    } else {
      assert CanMove(s, t);
    }
  }

  lemma TickWaitProgress(cfg: Config, s: State)
    requires Invariant(s) && Balanced(cfg, s) && s.wg >= 0 && s.threads[0].TickWait?
    ensures SomeoneMoves(s)
  {
    if s.wg == 0 {
      assert CanMove(s, 0);
    } else {
      CountZero(cfg, s.threads);
      var pc :| pc in s.threads && Pending(cfg, pc);
      var t: Tid :| t < |s.threads| && s.threads[t] == pc;
      assert CanMove(s, t);
    }
  }

  lemma HandlerHolderProgress(cfg: Config, s: State, t: Tid)
    requires Invariant(s) && Balanced(cfg, s) && s.wg >= 0 && NoHopelessWait(s)
    requires t < |s.threads| && HandlerLock in Holds(s.threads[t])
    ensures SomeoneMoves(s)
  {
    var pc := s.threads[t];
    assert pc in s.threads && Fits(s, pc);
    if pc.TickWait? {
      assert IsTicker(pc);
      TickWaitProgress(cfg, s);
    } else if pc.DelRepoWaitRepo? {
      RepoWaiterProgress(s, t);
    } else if pc.DelRepoJoin? {
      RepoHolderProgress(s, t, pc.repo);
    } else {
      if pc.TickRepos? && pc.todo != [] {
        assert pc.todo[0] in pc.todo;
      }
      assert CanMove(s, t);
    }
  }

  /** Deadlock freedom: in every reachable state in which the WaitGroup has not gone negative
  and nobody waits for a lock left behind, some thread can make a step that is not one more
  turn of a spin loop, unless all are finished. */
  lemma DeadlockFree(cfg: Config, s: State, t: Tid)
    requires Reachable(cfg, s) && s.wg >= 0 && NoHopelessWait(s)
    requires t < |s.threads| && Unfinished(s.threads[t])
    ensures SomeoneMoves(s)
  {
    var pc := s.threads[t];
    assert pc in s.threads && Fits(s, pc);
    if HandlerLock in Holds(pc) {
      HandlerHolderProgress(cfg, s, t);
    } else if WaitsFor(s, pc).Some? {
      var l := WaitsFor(s, pc).value;
      match l
      case OfApp(_) => AppWaiterProgress(s, t);
      case OfRepo(_) => RepoWaiterProgress(s, t);
      case HandlerLock =>
        if l in s.locks {
          assert !Leaked(s, l);
          HandlerHolderProgress(cfg, s, s.locks[l]);
        } else {
          assert CanMove(s, t);
        }
    } else {
      assert CanMove(s, t);
    }
  }

  /*---------- every schedule ends ----------*/

  /** What is left to do for a request thread, not counting goroutines it has yet to start. */
  function RequestWork(pc: Pc): nat {
    match pc
    case AddRepoWait(_) => 2
    case AddRepoLocked(_) => 1
    case DelRepoWait(_) => 4
    case DelRepoLocked(_) => 3
    case DelRepoWaitRepo(_) => 2
    case DelRepoJoin(_) => 1
    case AppAddWait(_, _) => 2
    case AppAddLocked(_, _) => 1
    case AppUpdWait(_, _, _) => 3
    case AppUpdWaitApp(_, _, _) => 2
    case AppUpdReplace(_, _, _, _) => 1
    case AppDelWait(_, _, _) => 3
    case AppDelWaitApp(_, _, _) => 2
    case AppDelUninstall(_, _, _) => 1
    case _ => 0
  }

  /** What is left for goroutines. */
  function GoroutineWork(pc: Pc): nat {
    match pc
    case LifeRun(_) => 2
    case LifeUnlock(_) => 1
    case LifeSignal(_) => 1
    case ChildWait(_, _) => 2
    case ChildUninstall(_, _) => 1
    case _ => 0
  }

  /** Repositories the ticker has still to visit, and then applications of the current one. */
  function TickerRepos(pc: Pc): nat {
    match pc
    case TickRepos(todo) => |todo| + 2
    case TickApps(_, _, todo) => |todo| + 2
    case TickWait => 1
    case _ => 0
  }

  function TickerApps(pc: Pc): nat {
    match pc
    case TickApps(_, apps, _) => |apps| + 1
    case _ => 0
  }

  function Total(f: Pc -> nat, threads: seq<Pc>): nat {
    if threads == [] then 0 else Total(f, threads[..|threads| - 1]) + f(threads[|threads| - 1])
  }

  lemma {:induction false} TotalUpdate(f: Pc -> nat, threads: seq<Pc>, t: nat, pc: Pc)
    requires t < |threads|
    ensures Total(f, threads[t := pc]) + f(threads[t]) == Total(f, threads) + f(pc)
  {
    var n := |threads| - 1;
    if t == n {
      assert threads[t := pc][..n] == threads[..n];
    } else {
      TotalUpdate(f, threads[..n], t, pc);
      assert threads[t := pc][..n] == threads[..n][t := pc];
    }
  }

  lemma {:induction false} TotalAppendZero(f: Pc -> nat, threads: seq<Pc>, more: seq<Pc>)
    requires forall pc <- more :: f(pc) == 0
    ensures Total(f, threads + more) == Total(f, threads)
    decreases |more|
  {
    if more == [] {
      assert threads + more == threads;
    } else {
      var n := |more| - 1;
      TotalAppendZero(f, threads, more[..n]);
      assert (threads + more)[..|threads| + n] == threads + more[..n];
      assert (threads + more)[|threads| + n] == more[n];
    }
  }

  function Requests(s: State): nat {
    Total(RequestWork, s.threads)
  }

  function Goroutines(s: State): nat {
    Total(GoroutineWork, s.threads)
  }

  /** Every move of a thread that is not a spin makes the tuple smaller: requests, then the
  ticker's repositories, its applications, and goroutines. */
  ghost predicate Closer(s: State, s': State) {
    || Requests(s') < Requests(s)
    || (&& Requests(s') == Requests(s) && |s.threads| > 0 && |s'.threads| > 0
        && (|| TickerRepos(s'.threads[0]) < TickerRepos(s.threads[0])
            || (&& TickerRepos(s'.threads[0]) == TickerRepos(s.threads[0])
                && (|| TickerApps(s'.threads[0]) < TickerApps(s.threads[0])
                    || (TickerApps(s'.threads[0]) == TickerApps(s.threads[0]) && Goroutines(s') < Goroutines(s))))))
  }

  lemma RequestMoveCloser(cfg: Config, s: State, t: Tid)
    requires CanMove(s, t) && (IsAppRequest(s.threads[t]) || IsRepoRequest(s.threads[t]))
    requires RequestWork(s.threads[t]) > 0
    ensures Requests(MoveThread(cfg, s, t)) < Requests(s)
  {
    var s' := MoveThread(cfg, s, t);
    MoverWork(cfg, s, t);
    hide MoveThread, Total;
    var more := s'.threads[|s.threads|..];
    assert s'.threads == s.threads[t := s'.threads[t]] + more;
    TotalUpdate(RequestWork, s.threads, t, s'.threads[t]);
    TotalAppendZero(RequestWork, s.threads[t := s'.threads[t]], more);
  }

  /** A request's own work shrinks with each of its moves; threads it starts are goroutines. */
  predicate WorkShrinks(s: State, s': State, t: Tid)
    requires t < |s.threads|
  {
    && |s'.threads| >= |s.threads|
    && (RequestWork(s.threads[t]) > 0 ==> RequestWork(s'.threads[t]) < RequestWork(s.threads[t]))
    && (RequestWork(s.threads[t]) == 0 ==>
          && RequestWork(s'.threads[t]) == 0 && |s'.threads| == |s.threads|
          && GoroutineWork(s'.threads[t]) < GoroutineWork(s.threads[t]))
    && (forall u | 0 <= u < |s.threads| && u != t :: s'.threads[u] == s.threads[u])
    && (forall u | |s.threads| <= u < |s'.threads| :: RequestWork(s'.threads[u]) == 0)
  }

  lemma AppMoverWork(cfg: Config, s: State, t: Tid)
    requires CanMove(s, t) && IsAppRequest(s.threads[t])
    ensures WorkShrinks(s, MoveAppRequest(cfg, s, t), t)
  {
  }

  lemma RepoMoverWork(cfg: Config, s: State, t: Tid)
    requires CanMove(s, t) && IsRepoRequest(s.threads[t])
    ensures WorkShrinks(s, MoveRepoRequest(cfg, s, t), t)
  {
  }

  lemma MoverWork(cfg: Config, s: State, t: Tid)
    requires CanMove(s, t) && (IsAppRequest(s.threads[t]) || IsRepoRequest(s.threads[t]))
    ensures WorkShrinks(s, MoveThread(cfg, s, t), t)
  {
    hide MoveAppRequest, MoveRepoRequest, WorkShrinks;
    if IsAppRequest(s.threads[t]) {
      AppMoverWork(cfg, s, t);
    } else {
      RepoMoverWork(cfg, s, t);
    }
  }

  lemma GoroutineMoveCloser(cfg: Config, s: State, t: Tid)
    requires CanMove(s, t) && t != 0 && GoroutineWork(s.threads[t]) > 0
    ensures Closer(s, MoveThread(cfg, s, t))
  {
    var s' := MoveThread(cfg, s, t);
    if IsRepoRequest(s.threads[t]) {
      MoverWork(cfg, s, t);
    }
    assert GoroutineWork(s'.threads[t]) < GoroutineWork(s.threads[t]);
    assert RequestWork(s'.threads[t]) == RequestWork(s.threads[t]) == 0;
    assert s'.threads == s.threads[t := s'.threads[t]];
    hide MoveThread, Total;
    TotalUpdate(RequestWork, s.threads, t, s'.threads[t]);
    TotalUpdate(GoroutineWork, s.threads, t, s'.threads[t]);
  }

  lemma TickerMoveCloser(s: State)
    requires CanMove(s, 0) && IsTicker(s.threads[0])
    ensures Closer(s, MoveTicker(s, 0))
  {
    var s' := MoveTicker(s, 0);
    TickerEffect(s, 0, 0, HandlerLock);
    forall u: Tid | u < |s.threads| && u != 0 ensures s'.threads[u] == s.threads[u] {
      TickerEffect(s, 0, u, HandlerLock);
    }
    var more := s'.threads[|s.threads|..];
    assert s'.threads == s.threads[0 := s'.threads[0]] + more;
    TotalUpdate(RequestWork, s.threads, 0, s'.threads[0]);
    TotalAppendZero(RequestWork, s.threads[0 := s'.threads[0]], more);
  }

  lemma MoveCloser(cfg: Config, s: State, t: Tid)
    requires Roles(s) && CanMove(s, t)
    ensures Closer(s, MoveThread(cfg, s, t))
  {
    hide MoveTicker, MoveAppRequest, MoveRepoRequest, MoveLife, Total;
    if IsTicker(s.threads[t]) {
      TickerMoveCloser(s);
    } else if RequestWork(s.threads[t]) > 0 {
      RequestMoveCloser(cfg, s, t);
    } else {
      GoroutineMoveCloser(cfg, s, t);
    }
  }

  /** Without new requests and ticks no schedule of moves goes on for ever: whatever infinite
  sequence of states and thread choices is proposed, somewhere it is not a move. */
  lemma {:induction false} NoEndlessSchedule(cfg: Config, f: nat -> State, g: nat -> Tid, n: nat)
    requires Invariant(f(n))
    ensures exists i :: i >= n && !(CanMove(f(i), g(i)) && f(i + 1) == MoveThread(cfg, f(i), g(i)))
    decreases Requests(f(n)), if |f(n).threads| > 0 then TickerRepos(f(n).threads[0]) else 0,
              if |f(n).threads| > 0 then TickerApps(f(n).threads[0]) else 0, Goroutines(f(n))
  {
    if CanMove(f(n), g(n)) && f(n + 1) == MoveThread(cfg, f(n), g(n)) {
      MoveCloser(cfg, f(n), g(n));
      InvariantKept(cfg, f(n), Move(g(n)));
      NoEndlessSchedule(cfg, f, g, n + 1);
    }
  }
}
