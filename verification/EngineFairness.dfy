/** All four levels of locks together: handler, repository, application, and the mutex of each
application's provider.

ControlPlane takes an Uninstall in one step.  Here the thread that uninstalls an application
spins for the provider's mutex, runs its own cleanup once it has it, and goes on only when
that cleanup has returned, while older cleanups and prune tasks of the provider interleave. */
module EngineFairness {
  import opened Prelude
  import opened ControlPlane
  import opened ControlInvariant
  import opened ControlProgress
  import opened ControlSound
  import R = RawTasks
  import P = RawFairness

  /** Whose turn it is: a thread of the control plane, or a cleanup or prune task of a provider. */
  datatype Who = Thread(t: Tid) | OfProvider(app: AppId, actor: P.Actor)

  /** A run of everything: the control plane, every provider, and for the applications whose
  Uninstall has got the provider's mutex the cleanup it runs. */
  datatype Engine = Engine(control: State, providers: AppId -> R.Runner, cleaning: map<AppId, nat>)

  /** The application on which the thread is inside Uninstall. */
  function Uninstalling(pc: Pc): Option<AppId> {
    match pc
    case ChildUninstall(_, a) => Some(a)
    case AppDelUninstall(_, _, a) => Some(a)
    case _ => None
  }

  ghost predicate SameProviders(e: Engine, e': Engine) {
    forall a :: e'.providers(a) == e.providers(a)
  }

  ghost predicate OnlyProvider(e: Engine, e': Engine, a: AppId) {
    forall b :: b != a ==> e'.providers(b) == e.providers(b)
  }

  /** Everything but the control plane stays, except that a lifecycle call that ends may have
  started a cleanup. */
  ghost predicate ProvidersAfterMove(e: Engine, e': Engine, pc: Pc) {
    match pc
    case LifeRun(a) =>
      && OnlyProvider(e, e', a)
      && (e'.providers(a) == e.providers(a)
          || (R.Enabled(e.providers(a), R.Lock(false)) && e'.providers(a) == R.Next(e.providers(a), R.Lock(false))))
    case _ => SameProviders(e, e')
  }

  ghost predicate ControlMoves(cfg: Config, e: Engine, e': Engine, t: Tid) {
    && CanMove(e.control, t)
    && e'.control == MoveThread(cfg, e.control, t)
    && ProvidersAfterMove(e, e', e.control.threads[t])
  }

  predicate Returned(r: R.Runner, b: nat) {
    b < |r.bodies| && r.bodies[b].Done?
  }

  /** One turn of a thread. */
  ghost predicate ThreadTurn(cfg: Config, e: Engine, e': Engine, t: Tid) {
    if !CanMove(e.control, t) then e' == e
    else match Uninstalling(e.control.threads[t])
      case None => ControlMoves(cfg, e, e', t) && e'.cleaning == e.cleaning
      case Some(a) =>
        if a in e.cleaning then
          if Returned(e.providers(a), e.cleaning[a]) then
            ControlMoves(cfg, e, e', t) && e'.cleaning == e.cleaning - {a}
          else e' == e
        else if R.Enabled(e.providers(a), R.Lock(true)) then
          && e'.control == e.control && OnlyProvider(e, e', a)
          && e'.providers(a) == R.Next(e.providers(a), R.Lock(true))
          && e'.cleaning == e.cleaning[a := |e.providers(a).bodies|]
        else e' == e
  }

  ghost predicate EngineTurn(cfg: Config, e: Engine, e': Engine, who: Who) {
    match who
    case Thread(t) => ThreadTurn(cfg, e, e', t)
    case OfProvider(a, actor) =>
      && e'.control == e.control && e'.cleaning == e.cleaning && OnlyProvider(e, e', a)
      && P.Turn(e.providers(a), actor, e'.providers(a))
  }

  ghost predicate EngineSchedule(cfg: Config, f: nat -> Engine, g: nat -> Who) {
    forall i: nat :: EngineTurn(cfg, f(i), f(i + 1), g(i))
  }

  ghost predicate WhoComes(g: nat -> Who, who: Who, i: nat) {
    exists j :: j >= i && g(j) == who
  }

  predicate Present(e: Engine, who: Who) {
    match who
    case Thread(t) => t < |e.control.threads|
    case OfProvider(a, actor) => P.Exists(e.providers(a), actor)
  }

  /** Every thread, cleanup and prune task gets another turn, whenever we look. */
  ghost predicate EngineFair(f: nat -> Engine, g: nat -> Who) {
    forall i: nat, who | Present(f(i), who) :: WhoComes(g, who, i)
  }

  ghost predicate Orderly(cfg: Config, e: Engine) {
    && Sound(cfg, e.control)
    && (forall a :: R.Invariant(e.providers(a)))
    && forall a <- e.cleaning :: e.cleaning[a] < |e.providers(a).bodies|
  }

  /*---------- every turn is orderly ----------*/

  lemma ProviderKept(r: R.Runner, actor: P.Actor, r': R.Runner)
    requires R.Invariant(r) && P.Turn(r, actor, r')
    ensures R.Invariant(r') && |r'.bodies| >= |r.bodies|
  {
    if P.Can(r, actor) {
      var step :| P.Takes(r, step, actor, r');
      R.InvariantKept(r, step);
    }
  }

  lemma LockKept(r: R.Runner, all: bool)
    requires R.Invariant(r) && R.Enabled(r, R.Lock(all))
    ensures R.Invariant(R.Next(r, R.Lock(all))) && |R.Next(r, R.Lock(all)).bodies| == |r.bodies| + 1
  {
    R.InvariantKept(r, R.Lock(all));
  }

  lemma MoveOrderly(cfg: Config, e: Engine, e': Engine, t: Tid)
    requires cfg.deletionsUnlock && !cfg.doneFirst && Orderly(cfg, e) && ControlMoves(cfg, e, e', t)
    requires forall a <- e'.cleaning :: a in e.cleaning && e'.cleaning[a] == e.cleaning[a]
    ensures Orderly(cfg, e')
  {
    SoundKept(cfg, e.control, t);
    hide Sound, MoveThread, CanMove, R.Invariant, R.Next, R.Enabled;
    forall a ensures R.Invariant(e'.providers(a)) && |e'.providers(a).bodies| >= |e.providers(a).bodies| {
      if e'.providers(a) != e.providers(a) {
        LockKept(e.providers(a), false);
      }
    }
  }

  lemma ThreadOrderly(cfg: Config, e: Engine, e': Engine, t: Tid)
    requires cfg.deletionsUnlock && !cfg.doneFirst && Orderly(cfg, e) && ThreadTurn(cfg, e, e', t)
    ensures Orderly(cfg, e')
  {
    hide Sound, MoveThread, CanMove, R.Invariant, R.Next, R.Enabled;
    if CanMove(e.control, t) {
      MoverIsThread(e.control, t);
      var uninstalling := Uninstalling(e.control.threads[t]);
      if uninstalling.None? {
        MoveOrderly(cfg, e, e', t);
      } else if uninstalling.value in e.cleaning {
        if e' != e {
          MoveOrderly(cfg, e, e', t);
        }
      } else if e' != e {
        LockKept(e.providers(uninstalling.value), true);
      }
    }
  }

  lemma TurnOrderly(cfg: Config, e: Engine, e': Engine, who: Who)
    requires cfg.deletionsUnlock && !cfg.doneFirst && Orderly(cfg, e) && EngineTurn(cfg, e, e', who)
    ensures Orderly(cfg, e')
  {
    hide Sound, ThreadTurn, R.Invariant;
    match who
    case Thread(t) => ThreadOrderly(cfg, e, e', t);
    case OfProvider(a, actor) => ProviderKept(e.providers(a), actor, e'.providers(a));
  }

  lemma {:induction false} OrderlyAlong(cfg: Config, f: nat -> Engine, g: nat -> Who, n: nat, m: nat)
    requires cfg.deletionsUnlock && !cfg.doneFirst && EngineSchedule(cfg, f, g) && Orderly(cfg, f(n)) && n <= m
    ensures Orderly(cfg, f(m))
    decreases m - n
  {
    hide Orderly, EngineTurn;
    if n < m {
      var k: nat := m - 1;
      OrderlyAlong(cfg, f, g, n, k);
      assert EngineTurn(cfg, f(k), f(k + 1), g(k));
      TurnOrderly(cfg, f(k), f(k + 1), g(k));
    }
  }

  /** An uninstalling thread first takes its provider's mutex for a cleanup of everything, once
  it is free, and goes on exactly when that cleanup has returned. */
  lemma UninstallRunsItsCleanup(cfg: Config, e: Engine, e': Engine, t: Tid, a: AppId)
    requires ThreadTurn(cfg, e, e', t) && CanMove(e.control, t) && t < |e.control.threads|
    requires Uninstalling(e.control.threads[t]) == Some(a)
    ensures a in e.cleaning && Returned(e.providers(a), e.cleaning[a]) ==>
              e'.control == MoveThread(cfg, e.control, t) && a !in e'.cleaning
    ensures a in e.cleaning && !Returned(e.providers(a), e.cleaning[a]) ==> e' == e
    ensures a !in e.cleaning ==> e'.control == e.control && (a in e'.cleaning <==> !e.providers(a).mutex)
    ensures a !in e.cleaning && a in e'.cleaning ==>
              && e'.cleaning[a] == |e.providers(a).bodies| && e'.providers(a).mutex
              && e'.providers(a).bodies == e.providers(a).bodies + [R.Reading(true)]
  {
    hide MoveThread, CanMove, ProvidersAfterMove;
  }

  /*---------- no deadlock over four levels ----------*/

  /** The next turn of this actor is not one more turn of a spin loop. */
  ghost predicate Proceeds(e: Engine, who: Who) {
    && Present(e, who)
    && match who
       case Thread(t) =>
         && CanMove(e.control, t)
         && (match Uninstalling(e.control.threads[t])
             case None => true
             case Some(a) =>
               if a in e.cleaning then Returned(e.providers(a), e.cleaning[a]) else !e.providers(a).mutex)
       case OfProvider(a, actor) => P.Can(e.providers(a), actor)
  }

  lemma ProviderProceeds(e: Engine, a: AppId)
    requires R.Invariant(e.providers(a)) && e.providers(a).mutex
    ensures exists who :: Proceeds(e, who)
  {
    P.HolderOrTaskCan(e.providers(a));
    var x :| P.Exists(e.providers(a), x) && P.Can(e.providers(a), x);
    assert Proceeds(e, OfProvider(a, x));
  }

  /** Handler, repository, application, provider: in every orderly state with an unfinished
  thread somebody proceeds. */
  lemma EngineDeadlockFree(cfg: Config, e: Engine)
    requires Orderly(cfg, e) && !AllFinished(e.control)
    ensures exists who :: Proceeds(e, who)
  {
    SoundProgress(cfg, e.control);
    hide CanMove, AllFinished, Sound, R.Invariant;
    var t: Tid :| CanMove(e.control, t);
    MoverIsThread(e.control, t);
    match Uninstalling(e.control.threads[t])
    case None => assert Proceeds(e, Thread(t));
    case Some(a) =>
      if e.providers(a).mutex {
        ProviderProceeds(e, a);
      } else {
        if a in e.cleaning {
          AllReturned(e.providers(a), e.cleaning[a]);
        }
        assert Proceeds(e, Thread(t));
      }
  }

  /*---------- one provider's view of the schedule ----------*/

  /** From `m` on nobody locks the provider's mutex. */
  ghost predicate Undisturbed(f: nat -> Engine, g: nat -> Who, a: AppId, m: nat) {
    forall i: nat | i >= m ::
      if g(i).OfProvider? && g(i).app == a then P.Turn(f(i).providers(a), g(i).actor, f(i + 1).providers(a))
      else f(i + 1).providers(a) == f(i).providers(a)
  }

  function RunnerAt(f: nat -> Engine, a: AppId, i: nat): R.Runner {
    f(i).providers(a)
  }

  /** The actor of the provider whose turn it is; for all others, one that does not exist. */
  function ActorAt(f: nat -> Engine, g: nat -> Who, a: AppId, i: nat): P.Actor {
    if g(i).OfProvider? && g(i).app == a then g(i).actor else P.TaskOf(|RunnerAt(f, a, i).members|)
  }

  lemma AbsentCannot(r: R.Runner)
    ensures !P.Can(r, P.TaskOf(|r.members|))
  {
  }

  /** `runners` and `actors` are the provider's view of the schedule from `m` on. */
  ghost predicate Views(f: nat -> Engine, g: nat -> Who, a: AppId, m: nat,
                        runners: nat -> R.Runner, actors: nat -> P.Actor)
  {
    forall i: nat, j: nat | j == m + i :: runners(i) == RunnerAt(f, a, j) && actors(i) == ActorAt(f, g, a, j)
  }

  lemma ViewIsSchedule(f: nat -> Engine, g: nat -> Who, a: AppId, m: nat,
                       runners: nat -> R.Runner, actors: nat -> P.Actor)
    requires Undisturbed(f, g, a, m) && Views(f, g, a, m, runners, actors)
    ensures P.Schedule(runners, actors)
  {
    hide P.Turn, Undisturbed;
    forall i: nat ensures P.Turn(runners(i), actors(i), runners(i + 1)) {
      var j: nat := m + i;
      ViewedTurn(f, g, a, m, j);
      assert runners(i) == RunnerAt(f, a, j) && actors(i) == ActorAt(f, g, a, j);
      assert runners(i + 1) == RunnerAt(f, a, j + 1);
    }
  }

  lemma ViewIsFair(f: nat -> Engine, g: nat -> Who, a: AppId, m: nat,
                   runners: nat -> R.Runner, actors: nat -> P.Actor)
    requires EngineFair(f, g) && Views(f, g, a, m, runners, actors)
    ensures P.Fair(runners, actors)
  {
    forall i: nat, x | P.Exists(runners(i), x) ensures P.TurnComes(actors, x, i) {
      var n: nat := m + i;
      assert runners(i) == RunnerAt(f, a, n);
      assert Present(f(n), OfProvider(a, x));
      assert WhoComes(g, OfProvider(a, x), n);
      var j: nat :| j >= n && g(j) == OfProvider(a, x);
      var k: nat := j - m;
      assert actors(k) == ActorAt(f, g, a, j);
    }
  }

  lemma FreesUp(f: nat -> Engine, g: nat -> Who, a: AppId, m: nat)
    requires Undisturbed(f, g, a, m) && EngineFair(f, g) && R.Invariant(f(m).providers(a))
    ensures exists i :: i >= m && StaysFree(f, a, i)
  {
    var runners: nat -> R.Runner := (i: nat) => RunnerAt(f, a, m + i);
    var actors: nat -> P.Actor := (i: nat) => ActorAt(f, g, a, m + i);
    hide R.Invariant, P.Turn, Undisturbed, EngineFair;
    assert Views(f, g, a, m, runners, actors);
    ViewIsSchedule(f, g, a, m, runners, actors);
    ViewIsFair(f, g, a, m, runners, actors);
    hide P.Schedule, P.Fair;
    assert runners(0) == RunnerAt(f, a, m);
    P.MutexIsGivenBack(runners, actors, 0);
    var i: nat :| !runners(i).mutex && R.Invariant(runners(i));
    forall j: nat | j >= m + i ensures !f(j).providers(a).mutex && R.Invariant(f(j).providers(a)) {
      var k: nat := j - m;
      P.FreeStaysFree(runners, actors, i, k);
      assert runners(k) == RunnerAt(f, a, j);
    }
    assert StaysFree(f, a, m + i);
  }

  lemma ViewedTurn(f: nat -> Engine, g: nat -> Who, a: AppId, m: nat, i: nat)
    requires Undisturbed(f, g, a, m) && i >= m
    ensures P.Turn(RunnerAt(f, a, i), ActorAt(f, g, a, i), RunnerAt(f, a, i + 1))
  {
    hide P.Can;
    AbsentCannot(f(i).providers(a));
    assert if g(i).OfProvider? && g(i).app == a then P.Turn(f(i).providers(a), g(i).actor, f(i + 1).providers(a))
           else f(i + 1).providers(a) == f(i).providers(a);
  }

  ghost predicate StaysFree(f: nat -> Engine, a: AppId, i: nat) {
    forall j: nat | j >= i :: !f(j).providers(a).mutex && R.Invariant(f(j).providers(a))
  }

  /*---------- some thread moves ----------*/

  ghost predicate MovesAt(cfg: Config, f: nat -> Engine, g: nat -> Who, i: nat) {
    g(i).Thread? && ControlMoves(cfg, f(i), f(i + 1), g(i).t)
  }

  ghost predicate Quiet(cfg: Config, f: nat -> Engine, g: nat -> Who, n: nat) {
    forall i: nat | i >= n :: !MovesAt(cfg, f, g, i)
  }

  /** A turn in which no thread moves leaves the control plane alone; it forgets no cleanup, and
  disturbs a provider only to start one. */
  lemma QuietTurn(cfg: Config, f: nat -> Engine, g: nat -> Who, i: nat, a: AppId)
    requires EngineSchedule(cfg, f, g) && !MovesAt(cfg, f, g, i)
    ensures f(i + 1).control == f(i).control
    ensures a in f(i).cleaning ==> a in f(i + 1).cleaning && f(i + 1).cleaning[a] == f(i).cleaning[a]
    ensures a in f(i).cleaning || a !in f(i + 1).cleaning ==>
              if g(i).OfProvider? && g(i).app == a then P.Turn(f(i).providers(a), g(i).actor, f(i + 1).providers(a))
              else f(i + 1).providers(a) == f(i).providers(a)
  {
    hide MoveThread, CanMove, R.Next, R.Enabled, P.Turn;
    assert EngineTurn(cfg, f(i), f(i + 1), g(i));
    if g(i).Thread? && CanMove(f(i).control, g(i).t) {
      MoverIsThread(f(i).control, g(i).t);
    }
  }

  lemma {:induction false} QuietStays(cfg: Config, f: nat -> Engine, g: nat -> Who, n: nat, m: nat, a: AppId)
    requires EngineSchedule(cfg, f, g) && n <= m && forall i: nat | n <= i < m :: !MovesAt(cfg, f, g, i)
    ensures f(m).control == f(n).control
    ensures a in f(n).cleaning ==> a in f(m).cleaning && f(m).cleaning[a] == f(n).cleaning[a]
    decreases m - n
  {
    hide MovesAt, EngineSchedule;
    if n < m {
      assert !MovesAt(cfg, f, g, m - 1);
      QuietStays(cfg, f, g, n, m - 1, a);
      QuietTurn(cfg, f, g, m - 1, a);
    }
  }

  /** An Uninstall that spins while nothing else moves gets the provider's mutex. */
  lemma SpinEnds(cfg: Config, f: nat -> Engine, g: nat -> Who, n: nat, t: Tid, a: AppId)
    requires EngineSchedule(cfg, f, g) && EngineFair(f, g) && Quiet(cfg, f, g, n) && R.Invariant(f(n).providers(a))
    requires CanMove(f(n).control, t) && t < |f(n).control.threads|
    requires Uninstalling(f(n).control.threads[t]) == Some(a)
    ensures exists j :: j >= n && a in f(j).cleaning
  {
    hide MovesAt, R.Invariant, CanMove;
    if forall j: nat | j >= n :: a !in f(j).cleaning {
      forall i: nat | i >= n
        ensures if g(i).OfProvider? && g(i).app == a then
                  P.Turn(f(i).providers(a), g(i).actor, f(i + 1).providers(a))
                else f(i + 1).providers(a) == f(i).providers(a)
      {
        QuietTurn(cfg, f, g, i, a);
      }
      FreesUp(f, g, a, n);
      var m: nat :| m >= n && StaysFree(f, a, m);
      QuietStays(cfg, f, g, n, m, a);
      assert Present(f(m), Thread(t));
      assert WhoComes(g, Thread(t), m);
      var k: nat :| k >= m && g(k) == Thread(t);
      QuietStays(cfg, f, g, n, k, a);
      LocksWhenFree(cfg, f, g, k, t, a);
    }
  }

  lemma LocksWhenFree(cfg: Config, f: nat -> Engine, g: nat -> Who, k: nat, t: Tid, a: AppId)
    requires EngineSchedule(cfg, f, g) && g(k) == Thread(t) && !f(k).providers(a).mutex && a !in f(k).cleaning
    requires CanMove(f(k).control, t) && t < |f(k).control.threads|
    requires Uninstalling(f(k).control.threads[t]) == Some(a)
    ensures a in f(k + 1).cleaning
  {
    hide CanMove, MoveThread;
    assert EngineTurn(cfg, f(k), f(k + 1), g(k));
  }

  /** And its cleanup returns, so that the thread moves. */
  lemma CleanupEnds(cfg: Config, f: nat -> Engine, g: nat -> Who, n: nat, t: Tid, a: AppId)
    requires cfg.deletionsUnlock && !cfg.doneFirst
    requires EngineSchedule(cfg, f, g) && EngineFair(f, g) && Orderly(cfg, f(n)) && a in f(n).cleaning
    requires CanMove(f(n).control, t) && t < |f(n).control.threads|
    requires Uninstalling(f(n).control.threads[t]) == Some(a)
    ensures !Quiet(cfg, f, g, n)
  {
    hide MovesAt, R.Invariant, CanMove, Sound;
    if Quiet(cfg, f, g, n) {
      forall i: nat | i >= n
        ensures if g(i).OfProvider? && g(i).app == a then
                  P.Turn(f(i).providers(a), g(i).actor, f(i + 1).providers(a))
                else f(i + 1).providers(a) == f(i).providers(a)
      {
        QuietStays(cfg, f, g, n, i, a);
        QuietTurn(cfg, f, g, i, a);
      }
      FreesUp(f, g, a, n);
      var m: nat :| m >= n && StaysFree(f, a, m);
      QuietStays(cfg, f, g, n, m, a);
      assert Present(f(m), Thread(t));
      assert WhoComes(g, Thread(t), m);
      var k: nat :| k >= m && g(k) == Thread(t);
      QuietStays(cfg, f, g, n, k, a);
      OrderlyAlong(cfg, f, g, n, k);
      MovesWhenReturned(cfg, f, g, k, t, a);
    }
  }

  lemma MovesWhenReturned(cfg: Config, f: nat -> Engine, g: nat -> Who, k: nat, t: Tid, a: AppId)
    requires EngineSchedule(cfg, f, g) && g(k) == Thread(t) && a in f(k).cleaning
    requires R.Invariant(f(k).providers(a)) && !f(k).providers(a).mutex
    requires f(k).cleaning[a] < |f(k).providers(a).bodies|
    requires CanMove(f(k).control, t) && t < |f(k).control.threads|
    requires Uninstalling(f(k).control.threads[t]) == Some(a)
    ensures MovesAt(cfg, f, g, k)
  {
    hide CanMove, MoveThread;
    assert EngineTurn(cfg, f(k), f(k + 1), g(k));
    AllReturned(f(k).providers(a), f(k).cleaning[a]);
  }

  lemma AllReturned(r: R.Runner, b: nat)
    requires R.Invariant(r) && !r.mutex && b < |r.bodies|
    ensures Returned(r, b)
  {
  }

  /** A thread that can move, or that can once its Uninstall has its way, does not wait for
  ever. */
  lemma SomeThreadMoves(cfg: Config, f: nat -> Engine, g: nat -> Who, n: nat)
    requires cfg.deletionsUnlock && !cfg.doneFirst
    requires EngineSchedule(cfg, f, g) && EngineFair(f, g) && Orderly(cfg, f(n)) && !AllFinished(f(n).control)
    ensures exists i :: i >= n && MovesAt(cfg, f, g, i)
  {
    SoundProgress(cfg, f(n).control);
    hide MovesAt, CanMove, Orderly, AllFinished;
    var t: Tid :| CanMove(f(n).control, t);
    MoverIsThread(f(n).control, t);
    if Quiet(cfg, f, g, n) {
      match Uninstalling(f(n).control.threads[t])
      case None =>
        assert Present(f(n), Thread(t));
        assert WhoComes(g, Thread(t), n);
        var k: nat :| k >= n && g(k) == Thread(t);
        QuietStays(cfg, f, g, n, k, AppId("", 0));
        MovesOutside(cfg, f, g, k, t);
      case Some(a) =>
        OrderlyProvider(cfg, f(n), a);
        SpinEnds(cfg, f, g, n, t, a);
        var j: nat :| j >= n && a in f(j).cleaning;
        QuietStays(cfg, f, g, n, j, a);
        OrderlyAlong(cfg, f, g, n, j);
        CleanupEnds(cfg, f, g, j, t, a);
    }
  }

  lemma OrderlyProvider(cfg: Config, e: Engine, a: AppId)
    requires Orderly(cfg, e)
    ensures R.Invariant(e.providers(a))
  {
  }

  lemma MovesOutside(cfg: Config, f: nat -> Engine, g: nat -> Who, k: nat, t: Tid)
    requires EngineSchedule(cfg, f, g) && g(k) == Thread(t)
    requires CanMove(f(k).control, t) && t < |f(k).control.threads| && Uninstalling(f(k).control.threads[t]).None?
    ensures MovesAt(cfg, f, g, k)
  {
    hide CanMove, MoveThread;
    assert EngineTurn(cfg, f(k), f(k + 1), g(k));
  }

  lemma {:induction false} FirstMove(cfg: Config, f: nat -> Engine, g: nat -> Who, n: nat, j: nat) returns (i: nat)
    requires EngineSchedule(cfg, f, g) && n <= j && MovesAt(cfg, f, g, j)
    ensures n <= i <= j && MovesAt(cfg, f, g, i) && f(i).control == f(n).control
    decreases j - n
  {
    hide MovesAt;
    if MovesAt(cfg, f, g, n) {
      i := n;
    } else {
      QuietTurn(cfg, f, g, n, AppId("", 0));
      i := FirstMove(cfg, f, g, n + 1, j);
    }
  }

  /*---------- the theorem ----------*/

  lemma {:induction false} OrderlyEngineFinishes(cfg: Config, f: nat -> Engine, g: nat -> Who, n: nat)
    requires cfg.deletionsUnlock && !cfg.doneFirst
    requires EngineSchedule(cfg, f, g) && EngineFair(f, g) && Orderly(cfg, f(n))
    ensures exists i :: i >= n && AllFinished(f(i).control)
    decreases Requests(f(n).control),
              if |f(n).control.threads| > 0 then TickerRepos(f(n).control.threads[0]) else 0,
              if |f(n).control.threads| > 0 then TickerApps(f(n).control.threads[0]) else 0,
              Goroutines(f(n).control)
  {
    hide CanMove, MoveThread, Orderly, AllFinished, Requests, Goroutines, ProvidersAfterMove;
    hide EngineSchedule, EngineFair;
    if AllFinished(f(n).control) {
      assert n >= n;
    } else {
      SomeThreadMoves(cfg, f, g, n);
      var j: nat :| j >= n && MovesAt(cfg, f, g, j);
      var i := FirstMove(cfg, f, g, n, j);
      OrderlyRoles(cfg, f(n));
      MoveCloser(cfg, f(i).control, g(i).t);
      OrderlyAlong(cfg, f, g, n, i + 1);
      OrderlyEngineFinishes(cfg, f, g, i + 1);
    }
  }

  lemma OrderlyRoles(cfg: Config, e: Engine)
    requires Orderly(cfg, e)
    ensures Roles(e.control)
  {
    ReachableRoles(cfg, e.control);
  }

  /** Every spin loop of the engine ends, those for the providers' mutexes included.  With
  deletions that unlock and goroutines that unlock before Done, take any state of the control
  plane that the server can reach, with its providers in any state they can reach (older
  cleanups and prune tasks under way).  Under every fair schedule without new requests and
  ticks, whatever discovery and the cluster answer, every request has returned sooner or
  later, every goroutine has ended, and the ticker is idle; and so it stays. */
  lemma EngineComesToRest(cfg: Config, states: seq<State>, steps: seq<Step>, n: nat, f: nat -> Engine, g: nat -> Who)
    requires cfg.deletionsUnlock && !cfg.doneFirst
    requires Run(cfg, states, steps) && states[0] == INITIAL && n < |states|
    requires f(0).control == states[n] && f(0).cleaning == map[] && forall a :: R.Invariant(f(0).providers(a))
    requires EngineSchedule(cfg, f, g) && EngineFair(f, g)
    ensures exists i: nat :: AllFinished(f(i).control) && forall j: nat :: j >= i ==> f(j).control == f(i).control
  {
    ReachedIsSound(cfg, states, steps, n);
    hide Sound, Run, R.Invariant, AllFinished, EngineSchedule, EngineFair;
    assert Orderly(cfg, f(0));
    OrderlyEngineFinishes(cfg, f, g, 0);
    var i: nat :| i >= 0 && AllFinished(f(i).control);
    forall j: nat | j >= i ensures f(j).control == f(i).control {
      FinishedStays(cfg, f, g, i, j);
    }
  }

  lemma {:induction false} FinishedStays(cfg: Config, f: nat -> Engine, g: nat -> Who, i: nat, j: nat)
    requires EngineSchedule(cfg, f, g) && AllFinished(f(i).control) && i <= j
    ensures f(j).control == f(i).control
    decreases j - i
  {
    hide MoveThread, CanMove, EngineSchedule, AllFinished, ProvidersAfterMove;
    if i < j {
      var k: nat := j - 1;
      FinishedStays(cfg, f, g, i, k);
      if g(k).Thread? {
        FinishedCannotMove(f(k).control, g(k).t);
      }
      QuietTurn(cfg, f, g, k, AppId("", 0));
    }
  }
}
