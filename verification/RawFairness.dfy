/** The last lock in rank: under a fair schedule the provider's mutex is given back, and an
Uninstall that spins for it gets it. */
module RawFairness {
  import opened Prelude
  import opened Git
  import C = RawCluster
  import opened RawTasks

  /** Who can be given a turn; a goroutine or task that does not exist stands for a turn that
  something else has used. */
  datatype Actor = BodyOf(body: nat) | TaskOf(task: nat)

  predicate Exists(r: Runner, x: Actor) {
    match x
    case BodyOf(b) => b < |r.bodies|
    case TaskOf(t) => t < |r.members|
  }

  predicate StepOf(step: Step, x: Actor) {
    match step
    case Lock(_) => false
    case Read(b, _, _) => x == BodyOf(b)
    case Discover(b, _) => x == BodyOf(b)
    case Spawn(b) => x == BodyOf(b)
    case NextVersion(b) => x == BodyOf(b)
    case Unlock(b) => x == BodyOf(b)
    case List(t, _) => x == TaskOf(t)
    case ListFail(t) => x == TaskOf(t)
    case Delete(t, _, _) => x == TaskOf(t)
    case End(t) => x == TaskOf(t)
  }

  ghost predicate Takes(r: Runner, step: Step, x: Actor, r': Runner) {
    StepOf(step, x) && Enabled(r, step) && r' == Next(r, step)
  }

  ghost predicate Can(r: Runner, x: Actor) {
    exists step :: StepOf(step, x) && Enabled(r, step)
  }

  /** The actor takes one of its steps, any answer being possible, or has none. */
  ghost predicate Turn(r: Runner, x: Actor, r': Runner) {
    if Can(r, x) then exists step :: Takes(r, step, x, r') else r' == r
  }

  /** An endless schedule in which nobody locks. */
  ghost predicate Schedule(f: nat -> Runner, g: nat -> Actor) {
    forall i: nat :: Turn(f(i), g(i), f(i + 1))
  }

  ghost predicate TurnComes(g: nat -> Actor, x: Actor, i: nat) {
    exists j :: j >= i && g(j) == x
  }

  ghost predicate Fair(f: nat -> Runner, g: nat -> Actor) {
    forall i: nat, x | Exists(f(i), x) :: TurnComes(g, x, i)
  }

  /*---------- the measure ----------*/

  /** Types and group versions that a goroutine has still to go through. */
  function Ahead(versions: seq<Version>): nat {
    if versions == [] then 0 else |versions[0]| + 2 + Ahead(versions[1..])
  }

  function BodyWork(body: Body): nat {
    match body
    case Discovering(_, versions) => Ahead(versions)
    case Spawning(_, _, kinds, versions) => |kinds| + 1 + Ahead(versions)
    case _ => 0
  }

  function LastBody(r: Runner): Body {
    if r.bodies == [] then Done else r.bodies[|r.bodies| - 1]
  }

  /** Tasks that have still to List. */
  function Unlisted(members: seq<Member>): nat {
    if members == [] then 0
    else Unlisted(members[..|members| - 1]) + if members[|members| - 1].task.Listing? then 1 else 0
  }

  function TaskWork(task: C.Task): nat {
    match task
    case Listing(_, _) => 1
    case Deleting(_, _, names) => |names| + 1
    case Ended => 0
  }

  /** Names left to delete, and unfinished tasks. */
  function Undone(members: seq<Member>): nat {
    if members == [] then 0 else Undone(members[..|members| - 1]) + TaskWork(members[|members| - 1].task)
  }

  function Unread(r: Runner): nat {
    if LastBody(r).Reading? then 1 else 0
  }

  lemma {:induction false} UndoneUpdate(members: seq<Member>, t: nat, task: C.Task)
    requires t < |members|
    ensures var members' := members[t := members[t].(task := task)];
            && Undone(members') + TaskWork(members[t].task) == Undone(members) + TaskWork(task)
            && Unlisted(members') + (if members[t].task.Listing? then 1 else 0)
               == Unlisted(members) + if task.Listing? then 1 else 0
  {
    var n, members' := |members| - 1, members[t := members[t].(task := task)];
    if t == n {
      assert members'[..n] == members[..n];
    } else {
      UndoneUpdate(members[..n], t, task);
      assert members'[..n] == members[..n][t := members[t].(task := task)];
    }
  }

  /** A step brings the release of the mutex closer, or is it. */
  ghost predicate Closer(r: Runner, r': Runner) {
    || !r'.mutex
    || Unread(r') < Unread(r)
    || (&& Unread(r') == Unread(r)
        && (|| BodyWork(LastBody(r')) < BodyWork(LastBody(r))
            || (&& LastBody(r') == LastBody(r)
                && (|| Unlisted(r'.members) < Unlisted(r.members)
                    || (Unlisted(r'.members) == Unlisted(r.members) && Undone(r'.members) < Undone(r.members))))))
  }

  lemma BodyStepCloser(r: Runner, step: Step, b: nat)
    requires OneBody(r) && Enabled(r, step) && StepOf(step, BodyOf(b))
    ensures Closer(r, Next(r, step))
  {
    assert b == |r.bodies| - 1;
  }

  lemma TaskStepCloser(r: Runner, step: Step, t: nat)
    requires OneBody(r) && Enabled(r, step) && StepOf(step, TaskOf(t))
    ensures Closer(r, Next(r, step))
  {
    var r' := Next(r, step);
    assert r'.bodies == r.bodies && r'.mutex == r.mutex;
    UndoneUpdate(r.members, t, r'.members[t].task);
    hide Undone, Unlisted, OneBody;
  }

  lemma StepCloser(r: Runner, step: Step, x: Actor)
    requires OneBody(r) && Enabled(r, step) && StepOf(step, x)
    ensures Closer(r, Next(r, step))
  {
    hide Closer, Next, Enabled;
    match x
    case BodyOf(b) => BodyStepCloser(r, step, b);
    case TaskOf(t) => TaskStepCloser(r, step, t);
  }

  /*---------- progress ----------*/

  /** While the mutex is held its holder can move, or it waits for room in a pool of which some
  task can. */
  lemma HolderOrTaskCan(r: Runner)
    requires Invariant(r) && r.mutex
    ensures exists x :: Exists(r, x) && Can(r, x)
  {
    var b := |r.bodies| - 1;
    assert Exists(r, BodyOf(b));
    match r.bodies[b]
    case Reading(_) => CanBy(r, Read(b, ZERO_HASH, None), BodyOf(b));
    case Discovering(_, versions) =>
      CanBy(r, if versions == [] then Unlock(b) else Discover(b, false), BodyOf(b));
    case Spawning(_, p, kinds, _) =>
      assert Counted(r, p);
      if kinds == [] {
        CanBy(r, NextVersion(b), BodyOf(b));
      } else if r.pools[p].tokens < POOL_SIZE {
        CanBy(r, Spawn(b), BodyOf(b));
      } else {
        UnfinishedIsThere(r.members, p);
        var t: nat :| t < |r.members| && r.members[t].pool == p && !r.members[t].task.Ended?;
        TaskNeverWaits(r, t);
        var step :| Enabled(r, step) && (step.ListFail? || step.Delete? || step.End?) && step.task == t;
        CanBy(r, step, TaskOf(t));
        assert Exists(r, TaskOf(t));
      }
  }

  lemma CanBy(r: Runner, step: Step, x: Actor)
    requires Enabled(r, step) && StepOf(step, x)
    ensures Can(r, x)
  {
  }

  /** The state stays as it is until somebody moves, and fairness brings the turn of somebody
  who can. */
  lemma {:induction false} SomebodyMoves(f: nat -> Runner, g: nat -> Actor, i: nat, x: Actor, k: nat)
    requires Schedule(f, g) && Can(f(i), x) && i <= k && g(k) == x
    ensures exists j :: i <= j <= k && f(j) == f(i) && Can(f(j), g(j))
    decreases k - i
  {
    hide Can, Takes;
    if Can(f(i), g(i)) {
      assert f(i) == f(i);
    } else {
      assert Turn(f(i), g(i), f(i + 1));
      SomebodyMoves(f, g, i + 1, x, k);
      var j :| i + 1 <= j <= k && f(j) == f(i + 1) && Can(f(j), g(j));
    }
  }

  /** The mutex is given back: from any state the runner can reach, every fair schedule comes to
  a point where nobody holds it, whatever discovery and the cluster answer, and however often
  the goroutine has to wait for one of the ten tokens of a pool. */
  lemma {:induction false} MutexIsGivenBack(f: nat -> Runner, g: nat -> Actor, n: nat)
    requires Schedule(f, g) && Fair(f, g) && Invariant(f(n))
    ensures exists i :: i >= n && !f(i).mutex && Invariant(f(i))
    decreases Unread(f(n)), BodyWork(LastBody(f(n))), Unlisted(f(n).members), Undone(f(n).members)
  {
    hide Can, Next, Enabled, Invariant, Unread, BodyWork, LastBody, Unlisted, Undone;
    if f(n).mutex {
      HolderOrTaskCan(f(n));
      var x :| Exists(f(n), x) && Can(f(n), x);
      assert TurnComes(g, x, n);
      var k: nat :| k >= n && g(k) == x;
      SomebodyMoves(f, g, n, x, k);
      var j: nat :| n <= j <= k && f(j) == f(n) && Can(f(j), g(j));
      assert Turn(f(j), g(j), f(j + 1));
      var step :| Takes(f(j), step, g(j), f(j + 1));
      InvariantKept(f(j), step);
      InvariantHasOneBody(f(j));
      StepCloser(f(j), step, g(j));
      if f(j + 1).mutex {
        MutexIsGivenBack(f, g, j + 1);
      } else {
        assert j + 1 >= n;
      }
    } else {
      assert n >= n;
    }
  }

  lemma InvariantHasOneBody(r: Runner)
    requires Invariant(r)
    ensures OneBody(r)
  {
  }

  /** While nobody locks, a free mutex stays free, and goroutines that have returned stay so. */
  lemma {:induction false} FreeStaysFree(f: nat -> Runner, g: nat -> Actor, i: nat, j: nat)
    requires Schedule(f, g) && Invariant(f(i)) && !f(i).mutex && i <= j
    ensures Invariant(f(j)) && !f(j).mutex && |f(j).bodies| == |f(i).bodies|
    decreases j - i
  {
    hide Can, Next, Enabled, Invariant;
    if i < j {
      var k: nat := j - 1;
      FreeStaysFree(f, g, i, k);
      assert Turn(f(k), g(k), f(k + 1));
      if Can(f(k), g(k)) {
        var step :| Takes(f(k), step, g(k), f(k + 1));
        InvariantKept(f(k), step);
        FreeThroughStep(f(k), step);
      }
    }
  }

  lemma FreeThroughStep(r: Runner, step: Step)
    requires Invariant(r) && !r.mutex && Enabled(r, step) && !step.Lock?
    ensures !Next(r, step).mutex && |Next(r, step).bodies| == |r.bodies|
  {
  }

  ghost predicate TryComes(tries: nat -> bool, i: nat) {
    exists j :: j >= i && tries(j)
  }

  /** So an Uninstall that keeps trying gets the mutex (while it holds the application, no
  Delivery competes with it). */
  lemma UninstallGetsMutex(f: nat -> Runner, g: nat -> Actor, tries: nat -> bool, n: nat)
    requires Schedule(f, g) && Fair(f, g) && Invariant(f(n))
    requires forall i: nat :: TryComes(tries, i)
    ensures exists i :: i >= n && tries(i) && Enabled(f(i), Lock(true))
  {
    MutexIsGivenBack(f, g, n);
    var m: nat :| m >= n && !f(m).mutex && Invariant(f(m));
    assert TryComes(tries, m);
    var i: nat :| i >= m && tries(i);
    FreeStaysFree(f, g, m, i);
  }
}
