/** The provider mutex and the task pools, goroutine by goroutine.

RawCluster has one field for the holder of the mutex and launches prune tasks in any order.
Here every call of `cleanResources` is a goroutine of its own: it is started by whoever took
the mutex (a Delivery hands it over, an Uninstall keeps it), asks discovery group version by
group version, makes a channel of ten tokens for each, and gives every task it launches a
token that the task returns when its List fails or its last Delete has been tried.  That this
machine behaves as RawCluster says is the refinement at the end. */
module RawTasks {
  import opened Prelude
  import opened Git
  import C = RawCluster

  const POOL_SIZE := 10

  /** The resource types of one group version. */
  type Version = seq<Kind>

  /** A goroutine in `cleanResources`. */
  datatype Body =
    | Reading(all: bool)
    | Discovering(selector: C.Selector, versions: seq<Version>)
    | Spawning(selector: C.Selector, pool: nat, kinds: seq<Kind>, versions: seq<Version>)
    | Done

  /** The channel made for a group version that answered, and the tokens in it. */
  datatype Pool = Pool(body: nat, reported: seq<Kind>, tokens: nat)

  /** A prune task, and the pool it has its token from. */
  datatype Member = Member(pool: nat, kind: Kind, task: C.Task)

  /** `locks` and `unlocks` count what has been done to the mutex. */
  datatype Runner = Runner(
    mutex: bool,
    locks: nat,
    unlocks: nat,
    bodies: seq<Body>,
    pools: seq<Pool>,
    members: seq<Member>)

  datatype Step =
    | Lock(all: bool)
    | Read(body: nat, revision: Hash, groups: Option<seq<Version>>)
    | Discover(body: nat, answers: bool)
    | Spawn(body: nat)
    | NextVersion(body: nat)
    | Unlock(body: nat)
    | List(task: nat, names: set<C.Key>)
    | ListFail(task: nat)
    | Delete(task: nat, key: C.Key, deleted: bool)
    | End(task: nat)

  predicate HasBody(r: Runner, b: nat) {
    b < |r.bodies|
  }

  /** The task can return its token: receiving from an empty channel would block. */
  predicate HasToken(r: Runner, t: nat) {
    t < |r.members| && r.members[t].pool < |r.pools| && r.pools[r.members[t].pool].tokens > 0
  }

  predicate Enabled(r: Runner, step: Step) {
    match step
    case Lock(_) => !r.mutex
    case Read(b, _, _) => HasBody(r, b) && r.bodies[b].Reading?
    case Discover(b, _) => HasBody(r, b) && r.bodies[b].Discovering? && r.bodies[b].versions != []
    case Spawn(b) =>
      && HasBody(r, b) && r.bodies[b].Spawning? && r.bodies[b].kinds != []
      && r.bodies[b].pool < |r.pools| && r.pools[r.bodies[b].pool].tokens < POOL_SIZE
    case NextVersion(b) => HasBody(r, b) && r.bodies[b].Spawning? && r.bodies[b].kinds == []
    case Unlock(b) => HasBody(r, b) && r.bodies[b].Discovering? && r.bodies[b].versions == []
    case List(t, _) => t < |r.members| && r.members[t].task.Listing?
    case ListFail(t) => t < |r.members| && r.members[t].task.Listing? && HasToken(r, t)
    case Delete(t, k, _) => t < |r.members| && r.members[t].task.Deleting? && k in r.members[t].task.names
    case End(t) =>
      t < |r.members| && r.members[t].task.Deleting? && r.members[t].task.names == {} && HasToken(r, t)
  }

  function WithBody(r: Runner, b: nat, body: Body): Runner
    requires HasBody(r, b)
  {
    r.(bodies := r.bodies[b := body])
  }

  /** The deferred unlock, on every way out of `cleanResources`. */
  function Release(r: Runner, b: nat): Runner
    requires HasBody(r, b)
  {
    WithBody(r, b, Done).(mutex := false, unlocks := r.unlocks + 1)
  }

  function WithTask(r: Runner, t: nat, task: C.Task): Runner
    requires t < |r.members|
  {
    r.(members := r.members[t := r.members[t].(task := task)])
  }

  function WithTokens(r: Runner, p: nat, tokens: nat): Runner
    requires p < |r.pools|
  {
    r.(pools := r.pools[p := r.pools[p].(tokens := tokens)])
  }

  /** The task is over and gives its token back. */
  function Finish(r: Runner, t: nat): Runner
    requires HasToken(r, t)
  {
    var p := r.members[t].pool;
    WithTask(WithTokens(r, p, r.pools[p].tokens - 1), t, C.Ended)
  }

  function Next(r: Runner, step: Step): Runner
    requires Enabled(r, step)
  {
    match step
    case Lock(all) => r.(mutex := true, locks := r.locks + 1, bodies := r.bodies + [Reading(all)])
    case Read(b, revision, groups) =>
      if revision == ZERO_HASH || groups.None? then Release(r, b)
      else WithBody(r, b, Discovering(C.Selector(r.bodies[b].all, revision), groups.value))
    case Discover(b, answers) =>
      var body := r.bodies[b];
      if answers then
        WithBody(r, b, Spawning(body.selector, |r.pools|, body.versions[0], body.versions[1..]))
        .(pools := r.pools + [Pool(b, body.versions[0], 0)])
      else
        WithBody(r, b, Discovering(body.selector, body.versions[1..]))
    case Spawn(b) =>
      var body := r.bodies[b];
      var started := WithBody(r, b, Spawning(body.selector, body.pool, body.kinds[1..], body.versions));
      WithTokens(started, body.pool, r.pools[body.pool].tokens + 1)
      .(members := r.members + [Member(body.pool, body.kinds[0], C.Listing(body.kinds[0], body.selector))])
    case NextVersion(b) => WithBody(r, b, Discovering(r.bodies[b].selector, r.bodies[b].versions))
    case Unlock(b) => Release(r, b)
    case List(t, names) => WithTask(r, t, C.Deleting(r.members[t].task.kind, r.members[t].task.selector, names))
    case ListFail(t) => Finish(r, t)
    case Delete(t, k, _) =>
      var task := r.members[t].task;
      WithTask(r, t, C.Deleting(task.kind, task.selector, task.names - {k}))
    case End(t) => Finish(r, t)
  }

  const INITIAL := Runner(false, 0, 0, [], [], [])

  ghost predicate Run(runners: seq<Runner>, steps: seq<Step>) {
    && |runners| == |steps| + 1
    && forall i | 0 <= i < |steps| :: Enabled(runners[i], steps[i]) && runners[i + 1] == Next(runners[i], steps[i])
  }

  /*---------- the mutex ----------*/

  /** The mutex is held exactly while the goroutine started last is still in `cleanResources`;
  all earlier ones have returned. */
  predicate OneBody(r: Runner) {
    && r.locks - r.unlocks == (if r.mutex then 1 else 0)
    && (forall b | 0 <= b < |r.bodies| - 1 :: r.bodies[b].Done?)
    && (r.mutex <==> r.bodies != [] && !r.bodies[|r.bodies| - 1].Done?)
  }

  lemma OneBodyKept(r: Runner, step: Step)
    requires OneBody(r) && Enabled(r, step)
    ensures OneBody(Next(r, step))
  {
  }

  /*---------- the pools ----------*/

  /** The unfinished tasks of a pool. */
  function Unfinished(members: seq<Member>, p: nat): nat {
    if members == [] then 0
    else
      var n := |members| - 1;
      Unfinished(members[..n], p) + if members[n].pool == p && !members[n].task.Ended? then 1 else 0
  }

  /** The resource types for which a pool's tasks were launched, in order. */
  function KindsOf(members: seq<Member>, p: nat): seq<Kind> {
    if members == [] then []
    else
      var n := |members| - 1;
      KindsOf(members[..n], p) + if members[n].pool == p then [members[n].kind] else []
  }

  lemma {:induction false} TaskChanged(members: seq<Member>, t: nat, task: C.Task, p: nat)
    requires t < |members|
    ensures var members' := members[t := members[t].(task := task)];
            && KindsOf(members', p) == KindsOf(members, p)
            && Unfinished(members', p) + (if members[t].pool == p && !members[t].task.Ended? then 1 else 0)
               == Unfinished(members, p) + if members[t].pool == p && !task.Ended? then 1 else 0
  {
    var n, members' := |members| - 1, members[t := members[t].(task := task)];
    if t == n {
      assert members'[..n] == members[..n];
    } else {
      TaskChanged(members[..n], t, task, p);
      assert members'[..n] == members[..n][t := members[t].(task := task)];
    }
  }

  lemma TaskAdded(members: seq<Member>, member: Member, p: nat)
    ensures Unfinished(members + [member], p)
            == Unfinished(members, p) + if member.pool == p && !member.task.Ended? then 1 else 0
    ensures KindsOf(members + [member], p) == KindsOf(members, p) + if member.pool == p then [member.kind] else []
  {
    assert (members + [member])[..|members|] == members;
  }

  lemma {:induction false} UnfinishedIsThere(members: seq<Member>, p: nat)
    ensures Unfinished(members, p) > 0 <==>
            exists t :: 0 <= t < |members| && members[t].pool == p && !members[t].task.Ended?
  {
    if members != [] {
      var n := |members| - 1;
      UnfinishedIsThere(members[..n], p);
      assert forall t | 0 <= t < n :: members[..n][t] == members[t];
    }
  }

  /** The types of the pool that its goroutine has still to launch tasks for. */
  function Left(r: Runner, p: nat): seq<Kind>
    requires p < |r.pools|
  {
    var b := r.pools[p].body;
    if HasBody(r, b) && r.bodies[b].Spawning? && r.bodies[b].pool == p then r.bodies[b].kinds else []
  }

  ghost predicate PoolKept(r: Runner, p: nat)
    requires p < |r.pools|
  {
    && r.pools[p].tokens == Unfinished(r.members, p) <= POOL_SIZE
    && KindsOf(r.members, p) + Left(r, p) == r.pools[p].reported
  }

  /** Goroutines and tasks refer to pools that exist, and a pool to the goroutine that made it. */
  ghost predicate Wired(r: Runner) {
    && (forall p | 0 <= p < |r.pools| :: HasBody(r, r.pools[p].body))
    && (forall b | 0 <= b < |r.bodies| && r.bodies[b].Spawning? ::
          r.bodies[b].pool < |r.pools| && r.pools[r.bodies[b].pool].body == b)
    && (forall t | 0 <= t < |r.members| :: r.members[t].pool < |r.pools|)
  }

  /** What is kept of a pool, made or not made yet. */
  ghost predicate Counted(r: Runner, p: nat) {
    if p < |r.pools| then PoolKept(r, p) else Unfinished(r.members, p) == 0 && KindsOf(r.members, p) == []
  }

  ghost predicate PoolsKept(r: Runner) {
    Wired(r) && forall p: nat :: Counted(r, p)
  }

  lemma WiredByBody(r: Runner, step: Step)
    requires Wired(r) && Enabled(r, step)
    requires step.Lock? || step.Read? || step.Discover? || step.NextVersion? || step.Unlock?
    ensures Wired(Next(r, step))
  {
  }

  lemma WiredByTask(r: Runner, step: Step)
    requires Wired(r) && Enabled(r, step)
    requires step.Spawn? || step.List? || step.ListFail? || step.Delete? || step.End?
    ensures Wired(Next(r, step))
  {
  }

  /** A launch takes the first of the types left, of its own pool only. */
  lemma SpawnLeft(r: Runner, b: nat, p: nat)
    requires Wired(r) && Enabled(r, Spawn(b)) && p < |r.pools|
    ensures var r' := Next(r, Spawn(b));
            && |r'.pools| == |r.pools| && r'.pools[p].reported == r.pools[p].reported
            && if p == r.bodies[b].pool then
                 Left(r, p) == [r.bodies[b].kinds[0]] + Left(r', p) && r'.pools[p].tokens == r.pools[p].tokens + 1
                 && r.pools[p].tokens < POOL_SIZE
               else Left(r', p) == Left(r, p) && r'.pools[p] == r.pools[p]
  {
  }

  lemma SpawnKept(r: Runner, b: nat, p: nat)
    requires Wired(r) && Counted(r, p) && Enabled(r, Spawn(b))
    ensures Counted(Next(r, Spawn(b)), p)
  {
    var body, r' := r.bodies[b], Next(r, Spawn(b));
    TaskAdded(r.members, Member(body.pool, body.kinds[0], C.Listing(body.kinds[0], body.selector)), p);
    hide Unfinished, KindsOf, Left;
    if p < |r.pools| {
      SpawnLeft(r, b, p);
      if p == body.pool {
        assert KindsOf(r'.members, p) + Left(r', p) == KindsOf(r.members, p) + ([body.kinds[0]] + Left(r', p));
      }
    }
  }

  lemma TaskStepKept(r: Runner, step: Step, p: nat)
    requires Wired(r) && Counted(r, p) && Enabled(r, step)
    requires step.List? || step.ListFail? || step.Delete? || step.End?
    ensures Counted(Next(r, step), p)
  {
    var r' := Next(r, step);
    TaskChanged(r.members, step.task, r'.members[step.task].task, p);
    hide Unfinished, KindsOf;
  }

  lemma BodyStepKept(r: Runner, step: Step, p: nat)
    requires Wired(r) && Counted(r, p) && Enabled(r, step)
    requires step.Lock? || step.Read? || step.Discover? || step.NextVersion? || step.Unlock?
    ensures Counted(Next(r, step), p)
  {
    hide Unfinished, KindsOf;
  }

  ghost predicate Invariant(r: Runner) {
    OneBody(r) && PoolsKept(r)
  }

  lemma InvariantKept(r: Runner, step: Step)
    requires Invariant(r) && Enabled(r, step)
    ensures Invariant(Next(r, step))
  {
    OneBodyKept(r, step);
    if step.Lock? || step.Read? || step.Discover? || step.NextVersion? || step.Unlock? {
      WiredByBody(r, step);
    } else {
      WiredByTask(r, step);
    }
    hide OneBody, Next, Wired, Counted, Enabled;
    forall p: nat ensures Counted(Next(r, step), p) {
      if step.Spawn? {
        SpawnKept(r, step.body, p);
      } else if step.List? || step.ListFail? || step.Delete? || step.End? {
        TaskStepKept(r, step, p);
      } else {
        BodyStepKept(r, step, p);
      }
    }
  }

  lemma NothingCounted(r: Runner, p: nat)
    requires r.pools == [] && r.members == []
    ensures Counted(r, p)
  {
  }

  lemma NothingStarted(r: Runner)
    requires r.bodies == [] && r.pools == [] && r.members == [] && !r.mutex && r.locks == r.unlocks
    ensures OneBody(r) && Wired(r)
  {
  }

  lemma NothingIsKept(r: Runner)
    requires r.bodies == [] && r.pools == [] && r.members == [] && !r.mutex && r.locks == r.unlocks
    ensures Invariant(r)
  {
    NothingStarted(r);
    assert PoolsKept(r) by {
      forall p: nat ensures Counted(r, p) {
        NothingCounted(r, p);
      }
    }
  }

  lemma InitiallyKept(r: Runner)
    requires r == INITIAL
    ensures Invariant(r)
  {
    hide Invariant;
    NothingIsKept(r);
  }

  lemma {:induction false} InvariantAlong(runners: seq<Runner>, steps: seq<Step>, n: nat)
    requires Run(runners, steps) && runners[0] == INITIAL && n < |runners|
    ensures Invariant(runners[n])
  {
    hide Next, Enabled, Invariant, INITIAL;
    InitiallyKept(runners[0]);
    if n > 0 {
      InvariantAlong(runners, steps, n - 1);
      InvariantKept(runners[n - 1], steps[n - 1]);
    }
  }

  /*---------- theorems over runs ----------*/

  /** Mutex discipline across the hand-off: in every run, each lock is matched by one unlock
  except the last while the mutex is held; it is held exactly while one goroutine, the one
  started with the last lock, is in `cleanResources`; and whoever unlocks holds it. */
  lemma MutexDiscipline(runners: seq<Runner>, steps: seq<Step>, n: nat, b: nat, c: nat)
    requires Run(runners, steps) && runners[0] == INITIAL && n < |runners|
    requires b < |runners[n].bodies| && c < |runners[n].bodies|
    ensures runners[n].locks - runners[n].unlocks == if runners[n].mutex then 1 else 0
    ensures !runners[n].bodies[b].Done? ==> runners[n].mutex
    ensures !runners[n].bodies[b].Done? && !runners[n].bodies[c].Done? ==> b == c
    ensures n < |steps| && runners[n + 1].unlocks != runners[n].unlocks ==>
              runners[n].mutex && !runners[n + 1].mutex && runners[n + 1].unlocks == runners[n].unlocks + 1
  {
    InvariantAlong(runners, steps, n);
  }

  /** Pool bound: in every run the tokens of a pool are its unfinished tasks, never more than
  ten. */
  lemma PoolBound(runners: seq<Runner>, steps: seq<Step>, n: nat, p: nat)
    requires Run(runners, steps) && runners[0] == INITIAL && n < |runners| && p < |runners[n].pools|
    ensures runners[n].pools[p].tokens == Unfinished(runners[n].members, p) <= 10
  {
    InvariantAlong(runners, steps, n);
    assert Counted(runners[n], p);
  }

  /** And a goroutine waits before its next launch exactly while there are ten of them. */
  lemma LaunchWaitsExactlyWhen(runners: seq<Runner>, steps: seq<Step>, n: nat, b: nat)
    requires Run(runners, steps) && runners[0] == INITIAL && n < |runners|
    requires HasBody(runners[n], b) && runners[n].bodies[b].Spawning? && runners[n].bodies[b].kinds != []
    ensures Enabled(runners[n], Spawn(b)) <==> Unfinished(runners[n].members, runners[n].bodies[b].pool) != 10
  {
    InvariantAlong(runners, steps, n);
    assert Counted(runners[n], runners[n].bodies[b].pool);
  }

  /** One task per type: when a goroutine has returned, it has launched for each group version
  that answered exactly one task per reported resource type, in order. */
  lemma OneTaskPerType(runners: seq<Runner>, steps: seq<Step>, n: nat, p: nat)
    requires Run(runners, steps) && runners[0] == INITIAL && n < |runners| && p < |runners[n].pools|
    requires HasBody(runners[n], runners[n].pools[p].body) && runners[n].bodies[runners[n].pools[p].body].Done?
    ensures KindsOf(runners[n].members, p) == runners[n].pools[p].reported
  {
    InvariantAlong(runners, steps, n);
    assert Counted(runners[n], p);
  }

  /** An unfinished task never waits: its token is there to be given back. */
  lemma TaskNeverWaits(r: Runner, t: nat)
    requires PoolsKept(r) && t < |r.members| && !r.members[t].task.Ended?
    ensures HasToken(r, t)
    ensures exists step :: Enabled(r, step) && (step.ListFail? || step.Delete? || step.End?) && step.task == t
  {
    assert Counted(r, r.members[t].pool);
    UnfinishedIsThere(r.members, r.members[t].pool);
    match r.members[t].task
    case Listing(_, _) => assert Enabled(r, ListFail(t)) && ListFail(t).task == t;
    case Deleting(_, _, names) =>
      if names == {} {
        assert Enabled(r, End(t)) && End(t).task == t;
      } else {
        var k :| k in names;
        assert Enabled(r, Delete(t, k, false)) && Delete(t, k, false).task == t;
      }
  }

  /*---------- refinement ----------*/

  function Flatten(versions: seq<Version>): multiset<Kind> {
    if versions == [] then multiset{} else multiset(versions[0]) + Flatten(versions[1..])
  }

  function AbstractBody(body: Body): C.Cleanup {
    match body
    case Reading(all) => C.Requested(all)
    case Discovering(selector, versions) => C.Launching(selector, Flatten(versions))
    case Spawning(selector, _, kinds, versions) => C.Launching(selector, multiset(kinds) + Flatten(versions))
    case Done => C.Free
  }

  /** The application in RawCluster that the runner implements: its mutex holder is the
  goroutine started last, its tasks are the runner's. */
  ghost predicate Implements(r: Runner, app: C.App) {
    && app.cleanup == (if r.bodies == [] then C.Free else AbstractBody(r.bodies[|r.bodies| - 1]))
    && |app.tasks| == |r.members|
    && forall t | 0 <= t < |r.members| :: app.tasks[t] == r.members[t].task
  }

  /** The answers the step gets are those of the cluster: discovery lists every type the cluster
  serves, a List returns the selected objects, and the mutex is tried by a Delivery whose
  goroutines are done, or by an Uninstall. */
  ghost predicate TrueToCluster(r: Runner, step: Step, s: C.State, a: string)
    requires a in s.apps && Enabled(r, step)
  {
    match step
    case Lock(all) => if all then C.Enabled(s, C.LockForUninstall(a)) else C.Enabled(s, C.FinishDelivery(a))
    case Read(b, revision, groups) =>
      revision == s.apps[a].current && (groups.Some? ==> Flatten(groups.value) == s.kinds)
    case List(t, names) => names == C.Listed(s, a, r.members[t].task.kind, r.members[t].task.selector)
    case _ => true
  }

  function Skips(a: string, kinds: seq<Kind>): seq<C.Step> {
    seq(|kinds|, i requires 0 <= i < |kinds| => C.SkipKind(a, kinds[i]))
  }

  /** The steps of RawCluster that a step of the runner stands for. */
  function Shadow(r: Runner, step: Step, a: string): seq<C.Step>
    requires Enabled(r, step)
  {
    match step
    case Lock(all) => [if all then C.LockForUninstall(a) else C.FinishDelivery(a)]
    case Read(b, revision, groups) =>
      [if revision != ZERO_HASH && groups.None? then C.DiscoveryFail(a) else C.ReadRevision(a)]
    case Discover(b, answers) => if answers then [] else Skips(a, r.bodies[b].versions[0])
    case Spawn(b) => [C.Launch(a, r.bodies[b].kinds[0])]
    case NextVersion(b) => []
    case Unlock(b) => [C.UnlockCleanup(a)]
    case List(t, _) => [C.TaskList(a, t)]
    case ListFail(t) => [C.TaskListFail(a, t)]
    case Delete(t, k, deleted) => [if deleted then C.TaskDelete(a, t, k) else C.TaskDeleteFail(a, t, k)]
    case End(t) => [C.TaskEnd(a, t)]
  }

  /** The steps lead from one state of RawCluster to the other. */
  ghost predicate Plays(s: C.State, steps: seq<C.Step>, s': C.State)
    decreases |steps|
  {
    if steps == [] then s' == s
    else C.Enabled(s, steps[0]) && Plays(C.Next(s, steps[0]), steps[1..], s')
  }

  lemma PlaysOne(s: C.State, step: C.Step)
    requires C.Enabled(s, step)
    ensures Plays(s, [step], C.Next(s, step))
  {
    assert [step][1..] == [];
    assert Plays(C.Next(s, step), [], C.Next(s, step));
  }

  /** Launching for the first of the types leaves the others. */
  lemma TakeFirst(kinds: seq<Kind>, rest: multiset<Kind>)
    requires kinds != []
    ensures kinds[0] in multiset(kinds) + rest
    ensures multiset(kinds) + rest - multiset{kinds[0]} == multiset(kinds[1..]) + rest
  {
    assert kinds == [kinds[0]] + kinds[1..];
  }

  lemma SpawnImplements(r: Runner, b: nat, s: C.State, a: string)
    requires OneBody(r) && Enabled(r, Spawn(b)) && a in s.apps && Implements(r, s.apps[a])
    ensures C.Enabled(s, C.Launch(a, r.bodies[b].kinds[0]))
    ensures var s' := C.Next(s, C.Launch(a, r.bodies[b].kinds[0]));
            a in s'.apps && Implements(Next(r, Spawn(b)), s'.apps[a])
  {
    TakeFirst(r.bodies[b].kinds, Flatten(r.bodies[b].versions));
    hide Flatten;
  }

  lemma BodyStepImplements(r: Runner, step: Step, s: C.State, a: string)
    requires OneBody(r) && Enabled(r, step) && a in s.apps && Implements(r, s.apps[a]) && TrueToCluster(r, step, s, a)
    requires step.Lock? || step.Read? || step.Unlock?
    ensures |Shadow(r, step, a)| == 1 && C.Enabled(s, Shadow(r, step, a)[0])
    ensures var s' := C.Next(s, Shadow(r, step, a)[0]); a in s'.apps && Implements(Next(r, step), s'.apps[a])
  {
  }

  lemma TaskStepImplements(r: Runner, step: Step, s: C.State, a: string)
    requires OneBody(r) && Enabled(r, step) && a in s.apps && Implements(r, s.apps[a]) && TrueToCluster(r, step, s, a)
    requires step.List? || step.ListFail? || step.Delete? || step.End?
    ensures |Shadow(r, step, a)| == 1 && C.Enabled(s, Shadow(r, step, a)[0])
    ensures var s' := C.Next(s, Shadow(r, step, a)[0]); a in s'.apps && Implements(Next(r, step), s'.apps[a])
  {
  }

  lemma SkipOne(s: C.State, a: string, kinds: seq<Kind>, selector: C.Selector, rest: multiset<Kind>)
    requires a in s.apps && s.apps[a].cleanup == C.Launching(selector, multiset(kinds) + rest) && kinds != []
    ensures C.Enabled(s, C.SkipKind(a, kinds[0]))
    ensures var s' := C.Next(s, C.SkipKind(a, kinds[0]));
            a in s'.apps && s'.apps[a] == s.apps[a].(cleanup := C.Launching(selector, multiset(kinds[1..]) + rest))
  {
    assert kinds == [kinds[0]] + kinds[1..];
    assert multiset(kinds) + rest - multiset{kinds[0]} == multiset(kinds[1..]) + rest;
  }

  /** Skipping the types of a group version that does not answer. */
  lemma {:induction false} SkipsPlay(s: C.State, a: string, kinds: seq<Kind>, selector: C.Selector,
                                     rest: multiset<Kind>)
    returns (s': C.State)
    requires a in s.apps && s.apps[a].cleanup == C.Launching(selector, multiset(kinds) + rest)
    ensures Plays(s, Skips(a, kinds), s')
    ensures a in s'.apps && s'.apps[a] == s.apps[a].(cleanup := C.Launching(selector, rest))
    decreases |kinds|
  {
    hide C.Next, C.Enabled;
    if kinds == [] {
      s' := s;
      assert multiset(kinds) + rest == rest;
    } else {
      SkipOne(s, a, kinds, selector, rest);
      s' := SkipsPlay(C.Next(s, C.SkipKind(a, kinds[0])), a, kinds[1..], selector, rest);
      assert Skips(a, kinds)[0] == C.SkipKind(a, kinds[0]) && Skips(a, kinds)[1..] == Skips(a, kinds[1..]);
    }
  }

  /** Refinement: whatever a goroutine or a task does is a sequence of steps of RawCluster, so
  every theorem about RawCluster holds of goroutines that hand over the mutex, ask group
  version by group version, and wait for tokens. */
  lemma RunnerRefinesCluster(r: Runner, step: Step, s: C.State, a: string)
    requires Invariant(r) && Enabled(r, step) && a in s.apps && Implements(r, s.apps[a]) && TrueToCluster(r, step, s, a)
    ensures exists s' :: Plays(s, Shadow(r, step, a), s') && a in s'.apps && Implements(Next(r, step), s'.apps[a])
  {
    match step
    case Discover(b, answers) =>
      var body := r.bodies[b];
      if answers {
        assert Plays(s, [], s);
      } else {
        var s' := SkipsPlay(s, a, body.versions[0], body.selector, Flatten(body.versions[1..]));
        assert Implements(Next(r, step), s'.apps[a]);
      }
    case NextVersion(b) =>
      assert multiset([]) + Flatten(r.bodies[b].versions) == Flatten(r.bodies[b].versions);
      assert Plays(s, [], s);
    case _ =>
      OneStepImplements(r, step, s, a);
      hide C.Next, C.Enabled, Next, Enabled, Invariant;
      PlaysOne(s, Shadow(r, step, a)[0]);
      assert Shadow(r, step, a) == [Shadow(r, step, a)[0]];
  }

  lemma OneStepImplements(r: Runner, step: Step, s: C.State, a: string)
    requires Invariant(r) && Enabled(r, step) && a in s.apps && Implements(r, s.apps[a]) && TrueToCluster(r, step, s, a)
    requires !step.Discover? && !step.NextVersion?
    ensures |Shadow(r, step, a)| == 1 && C.Enabled(s, Shadow(r, step, a)[0])
    ensures var s' := C.Next(s, Shadow(r, step, a)[0]); a in s'.apps && Implements(Next(r, step), s'.apps[a])
  {
    hide C.Next, C.Enabled, Next;
    if step.List? || step.ListFail? || step.Delete? || step.End? {
      TaskStepImplements(r, step, s, a);
    } else if step.Spawn? {
      SpawnImplements(r, step.body, s, a);
    } else {
      BodyStepImplements(r, step, s, a);
    }
  }

  /** The steps of RawCluster that belong to the runner of `a`. */
  predicate OfRunner(s: C.State, step: C.Step, a: string) {
    match step
    case FinishDelivery(b) => b == a && a in s.apps && s.apps[a].cleanup.Free?
    case LockForUninstall(b) => b == a
    case ReadRevision(b) => b == a
    case DiscoveryFail(b) => b == a
    case Launch(b, _) => b == a
    case SkipKind(b, _) => b == a
    case UnlockCleanup(b) => b == a
    case TaskList(b, _) => b == a
    case TaskListFail(b, _) => b == a
    case TaskDelete(b, _, _) => b == a
    case TaskDeleteFail(b, _, _) => b == a
    case TaskEnd(b, _) => b == a
    case _ => false
  }

  /** All other steps (of manifests, other applications and foreign clients, and of a Delivery
  that finds the mutex taken) leave the runner's part of the cluster alone, so runners and
  the rest interleave freely. */
  lemma OthersKeepImplements(r: Runner, s: C.State, step: C.Step, a: string)
    requires a in s.apps && Implements(r, s.apps[a]) && C.Enabled(s, step) && !OfRunner(s, step, a)
    ensures a in C.Next(s, step).apps && Implements(r, C.Next(s, step).apps[a])
  {
    assert C.Next(s, step).apps[a].cleanup == s.apps[a].cleanup && C.Next(s, step).apps[a].tasks == s.apps[a].tasks;
  }

  /*---------- refinement of whole runs ----------*/

  /** A move of the application's runner, or of anybody else. */
  datatype Move = Own(step: Step) | Other(other: C.Step)

  /** The cluster after a sequence of its steps (a step that is not enabled would be skipped;
  none is). */
  function PlayAll(s: C.State, steps: seq<C.Step>): C.State
    decreases |steps|
  {
    if steps == [] then s
    else PlayAll(if C.Enabled(s, steps[0]) then C.Next(s, steps[0]) else s, steps[1..])
  }

  ghost predicate Possible(r: Runner, s: C.State, move: Move, a: string) {
    match move
    case Own(step) => a in s.apps && Enabled(r, step) && TrueToCluster(r, step, s, a)
    case Other(other) => C.Enabled(s, other) && !OfRunner(s, other, a)
  }

  function RunnerAfter(r: Runner, move: Move): Runner
    requires move.Own? ==> Enabled(r, move.step)
  {
    if move.Own? then Next(r, move.step) else r
  }

  function ClusterAfter(r: Runner, s: C.State, move: Move, a: string): C.State
    requires move.Own? ==> Enabled(r, move.step)
  {
    PlayAll(s, if move.Own? then Shadow(r, move.step, a) else [move.other])
  }

  /** Goroutines and tasks of the runner, in any interleaving with the rest of the cluster. */
  ghost predicate MixedRun(runners: seq<Runner>, clusters: seq<C.State>, moves: seq<Move>, a: string) {
    && |runners| == |clusters| == |moves| + 1
    && forall i | 0 <= i < |moves| ::
         && Possible(runners[i], clusters[i], moves[i], a)
         && runners[i + 1] == RunnerAfter(runners[i], moves[i])
         && clusters[i + 1] == ClusterAfter(runners[i], clusters[i], moves[i], a)
  }

  /** Some run of RawCluster leads from one state to the other. */
  ghost predicate Leads(s: C.State, s': C.State) {
    exists states, steps :: RunBetween(states, steps, s, s')
  }

  ghost predicate RunBetween(states: seq<C.State>, steps: seq<C.Step>, s: C.State, s': C.State) {
    C.Run(states, steps) && states[0] == s && states[|steps|] == s'
  }

  lemma {:induction false} PlaysIsPlayAll(s: C.State, steps: seq<C.Step>, s': C.State)
    requires Plays(s, steps, s')
    ensures PlayAll(s, steps) == s'
    decreases |steps|
  {
    hide C.Next, C.Enabled;
    if steps != [] {
      PlaysIsPlayAll(C.Next(s, steps[0]), steps[1..], s');
    }
  }

  lemma LeadsTrivially(s: C.State)
    ensures Leads(s, s)
  {
    assert RunBetween([s], [], s, s);
  }

  lemma LeadsOneMore(s: C.State, s': C.State, step: C.Step)
    requires Leads(s, s') && C.Enabled(s', step)
    ensures Leads(s, C.Next(s', step))
  {
    hide C.Next, C.Enabled;
    var states, steps :| RunBetween(states, steps, s, s');
    var states', steps' := states + [C.Next(s', step)], steps + [step];
    forall i | 0 <= i < |steps'|
      ensures C.Enabled(states'[i], steps'[i]) && states'[i + 1] == C.Next(states'[i], steps'[i])
    {
      if i < |steps| {
        assert C.Enabled(states[i], steps[i]) && states[i + 1] == C.Next(states[i], steps[i]);
      }
    }
    assert RunBetween(states', steps', s, C.Next(s', step));
  }

  lemma {:induction false} LeadsOn(s: C.State, s': C.State, steps: seq<C.Step>, s'': C.State)
    requires Leads(s, s') && Plays(s', steps, s'')
    ensures Leads(s, s'')
    decreases |steps|
  {
    hide C.Next, C.Enabled, Leads;
    if steps != [] {
      LeadsOneMore(s, s', steps[0]);
      LeadsOn(s, C.Next(s', steps[0]), steps[1..], s'');
    }
  }

  /** Refinement of runs: at every point of a run in which the goroutines and tasks of an
  application interleave with the rest of the cluster, the cluster has got there by a run of
  RawCluster in which the application's mutex holder and tasks are those goroutines and
  tasks.  So theorems about runs of RawCluster hold of them. */
  lemma {:induction false} MixedRunsAreClusterRuns(runners: seq<Runner>, clusters: seq<C.State>, moves: seq<Move>,
                                                   a: string, n: nat)
    requires MixedRun(runners, clusters, moves, a) && n < |runners|
    requires Invariant(runners[0]) && a in clusters[0].apps && Implements(runners[0], clusters[0].apps[a])
    ensures Invariant(runners[n]) && a in clusters[n].apps && Implements(runners[n], clusters[n].apps[a])
    ensures Leads(clusters[0], clusters[n])
  {
    hide C.Next, C.Enabled, Next, Enabled, Invariant, Leads, Implements, TrueToCluster;
    if n == 0 {
      LeadsTrivially(clusters[0]);
    } else {
      MixedRunsAreClusterRuns(runners, clusters, moves, a, n - 1);
      var r, s, move := runners[n - 1], clusters[n - 1], moves[n - 1];
      assert Possible(r, s, move, a);
      match move
      case Own(step) =>
        InvariantKept(r, step);
        RunnerRefinesCluster(r, step, s, a);
        var s' :| Plays(s, Shadow(r, step, a), s') && a in s'.apps && Implements(Next(r, step), s'.apps[a]);
        PlaysIsPlayAll(s, Shadow(r, step, a), s');
        LeadsOn(clusters[0], s, Shadow(r, step, a), s');
      case Other(other) =>
        OthersKeepImplements(r, s, other, a);
        PlaysOne(s, other);
        PlaysIsPlayAll(s, [other], C.Next(s, other));
        LeadsOneMore(clusters[0], s, other);
    }
  }
}
