/** The lifecycle of one application on top of the cluster: from a commit on the remote branch
to the objects that carry the application's labels. */
module EndToEnd {
  import opened Prelude
  import opened Git
  import opened Lifecycle
  import opened RawCluster
  import opened RawEffects
  import opened RawHonesty
  import opened RawReserved
  import opened RawConvergence

  /** The raw provider: the commit whose manifests it read when it was constructed, and whether
  a Delivery has set the revision label since (after which they are read again each time). */
  datatype Provider = Provider(labelled: bool, readAt: Hash)

  datatype Engine = Engine(clone: Clone, provider: Provider, cluster: State)

  datatype EngineStep =
    | LifeCycle(env: Environment, resources: seq<Resource>)
    | ClusterStep(step: Step)

  /** What a Delivery called with these files applies. */
  function ManifestsRead(e: Engine, worktree: Tree, sparsePath: Path): set<Resource> {
    if e.provider.labelled then ManifestsOf(worktree, sparsePath) else ManifestsAt(e.provider.readAt, sparsePath)
  }

  function TickOf(e: Engine, env: Environment, a: string): (Clone, Outcome)
    requires a in e.cluster.apps
  {
    Tick(e.clone, env, e.cluster.apps[a].sparsePath)
  }

  /** A lifecycle call needs the application's mutex: no Delivery in progress, no removal.
  The revision changes and Deliveries start in lifecycle calls only. */
  ghost predicate Possible(e: Engine, step: EngineStep, a: string) {
    && a in e.cluster.apps
    && match step
       case LifeCycle(env, resources) =>
         && e.cluster.apps[a].delivery.None? && !e.cluster.apps[a].removing
         && var out := TickOf(e, env, a).1;
         (out.Delivered? ==>
            (set res | res in resources) == ManifestsRead(e, out.worktree, e.cluster.apps[a].sparsePath))
       case ClusterStep(step) =>
         Enabled(e.cluster, step) && !((step.SetRevision? || step.StartDelivery?) && step.app == a)
  }

  lemma DeliversAtNonZero(c: Clone, env: Environment, sparsePath: Path)
    ensures var (c', out) := Tick(c, env, sparsePath);
            && (out.Delivered? ==> c'.current == out.revision != ZERO_HASH)
            && (!out.Delivered? ==> c'.current == c.current)
  {
  }

  function After(e: Engine, step: EngineStep, a: string): Engine
    requires Possible(e, step, a)
  {
    match step
    case LifeCycle(env, resources) =>
      var (c, out) := TickOf(e, env, a);
      if out.Delivered? then
        DeliversAtNonZero(e.clone, env, e.cluster.apps[a].sparsePath);
        var revised := Next(e.cluster, SetRevision(a, out.revision));
        Engine(c, e.provider.(labelled := true), Next(revised, StartDelivery(a, resources)))
      else
        e.(clone := c)
    case ClusterStep(step) => e.(cluster := Next(e.cluster, step))
  }

  ghost predicate EngineRun(engines: seq<Engine>, steps: seq<EngineStep>, a: string) {
    && |engines| == |steps| + 1
    && forall i | 0 <= i < |steps| ::
         Possible(engines[i], steps[i], a) && engines[i + 1] == After(engines[i], steps[i], a)
  }

  /*---------- honesty ----------*/

  /** A new application: zero revision, any refs, the local branch checked out and its manifests
  read. */
  ghost predicate NewEngine(e: Engine, a: string) {
    && a in e.cluster.apps
    && e.clone.current == e.cluster.apps[a].current == ZERO_HASH
    && !e.provider.labelled
    && e.clone.worktree == TreeAt(e.clone.local)
    && e.provider.readAt == e.clone.local
    && Honest(e.cluster, a)
  }

  ghost predicate EngineInvariant(e: Engine, a: string) {
    && Honest(e.cluster, a)
    && e.cluster.apps[a].current == e.clone.current
    && (e.clone.current == ZERO_HASH || InSync(e.clone, e.cluster.apps[a].sparsePath))
    && (e.clone.current == ZERO_HASH <==> !e.provider.labelled)
  }

  /** The branch tip that a call at the zero revision ends at: Pull is only reached when the
  local branch is at the fetched remote already. */
  function TipSeen(c: Clone, env: Environment): Hash {
    if c.local == env.remote then env.pullRemote else env.remote
  }

  /** The first Delivery applies the manifests of the commit that was opened.  They are all
  right if and only if none of them has changed or gone since. */
  predicate ReadStillRight(e: Engine, env: Environment, sparsePath: Path) {
    ManifestsAt(e.provider.readAt, sparsePath) <= ManifestsAt(TipSeen(e.clone, env), sparsePath)
  }

  /** Git steps succeed once Fetch has gone through, and what was opened is still right when
  the first Delivery is made. */
  ghost predicate HealthyStep(e: Engine, step: EngineStep, a: string)
    requires a in e.cluster.apps
  {
    step.LifeCycle? ==>
      var out := TickOf(e, step.env, a).1;
      && (step.env.fetchFails || out != GitError)
      && (out.Delivered? && !e.provider.labelled ==> ReadStillRight(e, step.env, e.cluster.apps[a].sparsePath))
  }

  lemma FirstTickTip(c: Clone, env: Environment, sparsePath: Path)
    requires c.current == ZERO_HASH && Tick(c, env, sparsePath).1.Delivered?
    ensures Tick(c, env, sparsePath).1.revision == PathHead(TipSeen(c, env), sparsePath) != ZERO_HASH
    ensures ManifestsAt(Tick(c, env, sparsePath).1.revision, sparsePath) == ManifestsAt(TipSeen(c, env), sparsePath)
  {
    ManifestsAtPathHead(TipSeen(c, env), sparsePath);
  }

  lemma EngineInvariantKept(e: Engine, step: EngineStep, a: string)
    requires EngineInvariant(e, a) && Possible(e, step, a) && HealthyStep(e, step, a)
    ensures EngineInvariant(After(e, step, a), a)
  {
    hide Next, Enabled, Tick;
    var sparsePath := e.cluster.apps[a].sparsePath;
    match step
    case LifeCycle(env, resources) =>
      var (c, out) := TickOf(e, env, a);
      DeliversAtNonZero(e.clone, env, sparsePath);
      if out == GitError {
        FetchFailureChangesNothing(e.clone, env, sparsePath);
      } else {
        TickSyncs(e.clone, env, sparsePath);
      }
      if out.Delivered? {
        LifeCycleStartsHonestDelivery(e, env, resources, a);
      }
    case ClusterStep(step) =>
      HonestDeliveryKept(e.cluster, step, a);
      HonestLabelsKept(e.cluster, step, a);
      AppEffect(e.cluster, step, a);
      FlagsEffect(e.cluster, step, a);
      RevisionOnlyBySetRevision(e.cluster, step, a);
  }

  lemma FetchFailureChangesNothing(c: Clone, env: Environment, sparsePath: Path)
    requires env.fetchFails
    ensures Tick(c, env, sparsePath) == (c, GitError)
  {
  }

  lemma RevisionOnlyBySetRevision(s: State, step: Step, a: string)
    requires Enabled(s, step) && a in s.apps && !(step.SetRevision? && step.app == a)
    ensures a in Next(s, step).apps && Next(s, step).apps[a].current == s.apps[a].current
  {
  }

  /** The two cluster steps of a delivering lifecycle call are enabled, and what they do. */
  lemma LifeCycleOnCluster(s: State, a: string, r: Hash, resources: seq<Resource>)
    requires a in s.apps && s.apps[a].delivery.None? && !s.apps[a].removing && r != ZERO_HASH
    ensures Enabled(s, SetRevision(a, r))
    ensures Next(s, SetRevision(a, r)) == WithApp(s, a, s.apps[a].(current := r))
    ensures Enabled(Next(s, SetRevision(a, r)), StartDelivery(a, resources))
    ensures Next(Next(s, SetRevision(a, r)), StartDelivery(a, resources)).apps[a]
            == s.apps[a].(current := r, delivery := Some(Delivery(r, WorkersFor(resources))))
  {
  }

  lemma LifeCycleStartsHonestDelivery(e: Engine, env: Environment, resources: seq<Resource>, a: string)
    requires EngineInvariant(e, a) && Possible(e, LifeCycle(env, resources), a)
    requires HealthyStep(e, LifeCycle(env, resources), a) && TickOf(e, env, a).1.Delivered?
    ensures Honest(After(e, LifeCycle(env, resources), a).cluster, a)
    ensures var app := After(e, LifeCycle(env, resources), a).cluster.apps[a];
            app.current == TickOf(e, env, a).1.revision && app.sparsePath == e.cluster.apps[a].sparsePath
  {
    hide Tick;
    var sparsePath := e.cluster.apps[a].sparsePath;
    var (c, out) := TickOf(e, env, a);
    DeliversAtNonZero(e.clone, env, sparsePath);
    FetchFailureImpliesGitError(e.clone, env, sparsePath);
    TickSyncs(e.clone, env, sparsePath);
    if !e.provider.labelled {
      FirstTickTip(e.clone, env, sparsePath);
    }
    hide Next, Enabled;
    LifeCycleOnCluster(e.cluster, a, out.revision, resources);
    var revised := Next(e.cluster, SetRevision(a, out.revision));
    forall res <- resources ensures res in ManifestsAt(out.revision, sparsePath) {
      assert res in (set x | x in resources);
    }
    assert Honest(revised, a) by {
      HonestDeliveryKept(e.cluster, SetRevision(a, out.revision), a);
      HonestLabelsKept(e.cluster, SetRevision(a, out.revision), a);
    }
    HonestDeliveryKept(revised, StartDelivery(a, resources), a);
    HonestLabelsKept(revised, StartDelivery(a, resources), a);
  }

  lemma FetchFailureImpliesGitError(c: Clone, env: Environment, sparsePath: Path)
    ensures env.fetchFails ==> Tick(c, env, sparsePath).1 == GitError
  {
  }

  /** End-to-end honesty: in every run of lifecycle calls, deliveries, prunes, other
  applications and foreign clients, an object under the labels of the application at revision
  r holds what the manifests say at commit r. */
  lemma {:induction false} EndToEndHonesty(engines: seq<Engine>, steps: seq<EngineStep>, a: string, n: nat)
    requires EngineRun(engines, steps, a) && NewEngine(engines[0], a) && n < |engines|
    requires forall i | 0 <= i < |steps| && a in engines[i].cluster.apps :: HealthyStep(engines[i], steps[i], a)
    ensures EngineInvariant(engines[n], a)
  {
    hide Next, Enabled, Tick;
    if n > 0 {
      EndToEndHonesty(engines, steps, a, n - 1);
      EngineInvariantKept(engines[n - 1], steps[n - 1], a);
    }
  }

  /** When the first Delivery of an application sets out to apply only what its revision says:
  exactly when what was opened is still right. */
  lemma FirstDeliveryHonestExactlyWhen(e: Engine, env: Environment, resources: seq<Resource>, a: string)
    requires EngineInvariant(e, a) && !e.provider.labelled && Possible(e, LifeCycle(env, resources), a)
    requires TickOf(e, env, a).1.Delivered?
    ensures var cluster := After(e, LifeCycle(env, resources), a).cluster;
            a in cluster.apps
            && (HonestDelivery(cluster, a) <==> ReadStillRight(e, env, e.cluster.apps[a].sparsePath))
  {
    FirstDeliveryWorkers(e, env, resources, a);
    var cluster := After(e, LifeCycle(env, resources), a).cluster;
    var read := ManifestsAt(e.provider.readAt, e.cluster.apps[a].sparsePath);
    hide After, Possible;
    if HonestDelivery(cluster, a) {
      forall res <- read ensures res in ManifestsAt(TipSeen(e.clone, env), e.cluster.apps[a].sparsePath) {
        var w: nat :| HasWorker(cluster, a, w) && WorkerAt(cluster, a, w).res == res;
      }
    }
  }

  /** And it leaves out no manifest of its revision exactly when none was added since. */
  lemma FirstDeliveryCompleteExactlyWhen(e: Engine, env: Environment, resources: seq<Resource>, a: string)
    requires EngineInvariant(e, a) && !e.provider.labelled && Possible(e, LifeCycle(env, resources), a)
    requires TickOf(e, env, a).1.Delivered?
    ensures var cluster, sparsePath := After(e, LifeCycle(env, resources), a).cluster, e.cluster.apps[a].sparsePath;
            (forall res <- ManifestsAt(TickOf(e, env, a).1.revision, sparsePath) :: Covered(cluster, a, res)) <==>
              ManifestsAt(TipSeen(e.clone, env), sparsePath) <= ManifestsAt(e.provider.readAt, sparsePath)
  {
    FirstDeliveryWorkers(e, env, resources, a);
    hide After, Possible;
  }

  /** The goroutines of the first Delivery. */
  lemma FirstDeliveryWorkers(e: Engine, env: Environment, resources: seq<Resource>, a: string)
    requires EngineInvariant(e, a) && !e.provider.labelled && Possible(e, LifeCycle(env, resources), a)
    requires TickOf(e, env, a).1.Delivered?
    ensures var cluster, sparsePath := After(e, LifeCycle(env, resources), a).cluster, e.cluster.apps[a].sparsePath;
            && a in cluster.apps && cluster.apps[a].sparsePath == sparsePath && cluster.apps[a].delivery.Some?
            && cluster.apps[a].delivery.value.revision == TickOf(e, env, a).1.revision
            && ManifestsAt(TickOf(e, env, a).1.revision, sparsePath) == ManifestsAt(TipSeen(e.clone, env), sparsePath)
            && (forall w | HasWorker(cluster, a, w) ::
                  WorkerAt(cluster, a, w).res in ManifestsAt(e.provider.readAt, sparsePath))
            && (forall res <- ManifestsAt(e.provider.readAt, sparsePath) :: Covered(cluster, a, res))
  {
    var sparsePath := e.cluster.apps[a].sparsePath;
    FirstTickTip(e.clone, env, sparsePath);
    LifeCycleOnCluster(e.cluster, a, TickOf(e, env, a).1.revision, resources);
    var cluster := After(e, LifeCycle(env, resources), a).cluster;
    hide Next, Enabled, Tick;
    var read := ManifestsAt(e.provider.readAt, sparsePath);
    assert read == set res | res in resources;
    assert cluster.apps[a].delivery == Some(Delivery(TickOf(e, env, a).1.revision, WorkersFor(resources)));
    forall w: nat | HasWorker(cluster, a, w) ensures WorkerAt(cluster, a, w).res in read {
      assert WorkerAt(cluster, a, w).res == resources[w];
    }
    forall res <- read ensures Covered(cluster, a, res) {
      var w: nat :| w < |resources| && resources[w] == res;
      assert HasWorker(cluster, a, w) && WorkerAt(cluster, a, w).res == res;
    }
  }

  /** Both hold when the branch has not moved since the clone was made or reopened. */
  lemma FirstDeliveryHonestOnQuietRemote(e: Engine, env: Environment, a: string)
    requires NewEngine(e, a) && e.clone.local == env.remote == env.pullRemote
    requires TickOf(e, env, a).1.Delivered?
    ensures ReadStillRight(e, env, e.cluster.apps[a].sparsePath)
    ensures ManifestsAt(e.provider.readAt, e.cluster.apps[a].sparsePath)
            == ManifestsAt(TickOf(e, env, a).1.revision, e.cluster.apps[a].sparsePath)
  {
    ManifestsAtPathHead(env.remote, e.cluster.apps[a].sparsePath);
  }

  /*---------- the first Delivery after a stale reopen ----------*/

  const WEB := Resource("services", "web", "port 80")
  const WEB_FIXED := Resource("services", "web", "port 81")
  const OLD: Hash := [Commit(0, map["web.yaml" := Manifest(WEB)])]
  const NEW: Hash := [Commit(0, map["web.yaml" := Manifest(WEB)]), Commit(1, map["web.yaml" := Manifest(WEB_FIXED)])]
  const WEB_KEY := Key("default", "services", "web")

  function StaleEngine(i: nat): Engine {
    var worker := if i == 1 then Getting(WEB) else if i == 2 then Creating(WEB) else Finished(WEB);
    var app := App("", "default", if i == 0 then ZERO_HASH else NEW,
                   if i == 0 then None else Some(Delivery(NEW, [worker])), Free, [], 0, false, false);
    var objects := if i < 3 then map[] else map[WEB_KEY := Object(Some("a"), Some(NEW), WEB.content, 0)];
    Engine(if i == 0 then Clone(OLD, OLD, TreeAt(OLD), ZERO_HASH) else Clone(NEW, NEW, TreeAt(NEW), NEW),
           Provider(i > 0, OLD),
           State(multiset{"services"}, objects, if i < 3 then 0 else 1, map["a" := app]))
  }

  lemma OldManifests()
    ensures ManifestsOf(TreeAt(OLD), "") == {WEB} && ManifestsAt(NEW, "") == {WEB_FIXED}
    ensures PathHead(NEW, "") == NEW
  {
    var t := TreeAt(OLD);
    assert t["web.yaml"] == Manifest(WEB);
    assert forall p | p in t :: p == "web.yaml";
    var u := TreeAt(NEW);
    assert u["web.yaml"] == Manifest(WEB_FIXED);
    assert forall p | p in u :: p == "web.yaml";
    assert Parent(NEW) == OLD;
    assert "web.yaml" in u.Keys && !SameAt(u, TreeAt(Parent(NEW)), "web.yaml");
  }

  lemma StaleTick()
    ensures var step := LifeCycle(Calm(NEW), [WEB]);
            Possible(StaleEngine(0), step, "a") && After(StaleEngine(0), step, "a") == StaleEngine(1)
    ensures NewEngine(StaleEngine(0), "a")
  {
    OldManifests();
    var e := StaleEngine(0);
    var out := TickOf(e, Calm(NEW), "a");
    assert out == (Clone(NEW, NEW, TreeAt(NEW), NEW), Delivered(NEW, TreeAt(NEW), false));
    assert (set res | res in [WEB]) == {WEB};
    LifeCycleOnCluster(e.cluster, "a", NEW, [WEB]);
    assert WorkersFor([WEB]) == [Getting(WEB)];
    assert After(e, LifeCycle(Calm(NEW), [WEB]), "a").cluster.apps == StaleEngine(1).cluster.apps;
  }

  lemma StaleWorker(i: nat)
    requires 1 <= i < 3
    ensures var step := if i == 1 then WorkerGet("a", 0) else WorkerCreate("a", 0);
            Enabled(StaleEngine(i).cluster, step) && Next(StaleEngine(i).cluster, step) == StaleEngine(i + 1).cluster
  {
    var s, s' := StaleEngine(i).cluster, StaleEngine(i + 1).cluster;
    var step := if i == 1 then WorkerGet("a", 0) else WorkerCreate("a", 0);
    var before := if i == 1 then Getting(WEB) else Creating(WEB);
    var after := if i == 1 then Creating(WEB) else Finished(WEB);
    assert HasWorker(s, "a", 0) && WorkerAt(s, "a", 0) == before;
    assert [before][0 := after] == [after];
    assert Next(s, step).objects == s'.objects;
    assert Next(s, step).apps == s'.apps;
  }

  /** A run of a new application, with healthy git steps, whose clone is in sync with the
  remote at the end, while some object carries a label it does not deserve. */
  ghost predicate EndsMislabelled(engines: seq<Engine>, steps: seq<EngineStep>) {
    && EngineRun(engines, steps, "a") && NewEngine(engines[0], "a")
    && engines[|steps|].clone.current == NEW && InSync(engines[|steps|].clone, "")
    && "a" in engines[|steps|].cluster.apps && !HonestLabels(engines[|steps|].cluster, "a")
  }

  lemma StaleEnd()
    ensures var e := StaleEngine(3);
            InSync(e.clone, "") && "a" in e.cluster.apps && !HonestLabels(e.cluster, "a")
  {
    OldManifests();
    assert ResourceAt(StaleEngine(3).cluster, WEB_KEY) == WEB;
  }

  /** Without the condition on the first Delivery honesty fails: a server that restarts on a
  clone older than the remote labels the manifests of the old commit with the new revision. */
  lemma StaleReopenMislabels()
    ensures exists engines, steps :: EndsMislabelled(engines, steps)
  {
    var engines := seq(4, i requires 0 <= i < 4 => StaleEngine(i));
    var steps := [LifeCycle(Calm(NEW), [WEB]), ClusterStep(WorkerGet("a", 0)), ClusterStep(WorkerCreate("a", 0))];
    StaleTick();
    StaleEnd();
    hide Next, Enabled, Tick, HonestLabels, InSync;
    forall i | 0 <= i < 3
      ensures Possible(engines[i], steps[i], "a") && engines[i + 1] == After(engines[i], steps[i], "a")
    {
      if i > 0 {
        StaleWorker(i);
      }
    }
    assert EndsMislabelled(engines, steps);
  }

  /*---------- convergence ----------*/

  /** The remote stays at `h`; Deliveries and prunes meet no API error. */
  ghost predicate QuietStep(e: Engine, step: EngineStep, a: string, h: Hash, mine: set<Key>)
    requires a in e.cluster.apps
  {
    match step
    case LifeCycle(env, _) => env.remote == h
    case ClusterStep(step) => SteadyStep(e.cluster, step, a, PathHead(h, e.cluster.apps[a].sparsePath), mine)
  }

  ghost predicate EngineConverging(e: Engine, a: string, h: Hash, mine: set<Key>, d0: nat) {
    && a in e.cluster.apps
    && var sparsePath := e.cluster.apps[a].sparsePath;
    && PathHead(h, sparsePath) != ZERO_HASH
    && e.clone == Clone(h, h, TreeAt(h), PathHead(h, sparsePath))
    && e.provider.labelled
    && (forall res <- ManifestsAt(h, sparsePath) :: KeyOf(e.cluster.apps[a], res) in mine)
    && Converging(e.cluster, a, PathHead(h, sparsePath), mine, d0)
  }

  lemma EngineConvergingKept(e: Engine, step: EngineStep, a: string, h: Hash, mine: set<Key>, d0: nat)
    requires EngineConverging(e, a, h, mine, d0) && Possible(e, step, a) && QuietStep(e, step, a, h, mine)
    ensures EngineConverging(After(e, step, a), a, h, mine, d0)
    ensures After(e, step, a).cluster.apps[a].sparsePath == e.cluster.apps[a].sparsePath
  {
    var sparsePath := e.cluster.apps[a].sparsePath;
    var r := PathHead(h, sparsePath);
    match step
    case LifeCycle(env, resources) =>
      QuietTick(e.clone, env, sparsePath);
      hide Next, Enabled, Tick;
      if !env.fetchFails {
        ManifestsAtPathHead(h, sparsePath);
        LifeCycleOnCluster(e.cluster, a, r, resources);
        var revised := Next(e.cluster, SetRevision(a, r));
        ConvergingKept(e.cluster, SetRevision(a, r), a, r, mine, d0);
        forall res <- resources ensures KeyOf(revised.apps[a], res) in mine {
          assert res in (set x | x in resources);
        }
        ConvergingKept(revised, StartDelivery(a, resources), a, r, mine, d0);
      }
    case ClusterStep(step) =>
      hide Next, Enabled, Tick;
      ConvergingKept(e.cluster, step, a, r, mine, d0);
      AppEffect(e.cluster, step, a);
  }

  lemma QuietTick(c: Clone, env: Environment, sparsePath: Path)
    requires c.current != ZERO_HASH && env.remote == c.tracking
    ensures Tick(c, env, sparsePath)
            == if env.fetchFails then (c, GitError) else (c, Delivered(c.current, c.worktree, env.deliveryFails))
  {
  }

  /*---------- from the push to the cluster ----------*/

  /** The remote stays at `h`, git steps succeed once Fetch has gone through, Deliveries and
  prunes meet no API error. */
  ghost predicate ArrivingStep(e: Engine, step: EngineStep, a: string, h: Hash, mine: set<Key>)
    requires a in e.cluster.apps
  {
    && QuietStep(e, step, a, h, mine)
    && (step.LifeCycle? ==> step.env.pullRemote == h && (step.env.fetchFails || TickOf(e, step.env, a).1 != GitError))
  }

  /** If the first Delivery is still to be made, the manifests read are those of `h`. */
  ghost predicate ReadMatches(e: Engine, a: string, h: Hash)
    requires a in e.cluster.apps
  {
    !e.provider.labelled ==>
      ManifestsAt(e.provider.readAt, e.cluster.apps[a].sparsePath) == ManifestsAt(h, e.cluster.apps[a].sparsePath)
  }

  ghost predicate Deliverable(app: App, h: Hash, mine: set<Key>) {
    && PathHead(h, app.sparsePath) != ZERO_HASH
    && DistinctNames(ManifestsAt(h, app.sparsePath))
    && forall res <- ManifestsAt(h, app.sparsePath) :: KeyOf(app, res) in mine
  }

  /** `h` has not been delivered yet: the clone is new, or in sync with whatever commit it
  fetched last, and no old prune task threatens an object of `h`. */
  ghost predicate Waiting(e: Engine, a: string, h: Hash, mine: set<Key>, d0: nat) {
    && EngineInvariant(e, a)
    && Reserved(e.cluster, a, mine)
    && var app := e.cluster.apps[a];
    && app.delivery.None? && !app.removing && app.delivered == d0
    && Deliverable(app, h, mine) && ReadMatches(e, a, h)
    && NoThreat(e.cluster, a, PathHead(h, app.sparsePath))
  }

  lemma WaitingClusterStep(e: Engine, step: Step, a: string, h: Hash, mine: set<Key>, d0: nat)
    requires Waiting(e, a, h, mine, d0) && Possible(e, ClusterStep(step), a)
    requires QuietStep(e, ClusterStep(step), a, h, mine)
    ensures Waiting(After(e, ClusterStep(step), a), a, h, mine, d0)
    ensures After(e, ClusterStep(step), a).cluster.apps[a].sparsePath == e.cluster.apps[a].sparsePath
  {
    hide Next, Enabled, Tick;
    EngineInvariantKept(e, ClusterStep(step), a);
    ReservedKept(e.cluster, step, a, mine);
    AppEffect(e.cluster, step, a);
    FlagsEffect(e.cluster, step, a);
    ProgressEffect(e.cluster, step, a);
    CleanupEffect(e.cluster, step, a);
    TasksStayHarmless(e.cluster, step, a, PathHead(h, e.cluster.apps[a].sparsePath));
    NoDeliveryAppears(e.cluster, step, a);
  }

  lemma NoDeliveryAppears(s: State, step: Step, a: string)
    requires Enabled(s, step) && a in s.apps && s.apps[a].delivery.None? && !s.apps[a].removing
    requires !(step.StartDelivery? && step.app == a)
    ensures a in Next(s, step).apps && Next(s, step).apps[a].delivery.None?
    ensures step != FinishDelivery(a) && step != LockForUninstall(a)
  {
    hide Next;
    AppEffect(s, step, a);
    if Next(s, step).apps[a].delivery.Some? {
      RevisionOfDelivery(s, step, a);
    }
  }

  /** The tick that fetches `h`, or finds it fetched: it delivers the manifests of `h`, or only
  brings the clone up to date when nothing under the sparse path has changed. */
  lemma ArrivingTick(c: Clone, env: Environment, h: Hash, sparsePath: Path)
    requires c.current == ZERO_HASH || InSync(c, sparsePath)
    requires env.remote == env.pullRemote == h && PathHead(h, sparsePath) != ZERO_HASH
    requires Tick(c, env, sparsePath).1 != GitError
    ensures var (c', out) := Tick(c, env, sparsePath);
            && c' == Clone(h, h, TreeAt(h), PathHead(h, sparsePath))
            && (out.Delivered? ==> out.revision == c'.current && out.worktree == TreeAt(h))
            && (!out.Delivered? ==> c.current == c'.current)
  {
    TickSyncs(c, env, sparsePath);
    DeliversAtNonZero(c, env, sparsePath);
    if !Tick(c, env, sparsePath).1.Delivered? && c.current == ZERO_HASH {
      FreshStartConverges(c, env, sparsePath);
    }
  }

  lemma WaitingLifeCycle(e: Engine, env: Environment, resources: seq<Resource>, a: string, h: Hash, mine: set<Key>,
                         d0: nat)
    requires Waiting(e, a, h, mine, d0) && Possible(e, LifeCycle(env, resources), a)
    requires ArrivingStep(e, LifeCycle(env, resources), a, h, mine) && !env.fetchFails
    ensures var e' := After(e, LifeCycle(env, resources), a);
            && a in e'.cluster.apps && e'.cluster.apps[a].sparsePath == e.cluster.apps[a].sparsePath
            && (Waiting(e', a, h, mine, d0) || EngineConverging(e', a, h, mine, d0))
  {
    hide Next, Enabled, Tick;
    var s, sparsePath := e.cluster, e.cluster.apps[a].sparsePath;
    var (c, out) := TickOf(e, env, a);
    var r := PathHead(h, sparsePath);
    ArrivingTick(e.clone, env, h, sparsePath);
    if out.Delivered? {
      ManifestsAtPathHead(h, sparsePath);
      LifeCycleOnCluster(s, a, r, resources);
      var revised := WithApp(s, a, s.apps[a].(current := r));
      RevisedConverges(e, a, h, mine, d0);
      assert (set res | res in resources) == ManifestsAt(h, sparsePath);
      forall res <- resources ensures KeyOf(revised.apps[a], res) in mine {
        assert res in ManifestsAt(h, sparsePath);
        assert KeyOf(revised.apps[a], res) == KeyOf(s.apps[a], res);
      }
      ConvergingKept(revised, StartDelivery(a, resources), a, r, mine, d0);
    }
  }

  /** With the revision of `h` recorded, a waiting application is about to converge. */
  lemma RevisedConverges(e: Engine, a: string, h: Hash, mine: set<Key>, d0: nat)
    requires Waiting(e, a, h, mine, d0)
    ensures var app := e.cluster.apps[a];
            var r := PathHead(h, app.sparsePath);
            Converging(WithApp(e.cluster, a, app.(current := r)), a, r, mine, d0)
  {
    var s, app := e.cluster, e.cluster.apps[a];
    var r := PathHead(h, app.sparsePath);
    ManifestsAtPathHead(h, app.sparsePath);
    hide Next, Enabled;
    LifeCycleOnCluster(s, a, r, []);
    ReservedKept(s, SetRevision(a, r), a, mine);
    var revised := WithApp(s, a, app.(current := r));
    assert forall t | HasTask(revised, a, t) :: HasTask(s, a, t) && TaskAt(revised, a, t) == TaskAt(s, a, t);
  }

  lemma ArrivingKept(e: Engine, step: EngineStep, a: string, h: Hash, mine: set<Key>, d0: nat)
    requires Waiting(e, a, h, mine, d0) || EngineConverging(e, a, h, mine, d0)
    requires Possible(e, step, a) && ArrivingStep(e, step, a, h, mine)
    ensures var e' := After(e, step, a);
            && a in e'.cluster.apps && e'.cluster.apps[a].sparsePath == e.cluster.apps[a].sparsePath
            && (Waiting(e', a, h, mine, d0) || EngineConverging(e', a, h, mine, d0))
  {
    hide Next, Enabled, Tick;
    if EngineConverging(e, a, h, mine, d0) {
      EngineConvergingKept(e, step, a, h, mine, d0);
    } else {
      match step
      case ClusterStep(step) => WaitingClusterStep(e, step, a, h, mine, d0);
      case LifeCycle(env, resources) =>
        if env.fetchFails {
          FetchFailureChangesNothing(e.clone, env, e.cluster.apps[a].sparsePath);
        } else {
          WaitingLifeCycle(e, env, resources, a, h, mine, d0);
        }
    }
  }

  lemma {:induction false} ArrivingAlong(engines: seq<Engine>, steps: seq<EngineStep>, a: string, h: Hash,
                                         mine: set<Key>, d0: nat, n: nat)
    requires EngineRun(engines, steps, a) && n < |engines|
    requires Waiting(engines[0], a, h, mine, d0)
    requires forall i | 0 <= i < |steps| && a in engines[i].cluster.apps ::
               ArrivingStep(engines[i], steps[i], a, h, mine)
    ensures Waiting(engines[n], a, h, mine, d0) || EngineConverging(engines[n], a, h, mine, d0)
    ensures engines[n].cluster.apps[a].sparsePath == engines[0].cluster.apps[a].sparsePath
  {
    hide Next, Enabled, Tick, Converging, Waiting;
    if n > 0 {
      ArrivingAlong(engines, steps, a, h, mine, d0, n - 1);
      assert a in engines[n - 1].cluster.apps;
      ArrivingKept(engines[n - 1], steps[n - 1], a, h, mine, d0);
    }
  }

  /** Git is the desired state.  Take any application with honest labels that is new, or in sync
  with whatever commit it fetched last, with no Delivery or prune in the way, whatever else is
  wrong with its objects.  Let the remote have moved to `h`.  Any run of lifecycle calls and
  cluster steps without API errors, in which Fetch may fail any number of times, that completes
  a Delivery and drains its prune, has fetched `h`, recorded its matched revision, and left
  exactly the manifests of the branch tip `h` in the cluster, labelled with that revision.  (A
  first Delivery must find what was opened unchanged; FirstDeliveryHonestExactlyWhen and
  FirstDeliveryCompleteExactlyWhen say why.) */
  lemma EndToEndConvergence(engines: seq<Engine>, steps: seq<EngineStep>, a: string, h: Hash, mine: set<Key>)
    requires EngineRun(engines, steps, a) && EngineInvariant(engines[0], a)
    requires Reserved(engines[0].cluster, a, mine) && ReadMatches(engines[0], a, h)
    requires var app := engines[0].cluster.apps[a];
             && app.delivery.None? && !app.removing && Deliverable(app, h, mine)
             && NoThreat(engines[0].cluster, a, PathHead(h, app.sparsePath))
    requires forall i | 0 <= i < |steps| && a in engines[i].cluster.apps ::
               ArrivingStep(engines[i], steps[i], a, h, mine)
    requires a in engines[|steps|].cluster.apps && Drained(engines[|steps|].cluster, a)
    requires engines[|steps|].cluster.apps[a].delivered > engines[0].cluster.apps[a].delivered
    ensures var last, sparsePath := engines[|steps|].cluster, engines[0].cluster.apps[a].sparsePath;
            && engines[|steps|].clone == Clone(h, h, TreeAt(h), PathHead(h, sparsePath))
            && Settled(last, a, PathHead(h, sparsePath))
            && (set k | k in last.objects && last.objects[k].app == Some(a) :: ResourceAt(last, k))
               == ManifestsAt(h, sparsePath)
  {
    hide Next, Enabled, Tick;
    var d0, sparsePath := engines[0].cluster.apps[a].delivered, engines[0].cluster.apps[a].sparsePath;
    ManifestsAtPathHead(h, sparsePath);
    ArrivingAlong(engines, steps, a, h, mine, d0, |steps|);
    DrainedIsSettled(engines[|steps|].cluster, a, PathHead(h, sparsePath), mine, d0);
  }
}
