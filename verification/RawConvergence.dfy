/** Convergence of raw delivery: one complete Delivery at a fixed revision, and the prune that
follows it, bring the application's objects to exactly the manifests of that revision. */
module RawConvergence {
  import opened Prelude
  import opened Git
  import opened RawCluster
  import opened RawEffects
  import opened RawHonesty
  import opened RawReserved

  /** The keys of the manifests at revision `r`. */
  function WantedKeys(app: App, r: Hash): set<Key> {
    set res | res in ManifestsAt(r, app.sparsePath) :: KeyOf(app, res)
  }

  /** No two manifests of the revision claim the same object. */
  ghost predicate DistinctNames(m: set<Resource>) {
    forall x, y | x in m && y in m && x.kind == y.kind && x.name == y.name :: x == y
  }

  ghost predicate Applied(s: State, a: string, r: Hash, k: Key) {
    k in s.objects && s.objects[k].app == Some(a) && s.objects[k].revision == Some(r)
  }

  /** Labels of revision `r` are honest; nothing is asked of older labels. */
  ghost predicate HonestAt(s: State, a: string, r: Hash)
    requires a in s.apps
  {
    forall k | Applied(s, a, r, k) :: ResourceAt(s, k) in ManifestsAt(r, s.apps[a].sparsePath)
  }

  /** An object of the application that is not at revision `r`. */
  ghost predicate Outdated(s: State, a: string, r: Hash, k: Key) {
    k in s.objects && s.objects[k].app == Some(a) && s.objects[k].revision != Some(r)
  }

  /** No Delivery, no cleanup and no prune task of `a` is in progress. */
  ghost predicate Drained(s: State, a: string)
    requires a in s.apps
  {
    s.apps[a].delivery.None? && s.apps[a].cleanup.Free? && forall t <- s.apps[a].tasks :: t.Ended?
  }

  /** The objects of the application are exactly the manifests of `r`, with content and label. */
  ghost predicate Settled(s: State, a: string, r: Hash)
    requires a in s.apps
  {
    && (forall k <- s.objects | s.objects[k].app == Some(a) ::
          k.namespace == s.apps[a].namespace && s.objects[k].revision == Some(r))
    && (set k | k in s.objects && s.objects[k].app == Some(a) :: ResourceAt(s, k))
       == ManifestsAt(r, s.apps[a].sparsePath)
  }

  /** No object of the application can be of this type: discovery also reports subresources,
  and types that are not namespaced or cannot be listed. */
  ghost predicate NoneOfKind(mine: set<Key>, kind: Kind) {
    forall k <- mine :: k.kind != kind
  }

  /** The steps of `a` while its revision stays at `r`: Deliveries of the manifests of `r`, and
  API calls that do not fail, except on types that hold no object of the application.  Every
  other actor is only kept from the names of `a`. */
  ghost predicate SteadyStep(s: State, step: Step, a: string, r: Hash, mine: set<Key>) {
    && RespectsNames(s, step, a, mine)
    && (!Foreign(step) && step.app == a && a in s.apps ==>
          match step
          case SetRevision(_, r') => r' == r
          case StartDelivery(_, resources) =>
            (set res | res in resources) == ManifestsAt(r, s.apps[a].sparsePath)
          case BeginUninstall(_) => false
          case WorkerFail(_, _) => false
          case DiscoveryFail(_) => false
          case SkipKind(_, kind) => NoneOfKind(mine, kind)
          case TaskListFail(_, t) =>
            HasTask(s, a, t) && TaskAt(s, a, t).Listing? ==> NoneOfKind(mine, TaskAt(s, a, t).kind)
          case TaskDeleteFail(_, _, _) => false
          case _ => true)
  }

  /*---------- the invariant ----------*/

  /** Each goroutine is on its way to its object, or has applied it. */
  ghost predicate WorkerOnTrack(s: State, a: string, r: Hash, w: nat)
    requires HasWorker(s, a, w)
  {
    var worker, k := WorkerAt(s, a, w), WorkerKey(s, a, w);
    && worker.res in ManifestsAt(r, s.apps[a].sparsePath)
    && (worker.Creating? ==> k !in s.objects || Applied(s, a, r, k))
    && (worker.Updating? ==>
          Applied(s, a, r, k) || (k in s.objects && s.objects[k].version == worker.version))
    && (worker.Finished? ==> Applied(s, a, r, k))
  }

  ghost predicate DeliveryOnTrack(s: State, a: string, r: Hash)
    requires a in s.apps
  {
    s.apps[a].delivery.Some? ==>
      && s.apps[a].delivery.value.revision == r
      && (forall w | HasWorker(s, a, w) :: WorkerOnTrack(s, a, r, w))
      && (forall res <- ManifestsAt(r, s.apps[a].sparsePath) :: Covered(s, a, res))
  }

  ghost predicate AllApplied(s: State, a: string, r: Hash)
    requires a in s.apps
  {
    forall k <- WantedKeys(s.apps[a], r) :: Applied(s, a, r, k)
  }

  /** Some stage of the prune will still reach the object. */
  ghost predicate Doomed(s: State, a: string, k: Key)
    requires a in s.apps
  {
    || s.apps[a].cleanup.Requested?
    || (s.apps[a].cleanup.Launching? && k.kind in s.apps[a].cleanup.todo)
    || exists t :: HasTask(s, a, t) && TaskReaches(TaskAt(s, a, t), k)
  }

  predicate TaskReaches(task: Task, k: Key) {
    match task
    case Listing(kind, _) => k.kind == kind
    case Deleting(_, _, names) => k in names
    case Ended => false
  }

  ghost predicate OutdatedDoomed(s: State, a: string, r: Hash)
    requires a in s.apps
  {
    forall k | Outdated(s, a, r, k) :: Doomed(s, a, k)
  }

  /** The cleanup and its tasks select what is not at `r`, and list no wanted name. */
  ghost predicate PruneOnTrack(s: State, a: string, r: Hash)
    requires a in s.apps
  {
    && (s.apps[a].cleanup.Requested? ==> !s.apps[a].cleanup.all)
    && (s.apps[a].cleanup.Launching? ==> s.apps[a].cleanup.selector == Selector(false, r))
    && forall t | HasTask(s, a, t) ::
         match TaskAt(s, a, t)
         case Listing(_, selector) => selector == Selector(false, r)
         case Deleting(_, _, names) => names !! WantedKeys(s.apps[a], r)
         case Ended => true
  }

  /** The task has ended, or has only unwanted names left to delete. */
  predicate HarmlessTask(task: Task, wanted: set<Key>) {
    match task
    case Listing(_, _) => false
    case Deleting(_, _, names) => names !! wanted
    case Ended => true
  }

  /** No cleanup is under way, and no task of an earlier one threatens the objects of `r`. */
  ghost predicate NoThreat(s: State, a: string, r: Hash)
    requires a in s.apps
  {
    && s.apps[a].cleanup.Free?
    && forall t | HasTask(s, a, t) :: HarmlessTask(TaskAt(s, a, t), WantedKeys(s.apps[a], r))
  }

  /** Before the first Delivery since `d0` completes, no prune threatens its objects; afterwards
  the wanted objects are there to stay and the others are doomed. */
  ghost predicate Phase(s: State, a: string, r: Hash, d0: nat)
    requires a in s.apps
  {
    if s.apps[a].delivered == d0 then
      NoThreat(s, a, r)
    else
      AllApplied(s, a, r) && OutdatedDoomed(s, a, r) && PruneOnTrack(s, a, r)
  }

  ghost predicate Converging(s: State, a: string, r: Hash, mine: set<Key>, d0: nat) {
    && Reserved(s, a, mine)
    && s.apps[a].current == r != ZERO_HASH && !s.apps[a].removing && s.apps[a].delivered >= d0
    && DistinctNames(ManifestsAt(r, s.apps[a].sparsePath))
    && HonestAt(s, a, r)
    && DeliveryOnTrack(s, a, r)
    && Phase(s, a, r, d0)
  }

  /*---------- each step keeps it ----------*/

  /** A wanted object that is applied stays applied. */
  lemma AppliedStays(s: State, step: Step, a: string, r: Hash, mine: set<Key>, d0: nat, k: Key)
    requires Converging(s, a, r, mine, d0) && Enabled(s, step) && SteadyStep(s, step, a, r, mine)
    requires k in mine && k in WantedKeys(s.apps[a], r) && Applied(s, a, r, k)
    ensures Applied(Next(s, step), a, r, k)
  {
    hide Next, Enabled;
    if Foreign(step) || step.app != a {
      OthersSpareReserved(s, step, a, mine, k);
    } else {
      ObjectEffect(s, step, k);
      if Writes(s, step, k) {
        WriteEffect(s, step, k);
      }
    }
  }

  lemma HonestAtKept(s: State, step: Step, a: string, r: Hash, mine: set<Key>, d0: nat)
    requires Converging(s, a, r, mine, d0) && Enabled(s, step) && SteadyStep(s, step, a, r, mine)
    ensures a in Next(s, step).apps && HonestAt(Next(s, step), a, r)
  {
    hide Next, Enabled;
    var s' := Next(s, step);
    AppEffect(s, step, a);
    forall k | Applied(s', a, r, k)
      ensures ResourceAt(s', k) in ManifestsAt(r, s'.apps[a].sparsePath)
    {
      ObjectEffect(s, step, k);
      if Writes(s, step, k) {
        WriteEffect(s, step, k);
        assert WorkerOnTrack(s, a, r, step.worker);
        assert ResourceAt(s', k) == WorkerAt(s, a, step.worker).res;
      } else {
        assert Applied(s, a, r, k);
      }
    }
  }

  /** A manifest's key is wanted and reserved. */
  lemma WorkerKeyWanted(s: State, a: string, r: Hash, mine: set<Key>, w: nat)
    requires Reserved(s, a, mine) && HasWorker(s, a, w)
    requires WorkerAt(s, a, w).res in ManifestsAt(r, s.apps[a].sparsePath)
    ensures WorkerKey(s, a, w) in WantedKeys(s.apps[a], r) && WorkerKey(s, a, w) in mine
  {
  }

  /** A goroutine that is not moved by the step stays on track. */
  lemma WaitingWorkerOnTrack(s: State, step: Step, a: string, r: Hash, mine: set<Key>, d0: nat, w: nat)
    requires Converging(s, a, r, mine, d0) && Enabled(s, step) && SteadyStep(s, step, a, r, mine)
    requires HasWorker(s, a, w) && HasWorker(Next(s, step), a, w)
    requires WorkerAt(Next(s, step), a, w) == WorkerAt(s, a, w)
    ensures WorkerOnTrack(Next(s, step), a, r, w)
  {
    hide Next, Enabled;
    var s' := Next(s, step);
    var k := WorkerKey(s, a, w);
    assert WorkerOnTrack(s, a, r, w);
    WorkerKeyWanted(s, a, r, mine, w);
    AppEffect(s, step, a);
    if Applied(s, a, r, k) {
      AppliedStays(s, step, a, r, mine, d0, k);
    } else if Foreign(step) || step.app != a {
      OthersSpareReserved(s, step, a, mine, k);
    } else {
      ObjectEffect(s, step, k);
      if Writes(s, step, k) {
        WriteEffect(s, step, k);
      }
    }
  }

  /** A goroutine that makes its next API call stays on track. */
  lemma MovingWorkerOnTrack(s: State, step: Step, a: string, r: Hash, mine: set<Key>, d0: nat, w: nat)
    requires Converging(s, a, r, mine, d0) && Enabled(s, step) && SteadyStep(s, step, a, r, mine)
    requires step in {WorkerGet(a, w), WorkerCreate(a, w), WorkerUpdate(a, w)}
    ensures HasWorker(Next(s, step), a, w) && WorkerOnTrack(Next(s, step), a, r, w)
  {
    hide Next, Enabled;
    CallEffect(s, step, a, w);
    var k := WorkerKey(s, a, w);
    assert WorkerOnTrack(s, a, r, w);
    WorkerKeyWanted(s, a, r, mine, w);
    AppEffect(s, step, a);
    WorkerEffect(s, step, a, w);
    ObjectEffect(s, step, k);
    if Writes(s, step, k) {
      WriteEffect(s, step, k);
    }
  }

  lemma WorkersOnTrackKept(s: State, step: Step, a: string, r: Hash, mine: set<Key>, d0: nat, w: nat)
    requires Converging(s, a, r, mine, d0) && Enabled(s, step) && SteadyStep(s, step, a, r, mine)
    requires HasWorker(Next(s, step), a, w)
    ensures WorkerOnTrack(Next(s, step), a, r, w)
  {
    hide Next, Enabled;
    AppEffect(s, step, a);
    if step.StartDelivery? && step.app == a {
      StartEffect(s, step, a, w);
      assert step.resources[w] in (set res | res in step.resources);
    } else if (step.WorkerGet? || step.WorkerCreate? || step.WorkerUpdate?) && step.app == a && step.worker == w {
      MovingWorkerOnTrack(s, step, a, r, mine, d0, w);
    } else {
      WorkerEffect(s, step, a, w);
      WaitingWorkerOnTrack(s, step, a, r, mine, d0, w);
    }
  }

  /** Some goroutine of the Delivery applies the manifest. */
  ghost predicate Covered(s: State, a: string, res: Resource) {
    exists w :: HasWorker(s, a, w) && WorkerAt(s, a, w).res == res
  }

  lemma CoveredKept(s: State, step: Step, a: string, r: Hash, mine: set<Key>, d0: nat, res: Resource)
    requires Converging(s, a, r, mine, d0) && Enabled(s, step) && SteadyStep(s, step, a, r, mine)
    requires a in Next(s, step).apps && Next(s, step).apps[a].delivery.Some?
    requires res in ManifestsAt(r, s.apps[a].sparsePath)
    ensures Covered(Next(s, step), a, res)
  {
    hide Next, Enabled;
    if step.StartDelivery? && step.app == a {
      assert res in (set x | x in step.resources);
      var w :| 0 <= w < |step.resources| && step.resources[w] == res;
      WorkerStarted(s, step, a, w);
    } else {
      RevisionOfDelivery(s, step, a);
      assert Covered(s, a, res);
      var w :| HasWorker(s, a, w) && WorkerAt(s, a, w).res == res;
      WorkerSurvives(s, step, a, w);
    }
  }

  lemma DeliveryOnTrackKept(s: State, step: Step, a: string, r: Hash, mine: set<Key>, d0: nat)
    requires Converging(s, a, r, mine, d0) && Enabled(s, step) && SteadyStep(s, step, a, r, mine)
    ensures a in Next(s, step).apps && DeliveryOnTrack(Next(s, step), a, r)
  {
    hide Next, Enabled;
    var s' := Next(s, step);
    AppEffect(s, step, a);
    if s'.apps[a].delivery.Some? {
      RevisionOfDelivery(s, step, a);
      forall w: nat | HasWorker(s', a, w) ensures WorkerOnTrack(s', a, r, w) {
        WorkersOnTrackKept(s, step, a, r, mine, d0, w);
      }
      forall res <- ManifestsAt(r, s'.apps[a].sparsePath) ensures Covered(s', a, res) {
        CoveredKept(s, step, a, r, mine, d0, res);
      }
    }
  }

  /** The Delivery that completes has applied every manifest. */
  lemma FinishAppliesAll(s: State, a: string, r: Hash, mine: set<Key>, d0: nat)
    requires Converging(s, a, r, mine, d0) && Enabled(s, FinishDelivery(a))
    ensures AllApplied(Next(s, FinishDelivery(a)), a, r)
  {
    var s' := Next(s, FinishDelivery(a));
    forall k <- WantedKeys(s'.apps[a], r) ensures Applied(s', a, r, k) {
      var res :| res in ManifestsAt(r, s.apps[a].sparsePath) && KeyOf(s.apps[a], res) == k;
      assert Covered(s, a, res);
      var w :| HasWorker(s, a, w) && WorkerAt(s, a, w).res == res;
      assert WorkerOnTrack(s, a, r, w);
      assert WorkerAt(s, a, w) in s.apps[a].delivery.value.workers;
    }
  }

  lemma AllAppliedKept(s: State, step: Step, a: string, r: Hash, mine: set<Key>, d0: nat)
    requires Converging(s, a, r, mine, d0) && Enabled(s, step) && SteadyStep(s, step, a, r, mine)
    requires s.apps[a].delivered > d0
    ensures a in Next(s, step).apps && AllApplied(Next(s, step), a, r)
  {
    hide Next, Enabled;
    AppEffect(s, step, a);
    forall k <- WantedKeys(Next(s, step).apps[a], r) ensures Applied(Next(s, step), a, r, k) {
      assert Applied(s, a, r, k) && k in mine;
      AppliedStays(s, step, a, r, mine, d0, k);
    }
  }

  /** No step makes an object of `a` outdated. */
  lemma OutdatedNeverAppears(s: State, step: Step, a: string, r: Hash, mine: set<Key>, d0: nat, k: Key)
    requires Converging(s, a, r, mine, d0) && Enabled(s, step) && SteadyStep(s, step, a, r, mine)
    requires Outdated(Next(s, step), a, r, k)
    ensures Outdated(s, a, r, k) && Next(s, step).objects[k] == s.objects[k] && k in mine
  {
    hide Next, Enabled;
    ObjectEffect(s, step, k);
    if Writes(s, step, k) {
      WriteEffect(s, step, k);
    }
  }

  lemma OutdatedDoomedKept(s: State, step: Step, a: string, r: Hash, mine: set<Key>, d0: nat)
    requires Converging(s, a, r, mine, d0) && Enabled(s, step) && SteadyStep(s, step, a, r, mine)
    requires s.apps[a].delivered > d0
    ensures a in Next(s, step).apps && OutdatedDoomed(Next(s, step), a, r)
  {
    hide Next, Enabled;
    var s' := Next(s, step);
    AppEffect(s, step, a);
    forall k | Outdated(s', a, r, k) ensures Doomed(s', a, k) {
      OutdatedNeverAppears(s, step, a, r, mine, d0, k);
      assert Doomed(s, a, k);
      DoomedKept(s, step, a, r, mine, d0, k);
    }
  }

  lemma DoomedKept(s: State, step: Step, a: string, r: Hash, mine: set<Key>, d0: nat, k: Key)
    requires Converging(s, a, r, mine, d0) && Enabled(s, step) && SteadyStep(s, step, a, r, mine)
    requires s.apps[a].delivered > d0
    requires Outdated(s, a, r, k) && Outdated(Next(s, step), a, r, k) && k in mine && Doomed(s, a, k)
    ensures Doomed(Next(s, step), a, k)
  {
    hide Next, Enabled;
    var s' := Next(s, step);
    AppEffect(s, step, a);
    CleanupEffect(s, step, a);
    if t: nat :| HasTask(s, a, t) && TaskReaches(TaskAt(s, a, t), k) {
      TaskSurvives(s, step, a, t);
      TaskEffect(s, step, a, t);
      ObjectEffect(s, step, k);
      if step == TaskList(a, t) {
        assert k in Listed(s, a, k.kind, Selector(false, r));
      }
      assert TaskReaches(TaskAt(s', a, t), k);
    } else if step.Launch? && step.app == a && k.kind == step.kind {
      var t := |s.apps[a].tasks|;
      TaskSurvives(s, step, a, t);
      TaskEffect(s, step, a, t);
      assert TaskReaches(TaskAt(s', a, t), k);
    }
  }

  lemma PruneOnTrackKept(s: State, step: Step, a: string, r: Hash, mine: set<Key>, d0: nat)
    requires Converging(s, a, r, mine, d0) && Enabled(s, step) && SteadyStep(s, step, a, r, mine)
    requires s.apps[a].delivered > d0
    ensures a in Next(s, step).apps && PruneOnTrack(Next(s, step), a, r)
  {
    hide Next, Enabled;
    var s' := Next(s, step);
    AppEffect(s, step, a);
    CleanupEffect(s, step, a);
    forall t: nat | HasTask(s', a, t)
      ensures match TaskAt(s', a, t)
              case Listing(_, selector) => selector == Selector(false, r)
              case Deleting(_, _, names) => names !! WantedKeys(s'.apps[a], r)
              case Ended => true
    {
      TaskEffect(s, step, a, t);
      if step == TaskList(a, t) {
        forall k | k in TaskAt(s', a, t).names ensures k !in WantedKeys(s'.apps[a], r) {
          assert !Applied(s, a, r, k);
        }
      }
    }
  }

  /** While no cleanup is under way, no task appears and the harmless ones stay harmless. */
  lemma TasksStayHarmless(s: State, step: Step, a: string, r: Hash)
    requires Enabled(s, step) && a in s.apps && NoThreat(s, a, r)
    ensures a in Next(s, step).apps
    ensures forall t | HasTask(Next(s, step), a, t) ::
              HarmlessTask(TaskAt(Next(s, step), a, t), WantedKeys(Next(s, step).apps[a], r))
  {
    hide Next, Enabled;
    AppEffect(s, step, a);
    var s' := Next(s, step);
    assert WantedKeys(s'.apps[a], r) == WantedKeys(s.apps[a], r);
    forall t: nat | HasTask(s', a, t) ensures HarmlessTask(TaskAt(s', a, t), WantedKeys(s'.apps[a], r)) {
      TaskEffect(s, step, a, t);
    }
  }

  lemma PhaseKept(s: State, step: Step, a: string, r: Hash, mine: set<Key>, d0: nat)
    requires Converging(s, a, r, mine, d0) && Enabled(s, step) && SteadyStep(s, step, a, r, mine)
    ensures a in Next(s, step).apps && Phase(Next(s, step), a, r, d0)
  {
    hide Next, Enabled;
    AppEffect(s, step, a);
    ProgressEffect(s, step, a);
    CleanupEffect(s, step, a);
    if s.apps[a].delivered > d0 {
      AllAppliedKept(s, step, a, r, mine, d0);
      OutdatedDoomedKept(s, step, a, r, mine, d0);
      PruneOnTrackKept(s, step, a, r, mine, d0);
    } else if step == FinishDelivery(a) {
      FinishAppliesAll(s, a, r, mine, d0);
      TasksStayHarmless(s, step, a, r);
    } else {
      TasksStayHarmless(s, step, a, r);
    }
  }

  lemma RevisionKept(s: State, step: Step, a: string, r: Hash)
    requires Enabled(s, step) && a in s.apps && s.apps[a].current == r
    requires step.SetRevision? && step.app == a ==> step.revision == r
    ensures a in Next(s, step).apps && Next(s, step).apps[a].current == r
  {
  }

  lemma ConvergingKept(s: State, step: Step, a: string, r: Hash, mine: set<Key>, d0: nat)
    requires Converging(s, a, r, mine, d0) && Enabled(s, step) && SteadyStep(s, step, a, r, mine)
    ensures Converging(Next(s, step), a, r, mine, d0)
  {
    hide Next, Enabled;
    AppEffect(s, step, a);
    FlagsEffect(s, step, a);
    ProgressEffect(s, step, a);
    RevisionKept(s, step, a, r);
    ReservedKept(s, step, a, mine);
    HonestAtKept(s, step, a, r, mine, d0);
    DeliveryOnTrackKept(s, step, a, r, mine, d0);
    PhaseKept(s, step, a, r, mine, d0);
  }

  /*---------- theorems over runs ----------*/

  lemma {:induction false} ConvergingAlong(states: seq<State>, steps: seq<Step>, a: string, r: Hash, mine: set<Key>,
                                           d0: nat, n: nat)
    requires Run(states, steps) && n < |states|
    requires Converging(states[0], a, r, mine, d0)
    requires forall i | 0 <= i < |steps| :: SteadyStep(states[i], steps[i], a, r, mine)
    ensures Converging(states[n], a, r, mine, d0)
  {
    hide Next, Enabled;
    if n > 0 {
      ConvergingAlong(states, steps, a, r, mine, d0, n - 1);
      ConvergingKept(states[n - 1], steps[n - 1], a, r, mine, d0);
    }
  }

  /** When nothing is left in progress, a converging application has settled. */
  lemma DrainedIsSettled(s: State, a: string, r: Hash, mine: set<Key>, d0: nat)
    requires Converging(s, a, r, mine, d0) && Drained(s, a) && s.apps[a].delivered > d0
    ensures Settled(s, a, r)
  {
    var m := ManifestsAt(r, s.apps[a].sparsePath);
    assert forall t | HasTask(s, a, t) :: TaskAt(s, a, t) in s.apps[a].tasks;
    forall k <- s.objects | s.objects[k].app == Some(a)
      ensures k.namespace == s.apps[a].namespace && s.objects[k].revision == Some(r) && ResourceAt(s, k) in m
    {
      assert Outdated(s, a, r, k) ==> Doomed(s, a, k);
      assert Applied(s, a, r, k);
    }
    forall res <- m ensures exists k :: k in s.objects && s.objects[k].app == Some(a) && ResourceAt(s, k) == res {
      var k := KeyOf(s.apps[a], res);
      assert k in WantedKeys(s.apps[a], r);
      assert Applied(s, a, r, k);
    }
  }

  /** Raw convergence.  Start from any state in which no Delivery and no cleanup of `a` is under
  way, no old prune task threatens an object of `r`, and labels of `r` are honest, whatever
  else earlier deliveries left behind (objects missing, half updated, or of any other
  revision).  In every run in which the revision of `a` stays at
  `r` and its API calls do not fail, once a Delivery has completed and the prune has drained,
  the application's objects are exactly the manifests of `r`. */
  lemma RawConverges(states: seq<State>, steps: seq<Step>, a: string, r: Hash, mine: set<Key>)
    requires Run(states, steps)
    requires Reserved(states[0], a, mine) && states[0].apps[a].delivery.None? && NoThreat(states[0], a, r)
    requires states[0].apps[a].current == r != ZERO_HASH && !states[0].apps[a].removing
    requires DistinctNames(ManifestsAt(r, states[0].apps[a].sparsePath)) && HonestAt(states[0], a, r)
    requires forall i | 0 <= i < |steps| :: SteadyStep(states[i], steps[i], a, r, mine)
    requires a in states[|steps|].apps && Drained(states[|steps|], a)
    requires states[|steps|].apps[a].delivered > states[0].apps[a].delivered
    ensures Settled(states[|steps|], a, r)
  {
    hide Next, Enabled;
    var s, d0 := states[0], states[0].apps[a].delivered;
    assert Phase(s, a, r, d0);
    assert Converging(s, a, r, mine, d0);
    ConvergingAlong(states, steps, a, r, mine, d0, |steps|);
    DrainedIsSettled(states[|steps|], a, r, mine, d0);
  }
}
