/** Repeating a Delivery at the revision that is already in place. */
module RawIdempotence {
  import opened Prelude
  import opened Git
  import opened RawCluster
  import opened RawEffects
  import opened RawHonesty
  import opened RawReserved
  import opened RawConvergence

  /** Deliveries of manifests of `r` only; API calls may fail, and every other actor is only
  kept from the names of `a`. */
  ghost predicate RepeatingStep(s: State, step: Step, a: string, r: Hash, mine: set<Key>) {
    && RespectsNames(s, step, a, mine)
    && (!Foreign(step) && step.app == a && a in s.apps ==>
          match step
          case SetRevision(_, r') => r' == r
          case StartDelivery(_, resources) =>
            forall res <- resources :: res in ManifestsAt(r, s.apps[a].sparsePath)
          case BeginUninstall(_) => false
          case _ => true)
  }

  /** Every goroutine is about to find its object at `r`, or has found it. */
  ghost predicate NothingToWrite(s: State, a: string, r: Hash)
    requires a in s.apps
  {
    && AllApplied(s, a, r)
    && forall w | HasWorker(s, a, w) ::
         && s.apps[a].delivery.value.revision == r
         && WorkerAt(s, a, w).res in ManifestsAt(r, s.apps[a].sparsePath)
         && (WorkerAt(s, a, w).Getting? || WorkerAt(s, a, w).Finished?)
  }

  /** Listing this type selects no object of `r`: the selector is that of `r`, or no object of
  `r` is of the type. */
  ghost predicate SparesKind(app: App, r: Hash, selector: Selector, kind: Kind) {
    selector == Selector(false, r) || forall k <- WantedKeys(app, r) :: k.kind != kind
  }

  /** No cleanup and no prune task under way can reach an object of `r`. */
  ghost predicate PruneSpares(s: State, a: string, r: Hash)
    requires a in s.apps
  {
    && (s.apps[a].cleanup.Requested? ==> !s.apps[a].cleanup.all)
    && (s.apps[a].cleanup.Launching? ==>
          forall kind <- s.apps[a].cleanup.todo :: SparesKind(s.apps[a], r, s.apps[a].cleanup.selector, kind))
    && forall t | HasTask(s, a, t) :: TaskSpares(TaskAt(s, a, t), s.apps[a], r)
  }

  ghost predicate TaskSpares(task: Task, app: App, r: Hash) {
    match task
    case Listing(kind, selector) => SparesKind(app, r, selector, kind)
    case Deleting(_, _, names) => names !! WantedKeys(app, r)
    case Ended => true
  }

  /** The application has no other objects than those of `r`. */
  ghost predicate NothingElse(s: State, a: string, r: Hash)
    requires a in s.apps
  {
    forall k <- s.objects | s.objects[k].app == Some(a) ::
      s.objects[k].revision == Some(r) && k in WantedKeys(s.apps[a], r)
  }

  ghost predicate InPlace(s: State, a: string, r: Hash, mine: set<Key>) {
    && Reserved(s, a, mine)
    && s.apps[a].current == r != ZERO_HASH && !s.apps[a].removing
    && NothingToWrite(s, a, r)
    && NothingElse(s, a, r)
    && PruneSpares(s, a, r)
  }

  ghost predicate SameObjects(s: State, s': State, mine: set<Key>) {
    forall k <- mine :: SameObject(s, s', k)
  }

  lemma InPlaceChangesNothing(s: State, step: Step, a: string, r: Hash, mine: set<Key>)
    requires InPlace(s, a, r, mine) && Enabled(s, step) && RepeatingStep(s, step, a, r, mine)
    ensures SameObjects(s, Next(s, step), mine)
    ensures a in Next(s, step).apps && NothingElse(Next(s, step), a, r)
  {
    hide Next, Enabled;
    AppEffect(s, step, a);
    assert WantedKeys(Next(s, step).apps[a], r) == WantedKeys(s.apps[a], r);
    forall k
      ensures k in mine ==> SameObject(s, Next(s, step), k)
      ensures k in Next(s, step).objects && Next(s, step).objects[k].app == Some(a) ==>
                k in s.objects && Next(s, step).objects[k] == s.objects[k]
    {
      ObjectEffect(s, step, k);
      if Writes(s, step, k) {
        WriteEffect(s, step, k);
      }
    }
  }

  lemma NothingToWriteKept(s: State, step: Step, a: string, r: Hash, mine: set<Key>)
    requires InPlace(s, a, r, mine) && Enabled(s, step) && RepeatingStep(s, step, a, r, mine)
    ensures a in Next(s, step).apps && NothingToWrite(Next(s, step), a, r)
  {
    hide Next, Enabled;
    var s' := Next(s, step);
    AppEffect(s, step, a);
    InPlaceChangesNothing(s, step, a, r, mine);
    forall k <- WantedKeys(s'.apps[a], r) ensures Applied(s', a, r, k) {
      assert Applied(s, a, r, k) && k in mine;
    }
    forall w: nat | HasWorker(s', a, w)
      ensures s'.apps[a].delivery.value.revision == r
      ensures WorkerAt(s', a, w).res in ManifestsAt(r, s'.apps[a].sparsePath)
      ensures WorkerAt(s', a, w).Getting? || WorkerAt(s', a, w).Finished?
    {
      if step.StartDelivery? && step.app == a {
        StartEffect(s, step, a, w);
      } else {
        WorkerEffect(s, step, a, w);
        if step in {WorkerGet(a, w), WorkerCreate(a, w), WorkerUpdate(a, w), WorkerFail(a, w)} {
          CallEffect(s, step, a, w);
        }
        assert Applied(s, a, r, WorkerKey(s, a, w)) by {
          assert WorkerKey(s, a, w) in WantedKeys(s.apps[a], r);
        }
      }
    }
  }

  lemma PruneSparesKept(s: State, step: Step, a: string, r: Hash, mine: set<Key>)
    requires InPlace(s, a, r, mine) && Enabled(s, step) && RepeatingStep(s, step, a, r, mine)
    ensures a in Next(s, step).apps && PruneSpares(Next(s, step), a, r)
  {
    hide Next, Enabled;
    var s' := Next(s, step);
    AppEffect(s, step, a);
    CleanupEffect(s, step, a);
    assert WantedKeys(s'.apps[a], r) == WantedKeys(s.apps[a], r);
    forall t: nat | HasTask(s', a, t) ensures TaskSpares(TaskAt(s', a, t), s'.apps[a], r) {
      TaskEffect(s, step, a, t);
      if !HasTask(s, a, t) {
        LaunchedKind(s, step, a);
      }
    }
  }

  lemma LaunchedKind(s: State, step: Step, a: string)
    requires Enabled(s, step) && step.Launch? && step.app == a
    ensures a in s.apps && s.apps[a].cleanup.Launching? && step.kind in s.apps[a].cleanup.todo
  {
  }

  lemma InPlaceKept(s: State, step: Step, a: string, r: Hash, mine: set<Key>)
    requires InPlace(s, a, r, mine) && Enabled(s, step) && RepeatingStep(s, step, a, r, mine)
    ensures InPlace(Next(s, step), a, r, mine)
  {
    hide Next, Enabled;
    AppEffect(s, step, a);
    FlagsEffect(s, step, a);
    RevisionKept(s, step, a, r);
    ReservedKept(s, step, a, mine);
    NothingToWriteKept(s, step, a, r, mine);
    InPlaceChangesNothing(s, step, a, r, mine);
    PruneSparesKept(s, step, a, r, mine);
  }

  lemma SettledWanted(s: State, a: string, r: Hash, mine: set<Key>)
    requires Reserved(s, a, mine) && Settled(s, a, r)
    ensures AllApplied(s, a, r) && NothingElse(s, a, r)
  {
    forall k <- WantedKeys(s.apps[a], r) ensures Applied(s, a, r, k) {
      var res :| res in ManifestsAt(r, s.apps[a].sparsePath) && KeyOf(s.apps[a], res) == k;
      var k' :| k' in s.objects && s.objects[k'].app == Some(a) && ResourceAt(s, k') == res;
      assert k' == k;
    }
    forall k <- s.objects | s.objects[k].app == Some(a) ensures k in WantedKeys(s.apps[a], r) {
      assert ResourceAt(s, k) in (set x | x in s.objects && s.objects[x].app == Some(a) :: ResourceAt(s, x));
      assert KeyOf(s.apps[a], ResourceAt(s, k)) == k;
    }
  }

  lemma SettledStays(s: State, s': State, a: string, r: Hash, mine: set<Key>)
    requires Reserved(s, a, mine) && Reserved(s', a, mine) && Settled(s, a, r) && SameObjects(s, s', mine)
    requires s'.apps[a].namespace == s.apps[a].namespace && s'.apps[a].sparsePath == s.apps[a].sparsePath
    ensures Settled(s', a, r)
  {
    forall k | (k in s.objects && s.objects[k].app == Some(a)) || (k in s'.objects && s'.objects[k].app == Some(a))
      ensures SameObject(s, s', k)
    {
      assert k in mine;
    }
    assert (set k | k in s'.objects && s'.objects[k].app == Some(a) :: ResourceAt(s', k))
        == (set k | k in s.objects && s.objects[k].app == Some(a) :: ResourceAt(s, k));
  }

  /** Delivery is idempotent: once the application has settled at `r` and no prune under way can
  reach its objects, any number of further Deliveries at `r` with their prunes, in any
  interleaving and with any API failures, create, update and delete nothing; not even a
  resource version changes. */
  lemma {:induction false} RepeatedDeliveriesChangeNothing(states: seq<State>, steps: seq<Step>, a: string, r: Hash,
                                                           mine: set<Key>, n: nat)
    requires Run(states, steps) && n < |states|
    requires Reserved(states[0], a, mine) && Settled(states[0], a, r) && states[0].apps[a].delivery.None?
    requires PruneSpares(states[0], a, r)
    requires states[0].apps[a].current == r != ZERO_HASH && !states[0].apps[a].removing
    requires forall i | 0 <= i < |steps| :: RepeatingStep(states[i], steps[i], a, r, mine)
    ensures InPlace(states[n], a, r, mine) && Settled(states[n], a, r)
    ensures SameObjects(states[0], states[n], mine)
  {
    hide Next, Enabled;
    if n == 0 {
      SettledWanted(states[0], a, r, mine);
    } else {
      var s, step := states[n - 1], steps[n - 1];
      RepeatedDeliveriesChangeNothing(states, steps, a, r, mine, n - 1);
      InPlaceChangesNothing(s, step, a, r, mine);
      InPlaceKept(s, step, a, r, mine);
      AppEffect(s, step, a);
      SettledStays(s, states[n], a, r, mine);
    }
  }

  /** With everything drained there is no prune to reach anything. */
  lemma DrainedSpares(s: State, a: string, r: Hash)
    requires a in s.apps && Drained(s, a)
    ensures PruneSpares(s, a, r)
  {
    assert forall t | HasTask(s, a, t) :: TaskAt(s, a, t) in s.apps[a].tasks;
  }

  /*---------- stale prunes ----------*/

  /** Why convergence has to wait for older prune tasks: a name already on a delete list is
  deleted even when a later Delivery has put the wanted object there. */
  lemma StaleListUndoesDelivery(s: State, a: string, r: Hash, t: nat, res: Resource)
    requires HasTask(s, a, t) && TaskAt(s, a, t).Deleting? && Settled(s, a, r)
    requires res in ManifestsAt(r, s.apps[a].sparsePath) && KeyOf(s.apps[a], res) in TaskAt(s, a, t).names
    ensures var step := TaskDelete(a, t, KeyOf(s.apps[a], res));
            Enabled(s, step) && !Settled(Next(s, step), a, r)
  {
    var k := KeyOf(s.apps[a], res);
    var s' := Next(s, TaskDelete(a, t, k));
    assert forall k' <- s'.objects | s'.objects[k'].app == Some(a) && ResourceAt(s', k') == res :: k' == k;
    assert res !in (set k' | k' in s'.objects && s'.objects[k'].app == Some(a) :: ResourceAt(s', k'));
  }
}
