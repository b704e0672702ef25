/** Objects that never carried a `dummy.cd` label, in every interleaving of deliveries and
prune tasks of any number of applications. */
module RawForeign {
  import opened Prelude
  import opened Git
  import opened RawCluster
  import opened RawEffects

  /** Nothing is in progress yet. */
  ghost predicate Start(s: State) {
    && (forall k <- s.objects :: s.objects[k].version < s.nextVersion)
    && (forall a <- s.apps :: s.apps[a].delivery.None? && s.apps[a].tasks == [] && s.apps[a].cleanup.Free?)
  }

  ghost predicate VersionsBounded(s: State) {
    forall k <- s.objects :: s.objects[k].version < s.nextVersion
  }

  /** The API would accept the pending update: the object still has the version read. */
  ghost predicate GuardHolds(s: State, a: string, w: nat)
    requires HasWorker(s, a, w) && WorkerAt(s, a, w).Updating?
  {
    var k := WorkerKey(s, a, w);
    k in s.objects && s.objects[k].version == WorkerAt(s, a, w).version
  }

  /** A pending update can only hit the labelled object that its Get returned. */
  ghost predicate UpdatesGuarded(s: State) {
    forall a, w | HasWorker(s, a, w) && WorkerAt(s, a, w).Updating? ::
      && WorkerAt(s, a, w).version < s.nextVersion
      && (GuardHolds(s, a, w) ==> s.objects[WorkerKey(s, a, w)].revision.Some?)
  }

  ghost predicate ForeignInvariant(s: State) {
    VersionsBounded(s) && UpdatesGuarded(s)
  }

  lemma UpdatesGuardedKept(s: State, step: Step)
    requires ForeignInvariant(s) && Enabled(s, step)
    ensures UpdatesGuarded(Next(s, step))
  {
    hide Next, Enabled;
    var s' := Next(s, step);
    forall a, w: nat | HasWorker(s', a, w) && WorkerAt(s', a, w).Updating?
      ensures WorkerAt(s', a, w).version < s'.nextVersion
      ensures GuardHolds(s', a, w) ==> s'.objects[WorkerKey(s', a, w)].revision.Some?
    {
      if step.StartDelivery? && step.app == a {
        StartEffect(s, step, a, w);
      } else {
        WorkerEffect(s, step, a, w);
      }
      var k := WorkerKey(s', a, w);
      ObjectEffect(s, step, k);
      if step in {WorkerGet(a, w), WorkerCreate(a, w), WorkerUpdate(a, w), WorkerFail(a, w)} {
        CallEffect(s, step, a, w);
      } else if Writes(s, step, k) {
        WriteEffect(s, step, k);
      }
    }
  }

  lemma ForeignInvariantKept(s: State, step: Step)
    requires ForeignInvariant(s) && Enabled(s, step)
    ensures ForeignInvariant(Next(s, step))
  {
    hide Next, Enabled;
    UpdatesGuardedKept(s, step);
    forall k <- Next(s, step).objects ensures Next(s, step).objects[k].version < Next(s, step).nextVersion {
      ObjectEffect(s, step, k);
      if Writes(s, step, k) {
        WriteEffect(s, step, k);
      }
    }
  }

  ghost predicate EngineChanges(s: State, step: Step, k: Key) {
    Enabled(s, step) && !Foreign(step) && !SameObject(s, Next(s, step), k)
  }

  lemma UnlabelledNotWritten(s: State, step: Step, k: Key)
    requires ForeignInvariant(s) && k in s.objects && Unlabelled(s.objects[k])
    ensures !Writes(s, step, k)
  {
    if step.WorkerUpdate? && HasWorker(s, step.app, step.worker) && WorkerAt(s, step.app, step.worker).Updating? {
      assert GuardHolds(s, step.app, step.worker) ==> s.objects[WorkerKey(s, step.app, step.worker)].revision.Some?;
    }
  }

  /** Only a prune task that has the name on its list changes an unlabelled object. */
  lemma OnlyListedNamesChange(s: State, step: Step, k: Key)
    requires ForeignInvariant(s) && k in s.objects && Unlabelled(s.objects[k]) && EngineChanges(s, step, k)
    ensures step.TaskDelete? && step.key == k && OnDeleteList(s, k)
  {
    hide Next, Enabled;
    ObjectEffect(s, step, k);
    UnlabelledNotWritten(s, step, k);
    assert TaskAt(s, step.app, step.task) in s.apps[step.app].tasks;
  }

  /** When the engine can touch an unlabelled object: exactly when its name is on the delete
  list of some prune task now. */
  lemma EngineTouchesUnlabelledExactlyWhen(s: State, k: Key)
    requires ForeignInvariant(s) && k in s.objects && Unlabelled(s.objects[k])
    ensures (exists step :: EngineChanges(s, step, k)) <==> OnDeleteList(s, k)
  {
    if OnDeleteList(s, k) {
      var a :| a in s.apps && exists t <- s.apps[a].tasks :: t.Deleting? && k in t.names;
      var task :| task in s.apps[a].tasks && task.Deleting? && k in task.names;
      var t: nat :| t < |s.apps[a].tasks| && s.apps[a].tasks[t] == task;
      assert EngineChanges(s, TaskDelete(a, t, k), k);
    }
    forall step | EngineChanges(s, step, k) ensures OnDeleteList(s, k) {
      OnlyListedNamesChange(s, step, k);
    }
  }

  lemma {:induction false} ForeignInvariantAlong(states: seq<State>, steps: seq<Step>, n: nat)
    requires Run(states, steps) && Start(states[0]) && n < |states|
    ensures ForeignInvariant(states[n])
  {
    hide Next, Enabled;
    if n > 0 {
      ForeignInvariantAlong(states, steps, n - 1);
      ForeignInvariantKept(states[n - 1], steps[n - 1]);
    }
  }

  /** Prune tasks list by label, so an unlabelled object gets on no list. */
  lemma UnlistedStaysUnlisted(s: State, step: Step, k: Key)
    requires Enabled(s, step) && k in s.objects && Unlabelled(s.objects[k]) && !OnDeleteList(s, k)
    ensures !OnDeleteList(Next(s, step), k)
  {
    hide Next, Enabled;
    var s' := Next(s, step);
    forall a, t: nat | HasTask(s', a, t) ensures !(TaskAt(s', a, t).Deleting? && k in TaskAt(s', a, t).names) {
      TaskEffect(s, step, a, t);
      if HasTask(s, a, t) {
        assert TaskAt(s, a, t) in s.apps[a].tasks;
      }
    }
    forall a <- s'.apps, task <- s'.apps[a].tasks ensures !(task.Deleting? && k in task.names) {
      var t: nat :| t < |s'.apps[a].tasks| && s'.apps[a].tasks[t] == task;
      assert HasTask(s', a, t) && TaskAt(s', a, t) == task;
    }
  }

  /** In every run, an unlabelled object whose name is on no delete list stays as it is,
  resource version included, and stays off the lists, whatever any number of applications
  deliver, prune and uninstall, until a foreign client acts on it. */
  lemma {:induction false} ForeignObjectsUntouched(states: seq<State>, steps: seq<Step>, i: nat, j: nat, k: Key)
    requires Run(states, steps) && Start(states[0]) && i <= j < |states|
    requires k in states[i].objects && Unlabelled(states[i].objects[k]) && !OnDeleteList(states[i], k)
    requires forall n | i <= n < j && Foreign(steps[n]) :: steps[n].key != k
    ensures k in states[j].objects && states[j].objects[k] == states[i].objects[k] && !OnDeleteList(states[j], k)
    decreases j - i
  {
    hide Next, Enabled, OnDeleteList;
    if i < j {
      var s, step := states[j - 1], steps[j - 1];
      ForeignObjectsUntouched(states, steps, i, j - 1, k);
      ForeignInvariantAlong(states, steps, j - 1);
      UnlistedStaysUnlisted(s, step, k);
      ObjectEffect(s, step, k);
      if EngineChanges(s, step, k) {
        OnlyListedNamesChange(s, step, k);
      }
    }
  }

  /*---------- namespaces ----------*/

  /** The engine's tasks have names of their application's namespace on their lists. */
  ghost predicate ListsAtHome(s: State) {
    forall a, t, k | HasTask(s, a, t) && TaskAt(s, a, t).Deleting? && k in TaskAt(s, a, t).names ::
      k.namespace == s.apps[a].namespace
  }

  lemma ListsAtHomeKept(s: State, step: Step)
    requires ListsAtHome(s) && Enabled(s, step)
    ensures ListsAtHome(Next(s, step))
  {
    hide Next, Enabled;
    var s' := Next(s, step);
    forall a, t: nat, k | HasTask(s', a, t) && TaskAt(s', a, t).Deleting? && k in TaskAt(s', a, t).names
      ensures k.namespace == s'.apps[a].namespace
    {
      TaskEffect(s, step, a, t);
      SameNamespaces(s, step, a);
    }
  }

  lemma SameNamespaces(s: State, step: Step, a: string)
    requires Enabled(s, step)
    ensures a in s.apps <==> a in Next(s, step).apps
    ensures a in s.apps ==> Next(s, step).apps[a].namespace == s.apps[a].namespace
  {
    hide Next, Enabled;
    if a in s.apps {
      AppEffect(s, step, a);
    } else {
      NoNewApps(s, step, a);
    }
  }

  lemma NoNewApps(s: State, step: Step, a: string)
    requires Enabled(s, step) && a !in s.apps
    ensures a !in Next(s, step).apps
  {
  }

  /** In every run, whatever is delivered, pruned and uninstalled, the engine changes no object
  outside the namespaces of its applications, labelled or not. */
  lemma {:induction false} OtherNamespacesUntouched(states: seq<State>, steps: seq<Step>, j: nat, k: Key)
    requires Run(states, steps) && Start(states[0]) && j < |states|
    requires forall a <- states[0].apps :: states[0].apps[a].namespace != k.namespace
    requires forall n | 0 <= n < j && Foreign(steps[n]) :: steps[n].key != k
    ensures SameObject(states[0], states[j], k) && ListsAtHome(states[j])
    ensures forall a <- states[j].apps :: states[j].apps[a].namespace != k.namespace
  {
    hide Next, Enabled;
    if j > 0 {
      var s, step := states[j - 1], steps[j - 1];
      OtherNamespacesUntouched(states, steps, j - 1, k);
      ListsAtHomeKept(s, step);
      ObjectEffect(s, step, k);
      if Writes(s, step, k) {
        WriteEffect(s, step, k);
      }
      forall a <- states[j].apps ensures states[j].apps[a].namespace != k.namespace {
        SameNamespaces(s, step, a);
      }
    }
  }

  ghost predicate Leads(s: State, step: Step, s': State) {
    Enabled(s, step) && s' == Next(s, step)
  }

  const KEY := Key("default", "services", "web")
  const REVISION: Hash := [Commit(0, map[])]
  const EVERYTHING := Selector(true, REVISION)

  /** States of the example below: an application being removed, and one possible object. */
  function ExampleState(i: nat): State
    requires i < 8
  {
    var labelled := map[KEY := Object(Some("a"), Some(REVISION), "x", 0)];
    var (objects, nextVersion) :=
      if i < 5 then (labelled, 1) else if i == 5 then (map[], 1)
      else if i == 6 then (map[KEY := Object(None, None, "y", 1)], 2) else (map[], 2);
    var cleanup :=
      if i == 0 then Free else if i == 1 then Requested(true)
      else Launching(EVERYTHING, if i == 2 then multiset{"services"} else multiset{});
    var tasks :=
      if i < 3 then [] else if i == 3 then [Listing("services", EVERYTHING)]
      else [Deleting("services", EVERYTHING, if i < 7 then {KEY} else {})];
    State(multiset{"services"}, objects, nextVersion,
          map["a" := App("", "default", REVISION, None, cleanup, tasks, 1, true, i > 0)])
  }

  function ExampleStep(i: nat): Step
    requires i < 7
  {
    if i == 0 then LockForUninstall("a") else if i == 1 then ReadRevision("a")
    else if i == 2 then Launch("a", "services") else if i == 3 then TaskList("a", 0)
    else if i == 4 then ForeignDelete(KEY) else if i == 5 then ForeignPut(KEY, "y")
    else TaskDelete("a", 0, KEY)
  }

  lemma ExampleSetup(i: nat)
    requires i < 4
    ensures Leads(ExampleState(i), ExampleStep(i), ExampleState(i + 1))
  {
    var s, s' := ExampleState(i), ExampleState(i + 1);
    assert Enabled(s, ExampleStep(i));
    if i == 2 {
      assert multiset{"services"} - multiset{"services"} == multiset{};
      assert [] + [Listing("services", EVERYTHING)] == [Listing("services", EVERYTHING)];
    } else if i == 3 {
      assert Listed(s, "a", "services", EVERYTHING) == {KEY};
      assert [Listing("services", EVERYTHING)][0 := Deleting("services", EVERYTHING, {KEY})]
          == [Deleting("services", EVERYTHING, {KEY})];
    }
    assert Next(s, ExampleStep(i)).apps["a"] == s'.apps["a"];
    assert Next(s, ExampleStep(i)).apps == s'.apps;
  }

  lemma ExampleRace(i: nat)
    requires 4 <= i < 7
    ensures Leads(ExampleState(i), ExampleStep(i), ExampleState(i + 1))
  {
    var s, s' := ExampleState(i), ExampleState(i + 1);
    if i == 6 {
      assert {KEY} - {KEY} == {};
      assert TaskAt(s, "a", 0) == Deleting("services", EVERYTHING, {KEY});
      assert [Deleting("services", EVERYTHING, {KEY})][0 := Deleting("services", EVERYTHING, {})]
          == [Deleting("services", EVERYTHING, {})];
    }
    assert Next(s, ExampleStep(i)).objects == s'.objects;
    assert Next(s, ExampleStep(i)).apps == s'.apps;
  }

  /** A run from a quiet start whose last step, taken by the engine, removes an unlabelled
  object. */
  ghost predicate EndsByDeletingForeign(states: seq<State>, steps: seq<Step>, k: Key) {
    && Run(states, steps) && steps != []
    && Start(states[0])
    && k in states[|steps| - 1].objects && Unlabelled(states[|steps| - 1].objects[k])
    && !Foreign(steps[|steps| - 1])
    && k !in states[|steps|].objects
  }

  /** Such names exist: deletion is by name, so an object recreated without labels
  between the List and the Delete of a prune task is deleted. */
  lemma RecreatedNameIsDeleted()
    ensures exists states, steps, k :: EndsByDeletingForeign(states, steps, k)
  {
    hide Next, Enabled;
    var states := seq(8, i requires 0 <= i < 8 => ExampleState(i));
    var steps := seq(7, i requires 0 <= i < 7 => ExampleStep(i));
    forall i | 0 <= i < 7 ensures Enabled(states[i], steps[i]) && states[i + 1] == Next(states[i], steps[i]) {
      assert Leads(ExampleState(i), ExampleStep(i), ExampleState(i + 1)) by {
        if i < 4 { ExampleSetup(i); } else { ExampleRace(i); }
      }
    }
    assert Run(states, steps);
    assert EndsByDeletingForeign(states, steps, KEY);
  }
}
