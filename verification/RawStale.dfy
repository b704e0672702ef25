/** Prunes that are out of date: when what has settled stays so, and a run in which it does
not. */
module RawStale {
  import opened Prelude
  import opened Git
  import opened RawCluster
  import opened RawEffects
  import opened RawHonesty
  import opened RawReserved
  import opened RawConvergence
  import opened RawIdempotence

  /** A run of repeated Deliveries at `r`, with prunes and with every other actor. */
  ghost predicate RepeatingRun(states: seq<State>, steps: seq<Step>, s: State, a: string, r: Hash, mine: set<Key>) {
    && Run(states, steps) && states[0] == s
    && forall i | 0 <= i < |steps| :: RepeatingStep(states[i], steps[i], a, r, mine)
  }

  ghost predicate SettledAt(s: State, a: string, r: Hash) {
    a in s.apps && Settled(s, a, r)
  }

  /** However Deliveries at `r` are repeated, the application is settled afterwards. */
  ghost predicate SettledForGood(s: State, a: string, r: Hash, mine: set<Key>) {
    forall states, steps | RepeatingRun(states, steps, s, a, r, mine) :: SettledAt(states[|steps|], a, r)
  }

  /** Settled at `r`, whatever prunes are still under way. */
  ghost predicate Rests(s: State, a: string, r: Hash, mine: set<Key>) {
    && Reserved(s, a, mine) && Settled(s, a, r)
    && s.apps[a].current == r != ZERO_HASH && !s.apps[a].removing && s.apps[a].delivery.None?
    && s.apps[a].cleanup != Requested(true)
  }

  /*---------- a prune that reaches a wanted object can delete it ----------*/

  ghost predicate CanUnsettle(s: State, a: string, r: Hash, mine: set<Key>) {
    exists states, steps :: RepeatingRun(states, steps, s, a, r, mine) && !SettledAt(states[|steps|], a, r)
  }

  lemma UnsettledNow(s: State, a: string, r: Hash, mine: set<Key>)
    requires !SettledAt(s, a, r)
    ensures CanUnsettle(s, a, r, mine)
  {
    assert RepeatingRun([s], [], s, a, r, mine);
  }

  lemma UnsettledLater(s: State, step: Step, a: string, r: Hash, mine: set<Key>)
    requires Enabled(s, step) && RepeatingStep(s, step, a, r, mine) && CanUnsettle(Next(s, step), a, r, mine)
    ensures CanUnsettle(s, a, r, mine)
  {
    hide Next, Enabled, SettledAt, RepeatingStep;
    var states, steps :| RepeatingRun(states, steps, Next(s, step), a, r, mine) && !SettledAt(states[|steps|], a, r);
    var states', steps' := [s] + states, [step] + steps;
    forall i | 0 <= i < |steps'|
      ensures Enabled(states'[i], steps'[i]) && states'[i + 1] == Next(states'[i], steps'[i])
      ensures RepeatingStep(states'[i], steps'[i], a, r, mine)
    {
      if i > 0 {
        assert Enabled(states[i - 1], steps[i - 1]) && states[i] == Next(states[i - 1], steps[i - 1]);
      }
    }
    assert states'[|steps'|] == states[|steps|];
    assert RepeatingRun(states', steps', s, a, r, mine);
  }

  lemma DeletesWanted(s: State, a: string, r: Hash, mine: set<Key>, t: nat, k: Key)
    requires Reserved(s, a, mine) && Settled(s, a, r)
    requires HasTask(s, a, t) && TaskAt(s, a, t).Deleting?
    requires k in TaskAt(s, a, t).names && k in WantedKeys(s.apps[a], r)
    ensures CanUnsettle(s, a, r, mine)
  {
    var res :| res in ManifestsAt(r, s.apps[a].sparsePath) && KeyOf(s.apps[a], res) == k;
    StaleListUndoesDelivery(s, a, r, t, res);
    UnsettledNow(Next(s, TaskDelete(a, t, k)), a, r, mine);
    UnsettledLater(s, TaskDelete(a, t, k), a, r, mine);
  }

  /** A step that touches no object keeps what is reserved and settled. */
  lemma PruneStepKeeps(s: State, step: Step, a: string, r: Hash, mine: set<Key>)
    requires Reserved(s, a, mine) && Settled(s, a, r) && Enabled(s, step)
    requires (step.Launch? || step.TaskList?) && step.app == a
    ensures RepeatingStep(s, step, a, r, mine)
    ensures Reserved(Next(s, step), a, mine) && Settled(Next(s, step), a, r)
    ensures WantedKeys(Next(s, step).apps[a], r) == WantedKeys(s.apps[a], r)
  {
    ReservedKept(s, step, a, mine);
    hide Next, Enabled;
    AppEffect(s, step, a);
    forall k ensures SameObject(s, Next(s, step), k) {
      ObjectEffect(s, step, k);
    }
    SettledStays(s, Next(s, step), a, r, mine);
  }

  lemma ListsWanted(s: State, a: string, r: Hash, mine: set<Key>, t: nat, k: Key)
    requires Reserved(s, a, mine) && Settled(s, a, r) && k in WantedKeys(s.apps[a], r)
    requires HasTask(s, a, t) && TaskAt(s, a, t).Listing? && TaskAt(s, a, t).kind == k.kind
    requires TaskAt(s, a, t).selector != Selector(false, r)
    ensures CanUnsettle(s, a, r, mine)
  {
    var step := TaskList(a, t);
    SettledWanted(s, a, r, mine);
    assert Applied(s, a, r, k);
    assert k in Listed(s, a, k.kind, TaskAt(s, a, t).selector);
    assert Enabled(s, step);
    hide Next, Enabled, Listed, Settled;
    PruneStepKeeps(s, step, a, r, mine);
    TaskSurvives(s, step, a, t);
    TaskEffect(s, step, a, t);
    DeletesWanted(Next(s, step), a, r, mine, t, k);
    UnsettledLater(s, step, a, r, mine);
  }

  lemma LaunchesWanted(s: State, a: string, r: Hash, mine: set<Key>, k: Key)
    requires Reserved(s, a, mine) && Settled(s, a, r) && k in WantedKeys(s.apps[a], r)
    requires s.apps[a].cleanup.Launching? && k.kind in s.apps[a].cleanup.todo
    requires s.apps[a].cleanup.selector != Selector(false, r)
    ensures CanUnsettle(s, a, r, mine)
  {
    var step := Launch(a, k.kind);
    assert Enabled(s, step);
    hide Next, Enabled, Settled;
    PruneStepKeeps(s, step, a, r, mine);
    var t := |s.apps[a].tasks|;
    TaskSurvives(s, step, a, t);
    TaskEffect(s, step, a, t);
    ListsWanted(Next(s, step), a, r, mine, t, k);
    UnsettledLater(s, step, a, r, mine);
  }

  /** When an application that has settled stays settled, whatever is repeated: exactly when no
  prune under way can reach a wanted object. */
  lemma SettledForGoodExactlyWhen(s: State, a: string, r: Hash, mine: set<Key>)
    requires Rests(s, a, r, mine)
    ensures SettledForGood(s, a, r, mine) <==> PruneSpares(s, a, r)
  {
    hide Next, Enabled;
    if PruneSpares(s, a, r) {
      forall states, steps | RepeatingRun(states, steps, s, a, r, mine) ensures SettledAt(states[|steps|], a, r) {
        RepeatedDeliveriesChangeNothing(states, steps, a, r, mine, |steps|);
      }
    } else {
      UnsparedUnsettles(s, a, r, mine);
    }
  }

  lemma UnsparedUnsettles(s: State, a: string, r: Hash, mine: set<Key>)
    requires Rests(s, a, r, mine) && !PruneSpares(s, a, r)
    ensures CanUnsettle(s, a, r, mine)
  {
    var app := s.apps[a];
    if t: nat :| HasTask(s, a, t) && !TaskSpares(TaskAt(s, a, t), app, r) {
      match TaskAt(s, a, t)
      case Listing(kind, selector) =>
        var k :| k in WantedKeys(app, r) && k.kind == kind;
        ListsWanted(s, a, r, mine, t, k);
      case Deleting(_, _, names) =>
        var k :| k in WantedKeys(app, r) && k in names;
        DeletesWanted(s, a, r, mine, t, k);
    } else {
      var kind :| kind in app.cleanup.todo && !SparesKind(app, r, app.cleanup.selector, kind);
      var k :| k in WantedKeys(app, r) && k.kind == kind;
      LaunchesWanted(s, a, r, mine, k);
    }
  }

  /*---------- a run without any failure ----------*/

  const WEB := Resource("services", "web", "port 80")
  const WEB_KEY := Key("default", "services", "web")
  const WITH: Tree := map["web.yaml" := Manifest(WEB)]
  const WITHOUT: Tree := map[]

  /** The manifest is there, is removed, and comes back. */
  const H1: Hash := [Commit(0, WITH)]
  const H2: Hash := [Commit(0, WITH), Commit(1, WITHOUT)]
  const H3: Hash := [Commit(0, WITH), Commit(1, WITHOUT), Commit(2, WITH)]

  /** The second revision's prune lists the object; before it deletes, the third revision is
  delivered, and its own prune finds nothing to do. */
  const STALE_STEPS: seq<Step> := [
    SetRevision("a", H2), StartDelivery("a", []), FinishDelivery("a"), ReadRevision("a"),
    Launch("a", "services"), UnlockCleanup("a"), TaskList("a", 0),
    SetRevision("a", H3), StartDelivery("a", [WEB]), WorkerGet("a", 0), WorkerUpdate("a", 0), FinishDelivery("a"),
    ReadRevision("a"), Launch("a", "services"), UnlockCleanup("a"), TaskList("a", 1), TaskEnd("a", 1),
    TaskDelete("a", 0, WEB_KEY)]

  function StaleRevision(i: nat): Hash {
    if i == 0 then H1 else if i < 8 then H2 else H3
  }

  function StaleDelivery(i: nat): Option<Delivery> {
    match i
    case 2 => Some(Delivery(H2, []))
    case 9 => Some(Delivery(H3, [Getting(WEB)]))
    case 10 => Some(Delivery(H3, [Updating(WEB, 0)]))
    case 11 => Some(Delivery(H3, [Finished(WEB)]))
    case _ => None
  }

  function StaleCleanup(i: nat): Cleanup {
    match i
    case 3 => Requested(false)
    case 4 => Launching(Selector(false, H2), multiset{"services"})
    case 5 => Launching(Selector(false, H2), multiset{})
    case 12 => Requested(false)
    case 13 => Launching(Selector(false, H3), multiset{"services"})
    case 14 => Launching(Selector(false, H3), multiset{})
    case _ => Free
  }

  function StaleTasks(i: nat): seq<Task> {
    var first := Deleting("services", Selector(false, H2), if i < 18 then {WEB_KEY} else {});
    if i < 5 then [] else if i < 7 then [Listing("services", Selector(false, H2))]
    else if i < 14 then [first]
    else if i < 16 then [first, Listing("services", Selector(false, H3))]
    else if i == 16 then [first, Deleting("services", Selector(false, H3), {})]
    else [first, Ended]
  }

  function StaleApp(i: nat): App {
    App("", "default", StaleRevision(i), StaleDelivery(i), StaleCleanup(i), StaleTasks(i),
        if i < 3 then 1 else if i < 12 then 2 else 3, false, false)
  }

  function StaleObjects(i: nat): map<Key, Object> {
    if i < 11 then map[WEB_KEY := Object(Some("a"), Some(H1), "port 80", 0)]
    else if i < 18 then map[WEB_KEY := Object(Some("a"), Some(H3), "port 80", 1)]
    else map[]
  }

  /** A cluster with services only, and this application only. */
  function Only(app: App, objects: map<Key, Object>, nextVersion: nat): State {
    State(multiset{"services"}, objects, nextVersion, map["a" := app])
  }

  function StaleState(i: nat): State {
    Only(StaleApp(i), StaleObjects(i), if i < 11 then 1 else 2)
  }

  ghost predicate Leads(s: State, step: Step, s': State) {
    Enabled(s, step) && Next(s, step) == s'
  }

  lemma OnlyChanged(app: App, app': App)
    ensures map["a" := app]["a" := app'] == map["a" := app']
  {
  }

  lemma RevisionStep(app: App, objects: map<Key, Object>, v: nat, r: Hash)
    requires app.delivery.None? && !app.removing && r != ZERO_HASH
    ensures Leads(Only(app, objects, v), SetRevision("a", r), Only(app.(current := r), objects, v))
  {
    OnlyChanged(app, app.(current := r));
  }

  lemma StartStep(app: App, objects: map<Key, Object>, v: nat, resources: seq<Resource>)
    requires app.delivery.None? && !app.removing && app.current != ZERO_HASH
    ensures var app' := app.(delivery := Some(Delivery(app.current, WorkersFor(resources))));
            Leads(Only(app, objects, v), StartDelivery("a", resources), Only(app', objects, v))
  {
    OnlyChanged(app, app.(delivery := Some(Delivery(app.current, WorkersFor(resources)))));
  }

  lemma FinishStep(app: App, objects: map<Key, Object>, v: nat)
    requires app.delivery.Some? && (forall w <- app.delivery.value.workers :: w.Finished?) && app.cleanup.Free?
    ensures var app' := app.(delivery := None, delivered := app.delivered + 1, cleanup := Requested(false));
            Leads(Only(app, objects, v), FinishDelivery("a"), Only(app', objects, v))
  {
    OnlyChanged(app, app.(delivery := None, delivered := app.delivered + 1, cleanup := Requested(false)));
  }

  lemma CleanupSteps(app: App, objects: map<Key, Object>, v: nat)
    requires app.current != ZERO_HASH && app.cleanup == Requested(false)
    ensures var selector := Selector(false, app.current);
            var app1 := app.(cleanup := Launching(selector, multiset{"services"}));
            var app2 := app.(cleanup := Launching(selector, multiset{}),
                             tasks := app.tasks + [Listing("services", selector)]);
            && Leads(Only(app, objects, v), ReadRevision("a"), Only(app1, objects, v))
            && Leads(Only(app1, objects, v), Launch("a", "services"), Only(app2, objects, v))
            && Leads(Only(app2, objects, v), UnlockCleanup("a"), Only(app2.(cleanup := Free), objects, v))
  {
    var selector := Selector(false, app.current);
    var app1 := app.(cleanup := Launching(selector, multiset{"services"}));
    var app2 := app.(cleanup := Launching(selector, multiset{}), tasks := app.tasks + [Listing("services", selector)]);
    assert multiset{"services"} - multiset{"services"} == multiset{};
    OnlyChanged(app, app1);
    OnlyChanged(app1, app2);
    OnlyChanged(app2, app2.(cleanup := Free));
  }

  lemma ListStep(app: App, objects: map<Key, Object>, v: nat, t: nat)
    requires t < |app.tasks| && app.tasks[t].Listing?
    ensures var s, task := Only(app, objects, v), app.tasks[t];
            var task' := Deleting(task.kind, task.selector, Listed(s, "a", task.kind, task.selector));
            Leads(s, TaskList("a", t), Only(app.(tasks := app.tasks[t := task']), objects, v))
  {
    var s, task := Only(app, objects, v), app.tasks[t];
    var task' := Deleting(task.kind, task.selector, Listed(s, "a", task.kind, task.selector));
    OnlyChanged(app, app.(tasks := app.tasks[t := task']));
  }

  lemma EndStep(app: App, objects: map<Key, Object>, v: nat, t: nat)
    requires t < |app.tasks| && app.tasks[t].Deleting? && app.tasks[t].names == {}
    ensures Leads(Only(app, objects, v), TaskEnd("a", t), Only(app.(tasks := app.tasks[t := Ended]), objects, v))
  {
    OnlyChanged(app, app.(tasks := app.tasks[t := Ended]));
  }

  lemma DeleteStep(app: App, objects: map<Key, Object>, v: nat, t: nat, k: Key)
    requires t < |app.tasks| && app.tasks[t].Deleting? && k in app.tasks[t].names
    ensures var task' := app.tasks[t].(names := app.tasks[t].names - {k});
            Leads(Only(app, objects, v), TaskDelete("a", t, k),
                  Only(app.(tasks := app.tasks[t := task']), objects - {k}, v))
  {
    OnlyChanged(app, app.(tasks := app.tasks[t := app.tasks[t].(names := app.tasks[t].names - {k})]));
  }

  lemma ApplySteps(app: App, o: Object, v: nat, res: Resource)
    requires app.delivery == Some(Delivery(app.current, [Getting(res)]))
    requires o.revision.Some? && o.revision.value != app.current
    ensures var k := KeyOf(app, res);
            var app1 := app.(delivery := Some(Delivery(app.current, [Updating(res, o.version)])));
            var app2 := app.(delivery := Some(Delivery(app.current, [Finished(res)])));
            var o' := Object(Some("a"), Some(app.current), res.content, v);
            && Leads(Only(app, map[k := o], v), WorkerGet("a", 0), Only(app1, map[k := o], v))
            && Leads(Only(app1, map[k := o], v), WorkerUpdate("a", 0), Only(app2, map[k := o'], v + 1))
  {
    var k := KeyOf(app, res);
    var app1 := app.(delivery := Some(Delivery(app.current, [Updating(res, o.version)])));
    var app2 := app.(delivery := Some(Delivery(app.current, [Finished(res)])));
    var o' := Object(Some("a"), Some(app.current), res.content, v);
    OnlyChanged(app, app1);
    OnlyChanged(app1, app2);
    assert map[k := o][k := o'] == map[k := o'];
    assert [Getting(res)][0 := Updating(res, o.version)] == [Updating(res, o.version)];
    assert [Updating(res, o.version)][0 := Finished(res)] == [Finished(res)];
    assert HasWorker(Only(app, map[k := o], v), "a", 0) && HasWorker(Only(app1, map[k := o], v), "a", 0);
  }

  lemma DeliverySteps(i: nat)
    requires i in {0, 1, 2, 7, 8, 9, 10, 11}
    ensures Leads(StaleState(i), STALE_STEPS[i], StaleState(i + 1))
  {
    hide Next, Enabled;
    var app, o, v := StaleApp(i), StaleObjects(i), StaleState(i).nextVersion;
    assert WorkersFor([]) == [] && WorkersFor([WEB]) == [Getting(WEB)];
    if i in {0, 7} {
      RevisionStep(app, o, v, StaleRevision(i + 1));
    } else if i in {1, 8} {
      StartStep(app, o, v, STALE_STEPS[i].resources);
    } else if i in {2, 11} {
      FinishStep(app, o, v);
    } else {
      ApplySteps(StaleApp(9), StaleObjects(9)[WEB_KEY], v, WEB);
    }
  }

  lemma PruneSteps(i: nat)
    requires i in {3, 4, 5, 12, 13, 14}
    ensures Leads(StaleState(i), STALE_STEPS[i], StaleState(i + 1))
  {
    hide Next, Enabled;
    var read := if i < 6 then 3 else 12;
    CleanupSteps(StaleApp(read), StaleObjects(read), StaleState(read).nextVersion);
    assert StaleApp(read).tasks + [Listing("services", Selector(false, StaleRevision(read)))] == StaleTasks(read + 2);
  }

  lemma StaleListed(i: nat)
    requires i in {6, 15}
    ensures Listed(StaleState(i), "a", "services", Selector(false, StaleRevision(i)))
            == if i == 6 then {WEB_KEY} else {}
  {
  }

  lemma ListSteps(i: nat)
    requires i in {6, 15}
    ensures Leads(StaleState(i), STALE_STEPS[i], StaleState(i + 1))
  {
    StaleListed(i);
    hide Next, Enabled, Listed;
    var t := STALE_STEPS[i].task;
    ListStep(StaleApp(i), StaleObjects(i), StaleState(i).nextVersion, t);
    assert StaleTasks(i)[t := StaleTasks(i + 1)[t]] == StaleTasks(i + 1);
  }

  lemma LastSteps(i: nat)
    requires i in {16, 17}
    ensures Leads(StaleState(i), STALE_STEPS[i], StaleState(i + 1))
  {
    hide Next, Enabled;
    var app, o := StaleApp(i), StaleObjects(i);
    if i == 16 {
      EndStep(app, o, 2, 1);
      assert StaleTasks(16)[1 := Ended] == StaleTasks(17);
    } else {
      DeleteStep(app, o, 2, 0, WEB_KEY);
      assert o - {WEB_KEY} == map[] && {WEB_KEY} - {WEB_KEY} == {};
      assert StaleTasks(17)[0 := StaleTasks(18)[0]] == StaleTasks(18);
    }
  }

  lemma StaleSteps(i: nat)
    requires i < |STALE_STEPS|
    ensures Leads(StaleState(i), STALE_STEPS[i], StaleState(i + 1))
  {
    hide Leads, StaleState;
    if i in {0, 1, 2, 7, 8, 9, 10, 11} {
      DeliverySteps(i);
    } else if i in {6, 15} {
      ListSteps(i);
    } else if i in {16, 17} {
      LastSteps(i);
    } else {
      PruneSteps(i);
    }
  }

  ghost predicate NoFailure(step: Step) {
    !step.WorkerFail? && !step.DiscoveryFail? && !step.SkipKind? && !step.TaskListFail? && !step.TaskDeleteFail?
    && !Foreign(step)
  }

  /** A Delivery of `a` that starts applies the manifests of its revision. */
  ghost predicate AppliesManifests(s: State, step: Step, a: string) {
    step.StartDelivery? && step.app == a && a in s.apps ==>
      (set res | res in step.resources) == ManifestsAt(s.apps[a].current, s.apps[a].sparsePath)
  }

  /** A run without any failure or foreign client, from a settled application with nothing in
  progress, in which each Delivery applies the manifests of its revision, and whose last step
  undoes the last of them. */
  ghost predicate UndoneByStalePrune(states: seq<State>, steps: seq<Step>, a: string, r: Hash) {
    && Run(states, steps) && steps != []
    && (forall i | 0 <= i < |steps| :: NoFailure(steps[i]) && AppliesManifests(states[i], steps[i], a))
    && a in states[0].apps && Drained(states[0], a) && SettledAt(states[0], a, states[0].apps[a].current)
    && SettledAt(states[|steps| - 1], a, r) && !SettledAt(states[|steps|], a, r)
  }

  lemma StaleManifests()
    ensures ManifestsAt(H1, "") == {WEB} && ManifestsAt(H2, "") == {} && ManifestsAt(H3, "") == {WEB}
  {
    assert WITH["web.yaml"] == Manifest(WEB);
    assert forall p | p in WITH :: p == "web.yaml";
  }

  lemma StaleSettled(i: nat)
    requires i in {0, 17, 18}
    ensures SettledAt(StaleState(i), "a", StaleRevision(i)) <==> i != 18
    ensures i == 0 ==> Drained(StaleState(i), "a")
  {
    StaleManifests();
    var s := StaleState(i);
    var held := set k | k in s.objects && s.objects[k].app == Some("a") :: ResourceAt(s, k);
    if i != 18 {
      assert ResourceAt(s, WEB_KEY) == WEB;
      assert held == {WEB};
    } else {
      assert held == {};
    }
  }

  lemma StaleReads(i: nat)
    requires i < |STALE_STEPS|
    ensures NoFailure(STALE_STEPS[i]) && AppliesManifests(StaleState(i), STALE_STEPS[i], "a")
  {
    StaleManifests();
    assert (set res | res in [WEB]) == {WEB};
  }

  /** The stale prune of a removed manifest deletes the object after the manifest has come back
  and been delivered. */
  lemma StalePruneUndoesDelivery()
    ensures exists states, steps, r :: UndoneByStalePrune(states, steps, "a", r)
  {
    var states := seq(19, i requires 0 <= i < 19 => StaleState(i));
    StaleSettled(0);
    StaleSettled(17);
    StaleSettled(18);
    assert "a" in states[0].apps && states[0].apps["a"].current == H1;
    hide Next, Enabled, SettledAt, Drained, StaleState, AppliesManifests, NoFailure;
    forall i | 0 <= i < |STALE_STEPS|
      ensures Enabled(states[i], STALE_STEPS[i]) && states[i + 1] == Next(states[i], STALE_STEPS[i])
      ensures NoFailure(STALE_STEPS[i]) && AppliesManifests(states[i], STALE_STEPS[i], "a")
    {
      StaleSteps(i);
      StaleReads(i);
    }
    assert UndoneByStalePrune(states, STALE_STEPS, "a", H3);
  }
}
