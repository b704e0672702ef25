/** The data plane of raw delivery as a transition system.

One goroutine per manifest applies it with separate API calls (Get, then Create or a
version-guarded Update); an asynchronous cleanup launches one prune task per resource type,
which lists by label and then deletes by name, in separate calls.  Every API call is one
atomic step, and steps of all goroutines of all applications, of prune tasks (also those that
outlive the cleanup that launched them) and of foreign clients interleave freely. */
module RawCluster {
  import opened Prelude
  import opened Git

  datatype Key = Key(namespace: string, kind: Kind, name: string)

  /** A cluster object: its `dummy.cd/app` and `dummy.cd/revision` labels, its content, and the
  resource version that every write renews. */
  datatype Object = Object(app: Option<string>, revision: Option<Hash>, content: Content, version: nat)

  /** A `Resource.Delivery` goroutine between two API calls. */
  datatype Worker =
    | Getting(res: Resource)
    | Creating(res: Resource)
    | Updating(res: Resource, version: nat)
    | Finished(res: Resource)

  /** A `RawProvider.Delivery` in progress; `revision` is the label it writes. */
  datatype Delivery = Delivery(revision: Hash, workers: seq<Worker>)

  /** The label selector of a cleanup: every object of the application, or those whose
  revision label differs from `revision` (a missing label differs as well). */
  datatype Selector = Selector(all: bool, revision: Hash)

  datatype Task =
    | Listing(kind: Kind, selector: Selector)
    | Deleting(kind: Kind, selector: Selector, names: set<Key>)
    | Ended

  /** The holder of the provider mutex. */
  datatype Cleanup =
    | Free
    | Requested(all: bool)                             // locked, revision not read yet
    | Launching(selector: Selector, todo: multiset<Kind>)   // types whose task is still to be launched

  /** One application with a raw provider.  `delivered` counts completed Deliveries;
  `removing` is set once Uninstall owns the application, `locked` once it owns the provider. */
  datatype App = App(
    sparsePath: Path,
    namespace: string,
    current: Hash,
    delivery: Option<Delivery>,
    cleanup: Cleanup,
    tasks: seq<Task>,
    delivered: nat,
    removing: bool,
    locked: bool)

  /** `kinds` holds every resource type the cluster serves, once for each group version. */
  datatype State = State(
    kinds: multiset<Kind>,
    objects: map<Key, Object>,
    nextVersion: nat,
    apps: map<string, App>)

  datatype Step =
    | SetRevision(app: string, revision: Hash)
    | StartDelivery(app: string, resources: seq<Resource>)
    | WorkerGet(app: string, worker: nat)
    | WorkerCreate(app: string, worker: nat)
    | WorkerUpdate(app: string, worker: nat)
    | WorkerFail(app: string, worker: nat)
    | FinishDelivery(app: string)
    | BeginUninstall(app: string)
    | LockForUninstall(app: string)
    | ReadRevision(app: string)
    | DiscoveryFail(app: string)
    | Launch(app: string, kind: Kind)
    | SkipKind(app: string, kind: Kind)
    | UnlockCleanup(app: string)
    | TaskList(app: string, task: nat)
    | TaskListFail(app: string, task: nat)
    | TaskDelete(app: string, task: nat, key: Key)
    | TaskDeleteFail(app: string, task: nat, key: Key)
    | TaskEnd(app: string, task: nat)
    | ForeignPut(key: Key, content: Content)
    | ForeignDelete(key: Key)

  function KeyOf(app: App, res: Resource): Key {
    Key(app.namespace, res.kind, res.name)
  }

  predicate Selected(o: Object, name: string, selector: Selector) {
    o.app == Some(name) && (selector.all || o.revision != Some(selector.revision))
  }

  predicate Unlabelled(o: Object) {
    o.app == None && o.revision == None
  }

  /** Names some prune task is still going to delete. */
  predicate OnDeleteList(s: State, k: Key) {
    exists a <- s.apps :: exists t <- s.apps[a].tasks :: t.Deleting? && k in t.names
  }

  predicate HasWorker(s: State, a: string, w: nat) {
    a in s.apps && s.apps[a].delivery.Some? && w < |s.apps[a].delivery.value.workers|
  }

  function WorkerAt(s: State, a: string, w: nat): Worker
    requires HasWorker(s, a, w)
  {
    s.apps[a].delivery.value.workers[w]
  }

  predicate HasTask(s: State, a: string, t: nat) {
    a in s.apps && t < |s.apps[a].tasks|
  }

  function TaskAt(s: State, a: string, t: nat): Task
    requires HasTask(s, a, t)
  {
    s.apps[a].tasks[t]
  }

  predicate Enabled(s: State, step: Step) {
    match step
    case SetRevision(a, r) =>
      a in s.apps && s.apps[a].delivery.None? && !s.apps[a].removing && r != ZERO_HASH
    case StartDelivery(a, resources) =>
      a in s.apps && s.apps[a].delivery.None? && !s.apps[a].removing && s.apps[a].current != ZERO_HASH
    case WorkerGet(a, w) => HasWorker(s, a, w) && WorkerAt(s, a, w).Getting?
    case WorkerCreate(a, w) => HasWorker(s, a, w) && WorkerAt(s, a, w).Creating?
    case WorkerUpdate(a, w) => HasWorker(s, a, w) && WorkerAt(s, a, w).Updating?
    case WorkerFail(a, w) => HasWorker(s, a, w) && !WorkerAt(s, a, w).Finished?
    case FinishDelivery(a) =>
      && a in s.apps && s.apps[a].delivery.Some?
      && forall w <- s.apps[a].delivery.value.workers :: w.Finished?
    case BeginUninstall(a) => a in s.apps && s.apps[a].delivery.None? && !s.apps[a].removing
    case LockForUninstall(a) =>
      a in s.apps && s.apps[a].removing && !s.apps[a].locked && s.apps[a].cleanup.Free?
    case ReadRevision(a) => a in s.apps && s.apps[a].cleanup.Requested?
    case DiscoveryFail(a) =>
      a in s.apps && s.apps[a].cleanup.Requested? && s.apps[a].current != ZERO_HASH
    case Launch(a, kind) => a in s.apps && s.apps[a].cleanup.Launching? && kind in s.apps[a].cleanup.todo
    case SkipKind(a, kind) => a in s.apps && s.apps[a].cleanup.Launching? && kind in s.apps[a].cleanup.todo
    case UnlockCleanup(a) => a in s.apps && s.apps[a].cleanup.Launching? && s.apps[a].cleanup.todo == multiset{}
    case TaskList(a, t) => HasTask(s, a, t) && TaskAt(s, a, t).Listing?
    case TaskListFail(a, t) => HasTask(s, a, t) && TaskAt(s, a, t).Listing?
    case TaskDelete(a, t, k) => HasTask(s, a, t) && TaskAt(s, a, t).Deleting? && k in TaskAt(s, a, t).names
    case TaskDeleteFail(a, t, k) => HasTask(s, a, t) && TaskAt(s, a, t).Deleting? && k in TaskAt(s, a, t).names
    case TaskEnd(a, t) => HasTask(s, a, t) && TaskAt(s, a, t).Deleting? && TaskAt(s, a, t).names == {}
    case ForeignPut(k, content) => k in s.objects ==> Unlabelled(s.objects[k])
    case ForeignDelete(k) => true
  }

  function WithApp(s: State, a: string, app: App): State {
    s.(apps := s.apps[a := app])
  }

  function WithWorker(s: State, a: string, w: nat, worker: Worker): State
    requires HasWorker(s, a, w)
  {
    var d := s.apps[a].delivery.value;
    WithApp(s, a, s.apps[a].(delivery := Some(d.(workers := d.workers[w := worker]))))
  }

  function WithTask(s: State, a: string, t: nat, task: Task): State
    requires HasTask(s, a, t)
  {
    WithApp(s, a, s.apps[a].(tasks := s.apps[a].tasks[t := task]))
  }

  /** A write through the API: the object gets a fresh resource version. */
  function Write(s: State, k: Key, app: Option<string>, revision: Option<Hash>, content: Content): State {
    s.(objects := s.objects[k := Object(app, revision, content, s.nextVersion)], nextVersion := s.nextVersion + 1)
  }

  /** The goroutines of a Delivery, before any of them has called the API. */
  function WorkersFor(resources: seq<Resource>): seq<Worker> {
    seq(|resources|, i requires 0 <= i < |resources| => Getting(resources[i]))
  }

  /** What the goroutine does with the answer of its Get. */
  function AfterGet(s: State, k: Key, res: Resource, revision: Hash): Worker {
    if k !in s.objects then Creating(res)
    else if s.objects[k].revision.None? then Finished(res)
    else if s.objects[k].revision.value == revision then Finished(res)
    else Updating(res, s.objects[k].version)
  }

  /** The objects a prune task's List call returns. */
  function Listed(s: State, a: string, kind: Kind, selector: Selector): set<Key>
    requires a in s.apps
  {
    set k | k in s.objects && k.namespace == s.apps[a].namespace && k.kind == kind
            && Selected(s.objects[k], a, selector)
  }

  function Next(s: State, step: Step): State
    requires Enabled(s, step)
  {
    match step
    case SetRevision(a, r) => WithApp(s, a, s.apps[a].(current := r))
    case StartDelivery(a, resources) =>
      WithApp(s, a, s.apps[a].(delivery := Some(Delivery(s.apps[a].current, WorkersFor(resources)))))
    case WorkerGet(a, w) =>
      var res := WorkerAt(s, a, w).res;
      WithWorker(s, a, w, AfterGet(s, KeyOf(s.apps[a], res), res, s.apps[a].delivery.value.revision))
    case WorkerCreate(a, w) =>
      var res := WorkerAt(s, a, w).res;
      var k := KeyOf(s.apps[a], res);
      var s' := if k in s.objects then s
                else Write(s, k, Some(a), Some(s.apps[a].delivery.value.revision), res.content);
      WithWorker(s', a, w, Finished(res))
    case WorkerUpdate(a, w) =>
      var res := WorkerAt(s, a, w).res;
      var k := KeyOf(s.apps[a], res);
      var s' := if k in s.objects && s.objects[k].version == WorkerAt(s, a, w).version
                then Write(s, k, Some(a), Some(s.apps[a].delivery.value.revision), res.content)
                else s;
      WithWorker(s', a, w, Finished(res))
    case WorkerFail(a, w) => WithWorker(s, a, w, Finished(WorkerAt(s, a, w).res))
    case FinishDelivery(a) =>
      var app := s.apps[a];
      WithApp(s, a, app.(delivery := None, delivered := app.delivered + 1,
                         cleanup := if app.cleanup.Free? then Requested(false) else app.cleanup))
    case BeginUninstall(a) => WithApp(s, a, s.apps[a].(removing := true))
    case LockForUninstall(a) => WithApp(s, a, s.apps[a].(locked := true, cleanup := Requested(true)))
    case ReadRevision(a) =>
      var app := s.apps[a];
      WithApp(s, a, app.(cleanup := if app.current == ZERO_HASH then Free
                                    else Launching(Selector(app.cleanup.all, app.current), s.kinds)))
    case DiscoveryFail(a) => WithApp(s, a, s.apps[a].(cleanup := Free))
    case Launch(a, kind) =>
      var app := s.apps[a];
      WithApp(s, a, app.(cleanup := app.cleanup.(todo := app.cleanup.todo - multiset{kind}),
                         tasks := app.tasks + [Listing(kind, app.cleanup.selector)]))
    case SkipKind(a, kind) =>
      var app := s.apps[a];
      WithApp(s, a, app.(cleanup := app.cleanup.(todo := app.cleanup.todo - multiset{kind})))
    case UnlockCleanup(a) => WithApp(s, a, s.apps[a].(cleanup := Free))
    case TaskList(a, t) =>
      var task := TaskAt(s, a, t);
      WithTask(s, a, t, Deleting(task.kind, task.selector, Listed(s, a, task.kind, task.selector)))
    case TaskListFail(a, t) => WithTask(s, a, t, Ended)
    case TaskDelete(a, t, k) =>
      var task := TaskAt(s, a, t);
      WithTask(s.(objects := s.objects - {k}), a, t, task.(names := task.names - {k}))
    case TaskDeleteFail(a, t, k) =>
      var task := TaskAt(s, a, t);
      WithTask(s, a, t, task.(names := task.names - {k}))
    case TaskEnd(a, t) => WithTask(s, a, t, Ended)
    case ForeignPut(k, content) => Write(s, k, None, None, content)
    case ForeignDelete(k) => s.(objects := s.objects - {k})
  }

  /** A run: consecutive states linked by enabled steps. */
  ghost predicate Run(states: seq<State>, steps: seq<Step>) {
    && |states| == |steps| + 1
    && forall i | 0 <= i < |steps| :: Enabled(states[i], steps[i]) && states[i + 1] == Next(states[i], steps[i])
  }

  ghost predicate Foreign(step: Step) {
    step.ForeignPut? || step.ForeignDelete?
  }

  /** The key a worker writes. */
  function WorkerKey(s: State, a: string, w: nat): Key
    requires HasWorker(s, a, w)
  {
    KeyOf(s.apps[a], WorkerAt(s, a, w).res)
  }
}
