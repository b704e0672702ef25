/** The finalizer protocol between the Application custom resources, the operator's reconcile
worker and the server's registry.

The API server keeps every version of a resource.  The operator reads from a cache that may
lag behind but never goes back, and writes with the version it read, so a write to anything
but the newest version is refused.  Between any two calls of the worker, users may create,
edit and delete, the operator may crash, and the server may restart or lose a repository. */
module Finalizer {
  datatype Resource = Resource(finalizer: bool, deleting: bool, url: string, spec: string)

  datatype Version = Gone | Present(cr: Resource)

  type History = h: seq<Version> | |h| > 0 witness [Gone]

  /** A registered application. */
  datatype Registration = Registration(url: string, name: string)

  /** Where the worker stands, with the version it has read. */
  datatype Worker =
    | Idle
    | WantFinalizer(name: string, version: nat, cr: Resource)
    | WantSync(name: string, cr: Resource)
    | WantUnregister(name: string, version: nat, cr: Resource)
    | WantStrip(name: string, version: nat, cr: Resource)

  /** `left` collects the registrations that an edit of the URL turned away from. */
  datatype State = State(
    history: map<string, History>,
    seen: map<string, nat>,
    worker: Worker,
    registry: set<Registration>,
    left: set<Registration>)

  /** A call takes effect and is answered, is refused, or takes effect and the answer is lost. */
  datatype Reply = Answered | Refused | Lost

  datatype Step =
    | UserCreate(name: string, finalizer: bool, url: string, spec: string)
    | UserEdit(name: string, finalizer: bool, url: string, spec: string)
    | UserDelete(name: string)
    | Refresh(name: string, version: nat)
    | StartReconcile(name: string)
    | Call(reply: Reply)
    | OperatorCrash
    | ServerRestart
    | DropRepository(url: string)

  function HistoryOf(s: State, name: string): History {
    if name in s.history then s.history[name] else [Gone]
  }

  function SeenOf(s: State, name: string): nat {
    if name in s.seen then s.seen[name] else 0
  }

  function Last(h: History): Version {
    h[|h| - 1]
  }

  function Put(s: State, name: string, v: Version): State {
    s.(history := s.history[name := HistoryOf(s, name) + [v]])
  }

  /** Deletion marks a resource that has the finalizer, and removes one that has not. */
  function Deleted(cr: Resource): Version {
    if cr.finalizer then Present(cr.(deleting := true)) else Gone
  }

  /** A guarded write. */
  function Write(s: State, name: string, version: nat, v: Version, reply: Reply): (s': State)
    ensures s' == s || (version == |HistoryOf(s, name)| - 1 && s' == Put(s, name, v))
  {
    if version == |HistoryOf(s, name)| - 1 && !reply.Refused? then Put(s, name, v) else s
  }

  predicate Accepted(s: State, name: string, version: nat, reply: Reply) {
    version == |HistoryOf(s, name)| - 1 && reply.Answered?
  }

  /** The first decision of Reconcile, from the cached version. */
  function Decide(s: State, name: string, version: nat): Worker
    requires version < |HistoryOf(s, name)|
  {
    match HistoryOf(s, name)[version]
    case Gone => Idle
    case Present(cr) =>
      if !cr.deleting then
        if cr.finalizer then WantSync(name, cr) else WantFinalizer(name, version, cr)
      else if cr.finalizer then WantUnregister(name, version, cr) else Idle
  }

  /** The worker's next call. */
  function Calls(s: State, reply: Reply): State {
    match s.worker
    case Idle => s
    case WantFinalizer(n, i, cr) =>
      var finalized := cr.(finalizer := true);
      Write(s, n, i, Present(finalized), reply)
      .(worker := if Accepted(s, n, i, reply) then WantSync(n, finalized) else Idle)
    case WantSync(n, cr) =>
      s.(registry := if reply.Refused? then s.registry else s.registry + {Registration(cr.url, n)}, worker := Idle)
    case WantUnregister(n, i, cr) =>
      s.(registry := if reply.Refused? then s.registry else s.registry - {Registration(cr.url, n)},
         worker := if reply.Answered? then WantStrip(n, i, cr) else Idle)
    case WantStrip(n, i, cr) =>
      Write(s, n, i, Gone, reply).(worker := Idle)
  }

  predicate Enabled(s: State, step: Step) {
    match step
    case UserCreate(n, _, _, _) => Last(HistoryOf(s, n)).Gone?
    case UserEdit(n, finalizer, _, _) =>
      var v := Last(HistoryOf(s, n));
      // finalizers may be added, unless the deletion has begun; only the operator strips its own
      v.Present? && (v.cr.finalizer ==> finalizer) && (v.cr.deleting ==> finalizer == v.cr.finalizer)
    case UserDelete(n) => Last(HistoryOf(s, n)).Present?
    case Refresh(n, i) => SeenOf(s, n) <= i < |HistoryOf(s, n)|
    case StartReconcile(n) => s.worker.Idle? && SeenOf(s, n) < |HistoryOf(s, n)|
    case Call(_) => !s.worker.Idle?
    case _ => true
  }

  function Next(s: State, step: Step): State
    requires Enabled(s, step)
  {
    match step
    case UserCreate(n, finalizer, url, spec) => Put(s, n, Present(Resource(finalizer, false, url, spec)))
    case UserEdit(n, finalizer, url, spec) =>
      var cr := Last(HistoryOf(s, n)).cr;
      var s' := Put(s, n, Present(Resource(finalizer, cr.deleting, url, spec)));
      if url == cr.url then s' else s'.(left := s.left + {Registration(cr.url, n)})
    case UserDelete(n) => Put(s, n, Deleted(Last(HistoryOf(s, n)).cr))
    case Refresh(n, i) => s.(seen := s.seen[n := i])
    case StartReconcile(n) => s.(worker := Decide(s, n, SeenOf(s, n)))
    case Call(reply) => Calls(s, reply)
    case OperatorCrash => s.(worker := Idle)
    case ServerRestart => s.(registry := {})
    case DropRepository(url) => s.(registry := set r | r in s.registry && r.url != url)
  }

  const INITIAL := State(map[], map[], Idle, {}, {})

  ghost predicate Run(states: seq<State>, steps: seq<Step>) {
    && |states| == |steps| + 1
    && forall i | 0 <= i < |steps| :: Enabled(states[i], steps[i]) && states[i + 1] == Next(states[i], steps[i])
  }

  /*---------- invariant ----------*/

  predicate Finalized(v: Version) {
    v.Present? && v.cr.finalizer
  }

  /** The newest version holds the finalizer and names the URL. */
  predicate Live(s: State, r: Registration) {
    Finalized(Last(HistoryOf(s, r.name))) && Last(HistoryOf(s, r.name)).cr.url == r.url
  }

  predicate LiveOrLeft(s: State, r: Registration) {
    Live(s, r) || r in s.left
  }

  /** From a version that the worker may still sync from, the finalizer has stayed. */
  predicate Anchored(s: State, name: string, i: nat)
    requires i < |HistoryOf(s, name)|
  {
    var h := HistoryOf(s, name);
    Finalized(h[i]) && !h[i].cr.deleting ==>
      Finalized(Last(h)) && LiveOrLeft(s, Registration(h[i].cr.url, name))
  }

  ghost predicate CacheAnchored(s: State, name: string) {
    && SeenOf(s, name) < |HistoryOf(s, name)|
    && forall i: nat | SeenOf(s, name) <= i < |HistoryOf(s, name)| :: Anchored(s, name, i)
  }

  predicate HasRead(s: State, name: string, version: nat, cr: Resource) {
    version <= SeenOf(s, name) && version < |HistoryOf(s, name)| && HistoryOf(s, name)[version] == Present(cr)
  }

  predicate WorkerFits(s: State) {
    match s.worker
    case Idle => true
    case WantFinalizer(n, i, cr) => HasRead(s, n, i, cr) && !cr.finalizer && !cr.deleting
    case WantSync(n, cr) => Finalized(Last(HistoryOf(s, n))) && LiveOrLeft(s, Registration(cr.url, n))
    case WantUnregister(n, i, cr) => HasRead(s, n, i, cr) && cr.finalizer && cr.deleting
    case WantStrip(n, i, cr) =>
      HasRead(s, n, i, cr) && cr.finalizer && cr.deleting && Registration(cr.url, n) !in s.registry
  }

  ghost predicate NoOrphans(s: State) {
    forall r <- s.registry :: LiveOrLeft(s, r)
  }

  ghost predicate Invariant(s: State) {
    NoOrphans(s) && WorkerFits(s) && forall name :: CacheAnchored(s, name)
  }

  /** A new version of a resource that keeps the finalizer if there was one, and whose former
  URL is the same or counted as left. */
  lemma PutKeeps(s: State, s': State, name: string, v: Version)
    requires Invariant(s) && s.left <= s'.left && s' == Put(s, name, v).(left := s'.left)
    requires Finalized(Last(HistoryOf(s, name))) ==>
               Finalized(v) && (v.cr.url == Last(HistoryOf(s, name)).cr.url
                                || Registration(Last(HistoryOf(s, name)).cr.url, name) in s'.left)
    ensures Invariant(s')
  {
    forall r | LiveOrLeft(s, r) ensures LiveOrLeft(s', r) { }
    forall n ensures CacheAnchored(s', n) {
      assert CacheAnchored(s, n);
      forall i: nat | SeenOf(s', n) <= i < |HistoryOf(s', n)| ensures Anchored(s', n, i) {
        if i < |HistoryOf(s, n)| {
          assert Anchored(s, n, i);
        }
      }
    }
  }

  lemma UserStepKept(s: State, step: Step)
    requires Invariant(s) && Enabled(s, step)
    requires step.UserCreate? || step.UserEdit? || step.UserDelete?
    ensures Invariant(Next(s, step))
  {
    var s' := Next(s, step);
    PutKeeps(s, s', step.name, Last(HistoryOf(s', step.name)));
  }

  /** A cache that moves on keeps its anchors. */
  lemma AnchorsCarryOver(s: State, s': State)
    requires forall m :: CacheAnchored(s, m)
    requires s'.history == s.history && s'.left == s.left
    requires forall m :: SeenOf(s', m) == SeenOf(s, m) || SeenOf(s, m) <= SeenOf(s', m) < |HistoryOf(s, m)|
    ensures forall m :: CacheAnchored(s', m)
  {
    forall m ensures CacheAnchored(s', m) {
      assert CacheAnchored(s, m);
      forall i: nat | SeenOf(s', m) <= i < |HistoryOf(s', m)| ensures Anchored(s', m, i) {
        assert Anchored(s, m, i);
      }
    }
  }

  /** The worker strips the finalizer only from the version it read, which the cache has
  reached, so nothing it may still sync from is older. */
  lemma StripKept(s: State, n: string, i: nat, cr: Resource, reply: Reply)
    requires Invariant(s) && s.worker == WantStrip(n, i, cr)
    ensures Invariant(Calls(s, reply))
  {
    var s' := Calls(s, reply);
    forall m ensures CacheAnchored(s', m) {
      assert CacheAnchored(s, m);
      forall j: nat | SeenOf(s', m) <= j < |HistoryOf(s', m)| ensures Anchored(s', m, j) {
        if j < |HistoryOf(s, m)| {
          assert Anchored(s, m, j);
        }
      }
    }
    forall r <- s'.registry ensures LiveOrLeft(s', r) {
      assert LiveOrLeft(s, r);
    }
  }

  lemma FinalizerKept(s: State, n: string, i: nat, cr: Resource, reply: Reply)
    requires Invariant(s) && s.worker == WantFinalizer(n, i, cr)
    ensures Invariant(Calls(s, reply))
  {
    var s' := Calls(s, reply);
    var idle := s.(worker := Idle);
    WorkerChange(s, idle);
    var finalized := Present(cr.(finalizer := true));
    if s'.history != s.history {
      PutKeeps(idle, Put(idle, n, finalized), n, finalized);
      WorkerChange(Put(idle, n, finalized), s');
    }
  }

  lemma CallKept(s: State, reply: Reply)
    requires Invariant(s)
    ensures Invariant(Calls(s, reply))
  {
    var s' := Calls(s, reply);
    match s.worker
    case Idle =>
    case WantFinalizer(n, i, cr) => FinalizerKept(s, n, i, cr, reply);
    case WantSync(n, cr) =>
      AnchorsCarryOver(s, s');
    case WantUnregister(n, i, cr) =>
      AnchorsCarryOver(s, s');
    case WantStrip(n, i, cr) => StripKept(s, n, i, cr, reply);
  }

  lemma WorkerChange(s: State, s': State)
    requires Invariant(s) && s' == s.(worker := s'.worker) && WorkerFits(s')
    ensures Invariant(s')
  {
    AnchorsCarryOver(s, s');
  }

  lemma OtherStepKept(s: State, step: Step)
    requires Invariant(s) && Enabled(s, step)
    requires !step.UserCreate? && !step.UserEdit? && !step.UserDelete? && !step.Call?
    ensures Invariant(Next(s, step))
  {
    var s' := Next(s, step);
    AnchorsCarryOver(s, s');
    if step.StartReconcile? {
      assert CacheAnchored(s, step.name);
      assert Anchored(s, step.name, SeenOf(s, step.name));
    }
  }

  lemma InvariantKept(s: State, step: Step)
    requires Invariant(s) && Enabled(s, step)
    ensures Invariant(Next(s, step))
  {
    hide Invariant;
    if step.Call? {
      CallKept(s, step.reply);
    } else if step.UserCreate? || step.UserEdit? || step.UserDelete? {
      UserStepKept(s, step);
    } else {
      OtherStepKept(s, step);
    }
  }

  lemma InitiallyKept()
    ensures Invariant(INITIAL)
  {
  }

  lemma {:induction false} InvariantAlong(states: seq<State>, steps: seq<Step>, n: nat)
    requires Run(states, steps) && states[0] == INITIAL && n < |states|
    ensures Invariant(states[n])
  {
    InitiallyKept();
    hide Next, Enabled, Invariant, INITIAL;
    if n > 0 {
      InvariantAlong(states, steps, n - 1);
      InvariantKept(states[n - 1], steps[n - 1]);
    }
  }

  /*---------- theorems ----------*/

  /** The URL of the resource was never changed while it existed. */
  predicate UrlKept(steps: seq<Step>, states: seq<State>, name: string)
    requires |states| == |steps| + 1
  {
    forall i | 0 <= i < |steps| && steps[i].UserEdit? && steps[i].name == name ::
      var v := Last(HistoryOf(states[i], name));
      v.Present? && steps[i].url == v.cr.url
  }

  lemma {:induction false} NothingLeft(states: seq<State>, steps: seq<Step>, n: nat, r: Registration)
    requires Run(states, steps) && states[0] == INITIAL && n < |states| && UrlKept(steps, states, r.name)
    ensures r !in states[n].left
  {
    if n > 0 {
      NothingLeft(states, steps, n - 1, r);
      assert Enabled(states[n - 1], steps[n - 1]) && states[n] == Next(states[n - 1], steps[n - 1]);
    }
  }

  /** No orphaned registration: in every run of users, operator crashes, lost answers, server
  restarts and stale caches, a registered application has a live resource that names its URL
  and holds the finalizer, provided the URL of that resource was never edited.  In
  particular, when the resource is gone nothing of that name is registered. */
  lemma NoOrphanedRegistration(states: seq<State>, steps: seq<Step>, n: nat, r: Registration)
    requires Run(states, steps) && states[0] == INITIAL && n < |states| && UrlKept(steps, states, r.name)
    requires r in states[n].registry
    ensures Live(states[n], r)
  {
    InvariantAlong(states, steps, n);
    NothingLeft(states, steps, n, r);
  }

  /** Whatever was edited, an orphan can only be a registration that an edit turned away from. */
  lemma OrphansWereLeft(states: seq<State>, steps: seq<Step>, n: nat, r: Registration)
    requires Run(states, steps) && states[0] == INITIAL && n < |states|
    requires r in states[n].registry && !Live(states[n], r)
    ensures r in states[n].left
  {
    InvariantAlong(states, steps, n);
  }

  /*---------- users own the specification ----------*/

  /** What a user wrote last for a resource. */
  datatype Written = Nothing | Wrote(url: string, spec: string)

  function LastWritten(steps: seq<Step>, name: string): Written {
    if steps == [] then Nothing
    else
      match steps[|steps| - 1]
      case UserCreate(n, _, url, spec) => if n == name then Wrote(url, spec) else LastWritten(steps[..|steps| - 1], name)
      case UserEdit(n, _, url, spec) => if n == name then Wrote(url, spec) else LastWritten(steps[..|steps| - 1], name)
      case _ => LastWritten(steps[..|steps| - 1], name)
  }

  /** Whether a deletion has been asked for since the resource was created. */
  function Asked(steps: seq<Step>, name: string): bool {
    if steps == [] then false
    else
      match steps[|steps| - 1]
      case UserCreate(n, _, _, _) => n != name && Asked(steps[..|steps| - 1], name)
      case UserDelete(n) => n == name || Asked(steps[..|steps| - 1], name)
      case _ => Asked(steps[..|steps| - 1], name)
  }

  /** Nothing that users have said has changed: the finalizer may have been added, or a resource
  let go whose deletion had begun. */
  predicate SpecKept(v: Version, v': Version) {
    match v
    case Gone => v'.Gone?
    case Present(cr) =>
      if v'.Gone? then cr.finalizer && cr.deleting
      else v' == v || (!cr.finalizer && v' == Present(Resource(true, cr.deleting, cr.url, cr.spec)))
  }

  predicate UsersStep(step: Step, name: string) {
    (step.UserCreate? || step.UserEdit? || step.UserDelete?) && step.name == name
  }

  /** The operator and the server keep the specification in every step. */
  lemma OthersKeepSpec(s: State, step: Step, name: string)
    requires Invariant(s) && Enabled(s, step) && !UsersStep(step, name)
    ensures SpecKept(Last(HistoryOf(s, name)), Last(HistoryOf(Next(s, step), name)))
  {
  }

  /** The newest version says what the users wrote last, and is marked as being deleted exactly
  when they have asked for it. */
  ghost predicate SaysWhatUsersSaid(s: State, steps: seq<Step>, name: string) {
    var v := Last(HistoryOf(s, name));
    v.Present? ==> LastWritten(steps, name) == Wrote(v.cr.url, v.cr.spec) && (v.cr.deleting <==> Asked(steps, name))
  }

  lemma SaidThroughStep(s: State, steps: seq<Step>, step: Step, name: string)
    requires Invariant(s) && Enabled(s, step) && SaysWhatUsersSaid(s, steps, name)
    ensures SaysWhatUsersSaid(Next(s, step), steps + [step], name)
  {
    assert (steps + [step])[..|steps|] == steps;
    if !UsersStep(step, name) {
      OthersKeepSpec(s, step, name);
      hide Next, Enabled, Invariant;
    } else {
      hide Calls, Invariant;
    }
  }

  lemma NothingSaid(name: string)
    ensures SaysWhatUsersSaid(INITIAL, [], name)
  {
  }

  /** Users own the specification: in every run the operator changes neither what the newest
  version of a resource says nor whether it is to be deleted. */
  lemma {:induction false} SpecIsTheUsers(states: seq<State>, steps: seq<Step>, n: nat, name: string)
    requires Run(states, steps) && states[0] == INITIAL && n < |states|
    ensures SaysWhatUsersSaid(states[n], steps[..n], name)
  {
    NothingSaid(name);
    hide Next, Enabled, INITIAL, SaysWhatUsersSaid;
    if n == 0 {
      assert steps[..n] == [];
    } else {
      SpecIsTheUsers(states, steps, n - 1, name);
      InvariantAlong(states, steps, n - 1);
      SaidThroughStep(states[n - 1], steps[..n - 1], steps[n - 1], name);
      assert steps[..n - 1] + [steps[n - 1]] == steps[..n];
    }
  }

  /** Reconcile goes on to its next call only when the last one was answered, with the resource
  as it was read (and now with the finalizer); every other answer ends it, and so does the end
  of the sequence. */
  lemma CallsInOrder(s: State, reply: Reply)
    ensures var w, w' := s.worker, Calls(s, reply).worker;
            && (w'.WantSync? <==> w.WantFinalizer? && Accepted(s, w.name, w.version, reply))
            && (w'.WantSync? ==> w'.name == w.name && w'.cr == Resource(true, w.cr.deleting, w.cr.url, w.cr.spec))
            && (w'.WantStrip? <==> w.WantUnregister? && reply.Answered?)
            && (w'.WantStrip? ==> w' == WantStrip(w.name, w.version, w.cr))
            && (!w'.WantSync? && !w'.WantStrip? ==> w'.Idle?)
  {
  }

  /** A refused call has no effect, a call whose answer is lost the same effect as one that is
  answered. */
  lemma RefusedAndLost(s: State)
    ensures Calls(s, Refused).(worker := Idle) == s.(worker := Idle)
    ensures Calls(s, Lost).(worker := Idle) == Calls(s, Answered).(worker := Idle)
  {
  }

  /*---------- one uninterrupted reconcile ----------*/

  function Try(s: State, step: Step): State {
    if Enabled(s, step) then Next(s, step) else s
  }

  function Uninterrupted(s: State, name: string, first: Reply, second: Reply): State {
    Try(Try(Try(s, StartReconcile(name)), Call(first)), Call(second))
  }

  predicate CacheCurrent(s: State, name: string) {
    SeenOf(s, name) == |HistoryOf(s, name)| - 1
  }

  /** Deletion: whatever crashed or was lost before, the first reconcile that reads the newest
  version and is answered unregisters the application and lets the resource go. */
  lemma DeletionCompletes(s: State, name: string)
    requires Invariant(s) && s.worker.Idle? && CacheCurrent(s, name)
    requires Finalized(Last(HistoryOf(s, name))) && Last(HistoryOf(s, name)).cr.deleting
    ensures var s' := Uninterrupted(s, name, Answered, Answered);
            && Last(HistoryOf(s', name)).Gone?
            && s'.registry == s.registry - {Registration(Last(HistoryOf(s, name)).cr.url, name)}
            && forall r <- s'.registry :: r.name == name ==> r in s'.left
  {
    var s1 := Try(s, StartReconcile(name));
    var s2 := Try(s1, Call(Answered));
    InvariantKept(s, StartReconcile(name));
    InvariantKept(s1, Call(Answered));
    InvariantKept(s2, Call(Answered));
  }

  /** When that deletion leaves nothing of the name behind: exactly when everything registered
  under the name is registered at the URL that the resource has now. */
  lemma DeletionCompleteExactlyWhen(s: State, name: string)
    requires Invariant(s) && s.worker.Idle? && CacheCurrent(s, name)
    requires Finalized(Last(HistoryOf(s, name))) && Last(HistoryOf(s, name)).cr.deleting
    ensures (forall r <- Uninterrupted(s, name, Answered, Answered).registry :: r.name != name) <==>
            (forall r <- s.registry | r.name == name :: r.url == Last(HistoryOf(s, name)).cr.url)
  {
    DeletionCompletes(s, name);
    hide Uninterrupted, Invariant;
    var s' := Uninterrupted(s, name, Answered, Answered);
    assert forall r <- s.registry :: r in s'.registry || r == Registration(Last(HistoryOf(s, name)).cr.url, name);
  }

  /** Registration: the first answered reconcile of a live resource leaves it with the
  finalizer, otherwise as it was, and registered. */
  lemma SyncCompletes(s: State, name: string)
    requires Invariant(s) && s.worker.Idle? && CacheCurrent(s, name)
    requires Last(HistoryOf(s, name)).Present? && !Last(HistoryOf(s, name)).cr.deleting
    ensures var s' := Uninterrupted(s, name, Answered, Answered);
            var cr := Last(HistoryOf(s, name)).cr;
            var r := Registration(cr.url, name);
            && s'.registry == s.registry + {r} && Live(s', r) && s'.worker.Idle?
            && Last(HistoryOf(s', name)) == Present(Resource(true, false, cr.url, cr.spec))
  {
  }

  /** The periodic resync of a live registered application changes neither side, whatever
  happens to its calls. */
  lemma ResyncChangesNothing(s: State, name: string, first: Reply, second: Reply)
    requires s.worker.Idle? && CacheCurrent(s, name)
    requires Finalized(Last(HistoryOf(s, name))) && !Last(HistoryOf(s, name)).cr.deleting
    requires Registration(Last(HistoryOf(s, name)).cr.url, name) in s.registry
    ensures Uninterrupted(s, name, first, second) == s
  {
    assert s.registry + {Registration(Last(HistoryOf(s, name)).cr.url, name)} == s.registry;
  }

  /*---------- an edited URL ----------*/

  const CREATED := Resource(false, false, "old", "")
  const FINALIZED := Resource(true, false, "old", "")
  const EDITED := Resource(true, false, "new", "")
  const DELETING := Resource(true, true, "new", "")

  const ORPHAN_STEPS: seq<Step> := [
    UserCreate("app", false, "old", ""), Refresh("app", 1), StartReconcile("app"), Call(Answered), Call(Answered),
    UserEdit("app", true, "new", ""), UserDelete("app"), Refresh("app", 4), StartReconcile("app"),
    Call(Answered), Call(Answered)]

  function OrphanHistory(i: nat): History {
    if i == 0 then [Gone]
    else if i < 4 then [Gone, Present(CREATED)]
    else if i < 6 then [Gone, Present(CREATED), Present(FINALIZED)]
    else if i == 6 then [Gone, Present(CREATED), Present(FINALIZED), Present(EDITED)]
    else if i < 11 then [Gone, Present(CREATED), Present(FINALIZED), Present(EDITED), Present(DELETING)]
    else [Gone, Present(CREATED), Present(FINALIZED), Present(EDITED), Present(DELETING), Gone]
  }

  function OrphanWorker(i: nat): Worker {
    if i == 3 then WantFinalizer("app", 1, CREATED)
    else if i == 4 then WantSync("app", FINALIZED)
    else if i == 9 then WantUnregister("app", 4, DELETING)
    else if i == 10 then WantStrip("app", 4, DELETING)
    else Idle
  }

  function OrphanState(i: nat): State {
    var stray := {Registration("old", "app")};
    State(
      if i == 0 then map[] else map["app" := OrphanHistory(i)],
      if i < 2 then map[] else map["app" := if i < 8 then 1 else 4],
      OrphanWorker(i),
      if i < 5 then {} else stray,
      if i < 6 then {} else stray)
  }

  /** The step leads to that state, compared part by part. */
  ghost predicate Leads(s: State, step: Step, s': State) {
    && Enabled(s, step)
    && var next := Next(s, step);
    && s'.history == next.history && s'.seen == next.seen && s'.worker == next.worker
    && s'.registry == next.registry && s'.left == next.left
  }

  lemma VersionAppended(i: nat)
    requires i < |ORPHAN_STEPS| && |OrphanHistory(i + 1)| > |OrphanHistory(i)|
    ensures OrphanHistory(i + 1) == OrphanHistory(i) + [Last(OrphanHistory(i + 1))]
  {
  }

  lemma UserSteps(i: nat)
    requires i in {0, 5, 6}
    ensures Leads(OrphanState(i), ORPHAN_STEPS[i], OrphanState(i + 1))
  {
    VersionAppended(i);
    hide Calls;
  }

  lemma OperatorSteps(i: nat)
    requires i in {1, 2, 7, 8}
    ensures Leads(OrphanState(i), ORPHAN_STEPS[i], OrphanState(i + 1))
  {
    hide Calls;
  }

  lemma CallSteps(i: nat)
    requires i in {3, 4, 9, 10}
    ensures Leads(OrphanState(i), ORPHAN_STEPS[i], OrphanState(i + 1))
  {
    if i in {3, 10} {
      VersionAppended(i);
    }
  }

  ghost predicate EndsOrphaned(states: seq<State>, steps: seq<Step>, r: Registration) {
    && Run(states, steps) && states[0] == INITIAL
    && r in states[|steps|].registry && Last(HistoryOf(states[|steps|], r.name)).Gone?
  }

  /** With an edited URL and no failure at all, the resource goes away and the application
  under the old URL stays registered. */
  lemma EditedUrlOrphans()
    ensures exists states, steps, r :: EndsOrphaned(states, steps, r)
  {
    var states := seq(12, i requires 0 <= i < 12 => OrphanState(i));
    hide Next, Enabled;
    forall i | 0 <= i < |ORPHAN_STEPS|
      ensures Enabled(states[i], ORPHAN_STEPS[i]) && states[i + 1] == Next(states[i], ORPHAN_STEPS[i])
    {
      if i in {0, 5, 6} { UserSteps(i); } else if i in {1, 2, 7, 8} { OperatorSteps(i); } else { CallSteps(i); }
      assert Leads(states[i], ORPHAN_STEPS[i], states[i + 1]);
    }
    assert EndsOrphaned(states, ORPHAN_STEPS, Registration("old", "app"));
  }
}
