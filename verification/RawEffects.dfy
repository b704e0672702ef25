/** What a single step can change, one aspect at a time.  Proofs about steps use these lemmas
instead of the definition of `Next`. */
module RawEffects {
  import opened Prelude
  import opened Git
  import opened RawCluster

  ghost predicate SameObject(s: State, s': State, k: Key) {
    (k in s.objects <==> k in s'.objects) && (k in s.objects ==> s'.objects[k] == s.objects[k])
  }

  /** The step is a create or an accepted update of `k` by a goroutine. */
  ghost predicate Writes(s: State, step: Step, k: Key) {
    match step
    case WorkerCreate(a, w) =>
      HasWorker(s, a, w) && WorkerAt(s, a, w).Creating? && WorkerKey(s, a, w) == k && k !in s.objects
    case WorkerUpdate(a, w) =>
      && HasWorker(s, a, w) && WorkerAt(s, a, w).Updating? && WorkerKey(s, a, w) == k
      && k in s.objects && s.objects[k].version == WorkerAt(s, a, w).version
    case _ => false
  }

  lemma WriteEffect(s: State, step: Step, k: Key)
    requires Enabled(s, step) && Writes(s, step, k)
    ensures HasWorker(s, step.app, step.worker) && WorkerKey(s, step.app, step.worker) == k
    ensures k in Next(s, step).objects
    ensures Next(s, step).objects[k]
            == Object(Some(step.app), Some(s.apps[step.app].delivery.value.revision),
                      WorkerAt(s, step.app, step.worker).res.content, s.nextVersion)
    ensures Next(s, step).nextVersion == s.nextVersion + 1
  {
  }

  lemma ObjectEffect(s: State, step: Step, k: Key)
    requires Enabled(s, step)
    ensures || SameObject(s, Next(s, step), k)
            || Writes(s, step, k)
            || (step.TaskDelete? && step.key == k && k !in Next(s, step).objects)
            || (Foreign(step) && step.key == k)
    ensures step.TaskDelete? ==> HasTask(s, step.app, step.task) && TaskAt(s, step.app, step.task).Deleting?
                                 && step.key in TaskAt(s, step.app, step.task).names
    ensures step.ForeignPut? ==>
              step.key in Next(s, step).objects
              && Next(s, step).objects[step.key] == Object(None, None, step.content, s.nextVersion)
              && Next(s, step).nextVersion == s.nextVersion + 1
    ensures step.ForeignDelete? ==> step.key !in Next(s, step).objects
    ensures step.TaskDelete? ==> step.key !in Next(s, step).objects
    ensures Next(s, step).nextVersion >= s.nextVersion
    ensures Next(s, step).kinds == s.kinds
  {
  }

  /** The fields of an application that no step changes, and who may change the others. */
  lemma AppEffect(s: State, step: Step, a: string)
    requires Enabled(s, step) && a in s.apps
    ensures a in Next(s, step).apps
    ensures Next(s, step).apps[a].namespace == s.apps[a].namespace
    ensures Next(s, step).apps[a].sparsePath == s.apps[a].sparsePath
    ensures Foreign(step) || step.app != a ==> Next(s, step).apps[a] == s.apps[a]
    ensures Next(s, step).apps.Keys == s.apps.Keys
  {
  }

  lemma CurrentEffect(s: State, step: Step, a: string)
    requires Enabled(s, step) && a in s.apps
    ensures a in Next(s, step).apps
    ensures !step.SetRevision? ==> Next(s, step).apps[a].current == s.apps[a].current
  {
  }

  lemma RemovalEffect(s: State, step: Step, a: string)
    requires Enabled(s, step) && a in s.apps
    ensures a in Next(s, step).apps
    ensures s.apps[a].removing ==> Next(s, step).apps[a].removing
    ensures !step.BeginUninstall? ==> Next(s, step).apps[a].removing == s.apps[a].removing
    ensures !step.LockForUninstall? ==> Next(s, step).apps[a].locked == s.apps[a].locked
  {
  }

  lemma FlagsEffect(s: State, step: Step, a: string)
    requires Enabled(s, step) && a in s.apps
    ensures a in Next(s, step).apps
    ensures !step.SetRevision? ==> Next(s, step).apps[a].current == s.apps[a].current
    ensures s.apps[a].removing ==> Next(s, step).apps[a].removing
    ensures !step.BeginUninstall? ==> Next(s, step).apps[a].removing == s.apps[a].removing
    ensures !step.LockForUninstall? ==> Next(s, step).apps[a].locked == s.apps[a].locked
  {
    hide Next, Enabled;
    CurrentEffect(s, step, a);
    RemovalEffect(s, step, a);
  }

  lemma ProgressEffect(s: State, step: Step, a: string)
    requires Enabled(s, step) && a in s.apps
    ensures a in Next(s, step).apps
    ensures s.apps[a].removing && s.apps[a].delivery.None? ==> Next(s, step).apps[a].delivery.None?
    ensures Next(s, step).apps[a].delivered
            == s.apps[a].delivered + if step == FinishDelivery(a) then 1 else 0
  {
  }

  /** A goroutine after the step was there before, with the same manifest, unless its
  Delivery has just started; only its own calls change its state. */
  lemma WorkerEffect(s: State, step: Step, a: string, w: nat)
    requires Enabled(s, step) && HasWorker(Next(s, step), a, w)
    requires !(step.StartDelivery? && step.app == a)
    ensures HasWorker(s, a, w)
    ensures WorkerAt(Next(s, step), a, w).res == WorkerAt(s, a, w).res
    ensures WorkerKey(Next(s, step), a, w) == WorkerKey(s, a, w)
    ensures Next(s, step).apps[a].delivery.value.revision == s.apps[a].delivery.value.revision
    ensures step !in {WorkerGet(a, w), WorkerCreate(a, w), WorkerUpdate(a, w), WorkerFail(a, w)} ==>
              WorkerAt(Next(s, step), a, w) == WorkerAt(s, a, w)
  {
    hide Next, Enabled;
    if Foreign(step) || step.app != a {
      AppsOnlyOwn(s, step, a);
    } else {
      OwnWorkerEffect(s, step, a, w);
    }
  }

  /** Nobody else adds or changes the application. */
  lemma AppsOnlyOwn(s: State, step: Step, a: string)
    requires Enabled(s, step) && a in Next(s, step).apps && (Foreign(step) || step.app != a)
    ensures a in s.apps && Next(s, step).apps[a] == s.apps[a]
  {
  }

  lemma OwnWorkerEffect(s: State, step: Step, a: string, w: nat)
    requires Enabled(s, step) && HasWorker(Next(s, step), a, w)
    requires !step.StartDelivery? && !Foreign(step) && step.app == a
    ensures HasWorker(s, a, w)
    ensures WorkerAt(Next(s, step), a, w).res == WorkerAt(s, a, w).res
    ensures WorkerKey(Next(s, step), a, w) == WorkerKey(s, a, w)
    ensures Next(s, step).apps[a].delivery.value.revision == s.apps[a].delivery.value.revision
    ensures step !in {WorkerGet(a, w), WorkerCreate(a, w), WorkerUpdate(a, w), WorkerFail(a, w)} ==>
              WorkerAt(Next(s, step), a, w) == WorkerAt(s, a, w)
  {
  }

  lemma StartEffect(s: State, step: Step, a: string, w: nat)
    requires Enabled(s, step) && step.StartDelivery? && step.app == a
    requires HasWorker(Next(s, step), a, w)
    ensures w < |step.resources| && step.resources[w] in step.resources
    ensures WorkerAt(Next(s, step), a, w) == Getting(step.resources[w])
    ensures a in s.apps && WorkerKey(Next(s, step), a, w) == KeyOf(s.apps[a], step.resources[w])
    ensures Next(s, step).apps[a].delivery.value.revision == s.apps[a].current
  {
  }

  lemma WorkerStarted(s: State, step: Step, a: string, w: nat)
    requires Enabled(s, step) && step.StartDelivery? && step.app == a && w < |step.resources|
    ensures HasWorker(Next(s, step), a, w) && WorkerAt(Next(s, step), a, w).res == step.resources[w]
  {
  }

  lemma WorkerSurvives(s: State, step: Step, a: string, w: nat)
    requires Enabled(s, step) && HasWorker(s, a, w)
    requires a in Next(s, step).apps && Next(s, step).apps[a].delivery.Some?
    ensures HasWorker(Next(s, step), a, w) && WorkerAt(Next(s, step), a, w).res == WorkerAt(s, a, w).res
  {
    hide Next, Enabled;
    if Foreign(step) || step.app != a {
      AppEffect(s, step, a);
    } else {
      OwnWorkerSurvives(s, step, a, w);
    }
  }

  lemma OwnWorkerSurvives(s: State, step: Step, a: string, w: nat)
    requires Enabled(s, step) && HasWorker(s, a, w) && !Foreign(step) && step.app == a
    requires a in Next(s, step).apps && Next(s, step).apps[a].delivery.Some?
    ensures HasWorker(Next(s, step), a, w) && WorkerAt(Next(s, step), a, w).res == WorkerAt(s, a, w).res
  {
  }

  lemma RevisionOfDelivery(s: State, step: Step, a: string)
    requires Enabled(s, step) && a in s.apps
    requires a in Next(s, step).apps && Next(s, step).apps[a].delivery.Some?
    ensures Next(s, step).apps[a].delivery.value.revision
            == if s.apps[a].delivery.Some? then s.apps[a].delivery.value.revision else s.apps[a].current
    ensures !(step.StartDelivery? && step.app == a) ==> s.apps[a].delivery.Some?
  {
  }

  /** What a goroutine's own call makes of it. */
  lemma CallEffect(s: State, step: Step, a: string, w: nat)
    requires Enabled(s, step)
    requires step in {WorkerGet(a, w), WorkerCreate(a, w), WorkerUpdate(a, w), WorkerFail(a, w)}
    ensures HasWorker(s, a, w) && HasWorker(Next(s, step), a, w)
    ensures step.WorkerGet? ==>
              && WorkerAt(s, a, w).Getting?
              && WorkerAt(Next(s, step), a, w)
                 == AfterGet(s, WorkerKey(s, a, w), WorkerAt(s, a, w).res, s.apps[a].delivery.value.revision)
              && Next(s, step).objects == s.objects
    ensures !step.WorkerGet? ==> WorkerAt(Next(s, step), a, w) == Finished(WorkerAt(s, a, w).res)
    ensures step.WorkerCreate? ==>
              WorkerAt(s, a, w).Creating? && (WorkerKey(s, a, w) !in s.objects ==> Writes(s, step, WorkerKey(s, a, w)))
    ensures step.WorkerUpdate? ==>
              var k := WorkerKey(s, a, w);
              && WorkerAt(s, a, w).Updating?
              && (k in s.objects && s.objects[k].version == WorkerAt(s, a, w).version ==> Writes(s, step, k))
  {
  }

  /** A prune task after the step was there before, or has just been launched; only its own
  steps change it. */
  lemma TaskEffect(s: State, step: Step, a: string, t: nat)
    requires Enabled(s, step) && HasTask(Next(s, step), a, t)
    ensures !HasTask(s, a, t) ==>
              && step.Launch? && step.app == a && t == |s.apps[a].tasks|
              && s.apps[a].cleanup.Launching?
              && TaskAt(Next(s, step), a, t) == Listing(step.kind, s.apps[a].cleanup.selector)
    ensures step == TaskList(a, t) ==>
              && HasTask(s, a, t) && TaskAt(s, a, t).Listing?
              && TaskAt(Next(s, step), a, t)
                 == Deleting(TaskAt(s, a, t).kind, TaskAt(s, a, t).selector,
                             Listed(s, a, TaskAt(s, a, t).kind, TaskAt(s, a, t).selector))
    ensures HasTask(s, a, t) && TaskAt(Next(s, step), a, t) != TaskAt(s, a, t) ==>
              || step == TaskList(a, t)
              || (&& (step.TaskDelete? || step.TaskDeleteFail?) && step.app == a && step.task == t
                  && TaskAt(s, a, t).Deleting?
                  && TaskAt(Next(s, step), a, t)
                     == TaskAt(s, a, t).(names := TaskAt(s, a, t).names - {step.key}))
              || (&& step in {TaskListFail(a, t), TaskEnd(a, t)}
                  && TaskAt(Next(s, step), a, t) == Ended
                  && (step.TaskListFail? ==> TaskAt(s, a, t).Listing?)
                  && (step.TaskEnd? ==> TaskAt(s, a, t).Deleting? && TaskAt(s, a, t).names == {}))
  {
  }

  /** Tasks are never dropped, and a launched task is there. */
  lemma TaskSurvives(s: State, step: Step, a: string, t: nat)
    requires Enabled(s, step)
    ensures HasTask(s, a, t) ==> HasTask(Next(s, step), a, t)
    ensures step.Launch? && step.app == a && a in s.apps && t == |s.apps[a].tasks| ==> HasTask(Next(s, step), a, t)
  {
  }

  /** How the holder of the provider mutex changes. */
  lemma CleanupEffect(s: State, step: Step, a: string)
    requires Enabled(s, step) && a in s.apps && a in Next(s, step).apps
    ensures var c, c' := s.apps[a].cleanup, Next(s, step).apps[a].cleanup;
            || c' == c
            || (step == FinishDelivery(a) && c.Free? && c' == Requested(false))
            || (step == LockForUninstall(a) && c.Free? && c' == Requested(true) && s.apps[a].removing)
            || (&& step == ReadRevision(a) && c.Requested?
                && c' == if s.apps[a].current == ZERO_HASH then Free
                         else Launching(Selector(c.all, s.apps[a].current), s.kinds))
            || (step == DiscoveryFail(a) && c.Requested? && c' == Free)
            || (&& (step.Launch? || step.SkipKind?) && step.app == a && c.Launching?
                && c' == c.(todo := c.todo - multiset{step.kind}))
            || (step == UnlockCleanup(a) && c.Launching? && c.todo == multiset{} && c' == Free)
    ensures step == FinishDelivery(a) && s.apps[a].cleanup.Free? ==> Next(s, step).apps[a].cleanup == Requested(false)
    ensures step == LockForUninstall(a) ==> Next(s, step).apps[a].cleanup == Requested(true)
  {
  }
}
