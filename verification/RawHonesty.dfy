/** The revision label as proof of content. */
module RawHonesty {
  import opened Prelude
  import opened Git
  import opened RawCluster
  import opened RawEffects

  function ResourceAt(s: State, k: Key): Resource
    requires k in s.objects
  {
    Resource(k.kind, k.name, s.objects[k].content)
  }

  /** Every object labelled (a, r) holds what the application's manifests say at commit r. */
  ghost predicate HonestLabels(s: State, a: string)
    requires a in s.apps
  {
    forall k <- s.objects | s.objects[k].app == Some(a) && s.objects[k].revision.Some? ::
      ResourceAt(s, k) in ManifestsAt(s.objects[k].revision.value, s.apps[a].sparsePath)
  }

  /** The Delivery in progress applies manifests of the revision it labels them with. */
  ghost predicate HonestDelivery(s: State, a: string)
    requires a in s.apps
  {
    forall w | HasWorker(s, a, w) ::
      WorkerAt(s, a, w).res in ManifestsAt(s.apps[a].delivery.value.revision, s.apps[a].sparsePath)
  }

  ghost predicate Honest(s: State, a: string) {
    a in s.apps && HonestLabels(s, a) && HonestDelivery(s, a)
  }

  /** If the step starts a Delivery of `a`, its manifests were read at the current revision. */
  ghost predicate ReadsAtRevision(s: State, step: Step, a: string) {
    step.StartDelivery? && step.app == a && a in s.apps ==>
      forall res <- step.resources :: res in ManifestsAt(s.apps[a].current, s.apps[a].sparsePath)
  }

  lemma HonestDeliveryKept(s: State, step: Step, a: string)
    requires Honest(s, a) && Enabled(s, step) && ReadsAtRevision(s, step, a)
    ensures a in Next(s, step).apps && HonestDelivery(Next(s, step), a)
  {
    hide Next, Enabled;
    var s' := Next(s, step);
    AppEffect(s, step, a);
    forall w: nat | HasWorker(s', a, w)
      ensures WorkerAt(s', a, w).res in ManifestsAt(s'.apps[a].delivery.value.revision, s'.apps[a].sparsePath)
    {
      if step.StartDelivery? && step.app == a {
        StartEffect(s, step, a, w);
      } else {
        WorkerEffect(s, step, a, w);
      }
    }
  }

  lemma HonestLabelsKept(s: State, step: Step, a: string)
    requires Honest(s, a) && Enabled(s, step)
    ensures a in Next(s, step).apps && HonestLabels(Next(s, step), a)
  {
    hide Next, Enabled;
    var s' := Next(s, step);
    AppEffect(s, step, a);
    forall k <- s'.objects | s'.objects[k].app == Some(a) && s'.objects[k].revision.Some?
      ensures ResourceAt(s', k) in ManifestsAt(s'.objects[k].revision.value, s'.apps[a].sparsePath)
    {
      ObjectEffect(s, step, k);
      if Writes(s, step, k) {
        WriteEffect(s, step, k);
        assert ResourceAt(s', k) == WorkerAt(s, a, step.worker).res;
      }
    }
  }

  /** Label honesty over all interleavings: whatever other applications, prune tasks, API
  failures and foreign clients do, a run whose Deliveries of `a` read their manifests at the
  current revision never shows an object of `a` under a revision whose manifest it is not. */
  lemma {:induction false} LabelsStayHonest(states: seq<State>, steps: seq<Step>, a: string, n: nat)
    requires Run(states, steps) && Honest(states[0], a) && n < |states|
    requires forall i | 0 <= i < |steps| :: ReadsAtRevision(states[i], steps[i], a)
    ensures Honest(states[n], a)
    ensures states[n].apps[a].sparsePath == states[0].apps[a].sparsePath
  {
    hide Next, Enabled;
    if n > 0 {
      LabelsStayHonest(states, steps, a, n - 1);
      AppEffect(states[n - 1], steps[n - 1], a);
      HonestDeliveryKept(states[n - 1], steps[n - 1], a);
      HonestLabelsKept(states[n - 1], steps[n - 1], a);
    }
  }
}
