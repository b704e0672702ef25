/** Names that belong to one application: nobody else writes or lists them. */
module RawReserved {
  import opened Prelude
  import opened RawCluster
  import opened RawEffects

  /** `mine` holds the names of application `a`: everything labelled with `a` is there, and
  nothing else is. */
  ghost predicate ObjectsReserved(s: State, a: string, mine: set<Key>) {
    && (forall k <- s.objects | s.objects[k].app == Some(a) :: k in mine)
    && (forall k <- mine | k in s.objects :: s.objects[k].app == Some(a) && s.objects[k].revision.Some?)
  }

  ghost predicate WorkersReserved(s: State, a: string, mine: set<Key>) {
    forall b, w | HasWorker(s, b, w) :: WorkerKey(s, b, w) in mine <==> b == a
  }

  ghost predicate TasksReserved(s: State, a: string, mine: set<Key>) {
    forall b, t | HasTask(s, b, t) && TaskAt(s, b, t).Deleting? && b != a :: TaskAt(s, b, t).names !! mine
  }

  ghost predicate Reserved(s: State, a: string, mine: set<Key>) {
    && a in s.apps
    && (forall k <- mine :: k.namespace == s.apps[a].namespace && k.kind in s.kinds)
    && ObjectsReserved(s, a, mine)
    && WorkersReserved(s, a, mine)
    && TasksReserved(s, a, mine)
  }

  /** The step does not put a name of `a` into other hands: manifests of `a` use names in
  `mine`, those of other applications do not, and foreign clients leave them alone. */
  ghost predicate RespectsNames(s: State, step: Step, a: string, mine: set<Key>) {
    && (step.StartDelivery? && step.app in s.apps ==>
          forall res <- step.resources :: KeyOf(s.apps[step.app], res) in mine <==> step.app == a)
    && (Foreign(step) ==> step.key !in mine)
  }

  lemma WorkersReservedKept(s: State, step: Step, a: string, mine: set<Key>)
    requires Reserved(s, a, mine) && Enabled(s, step) && RespectsNames(s, step, a, mine)
    ensures WorkersReserved(Next(s, step), a, mine)
  {
    hide Next, Enabled;
    var s' := Next(s, step);
    forall b, w: nat | HasWorker(s', b, w) ensures WorkerKey(s', b, w) in mine <==> b == a {
      if step.StartDelivery? && step.app == b {
        StartEffect(s, step, b, w);
      } else {
        WorkerEffect(s, step, b, w);
      }
    }
  }

  lemma TasksReservedKept(s: State, step: Step, a: string, mine: set<Key>)
    requires Reserved(s, a, mine) && Enabled(s, step) && RespectsNames(s, step, a, mine)
    ensures TasksReserved(Next(s, step), a, mine)
  {
    hide Next, Enabled;
    var s' := Next(s, step);
    forall b, t: nat | HasTask(s', b, t) && TaskAt(s', b, t).Deleting? && b != a
      ensures TaskAt(s', b, t).names !! mine
    {
      TaskEffect(s, step, b, t);
    }
  }

  lemma ObjectsReservedKept(s: State, step: Step, a: string, mine: set<Key>)
    requires Reserved(s, a, mine) && Enabled(s, step) && RespectsNames(s, step, a, mine)
    ensures ObjectsReserved(Next(s, step), a, mine)
  {
    hide Next, Enabled;
    var s' := Next(s, step);
    forall k <- s'.objects
      ensures s'.objects[k].app == Some(a) ==> k in mine
      ensures k in mine ==> s'.objects[k].app == Some(a) && s'.objects[k].revision.Some?
    {
      ObjectEffect(s, step, k);
      if Writes(s, step, k) {
        WriteEffect(s, step, k);
      }
    }
  }

  lemma ReservedKept(s: State, step: Step, a: string, mine: set<Key>)
    requires Reserved(s, a, mine) && Enabled(s, step) && RespectsNames(s, step, a, mine)
    ensures Reserved(Next(s, step), a, mine)
  {
    hide Next, Enabled;
    AppEffect(s, step, a);
    forall k <- mine ensures k.kind in Next(s, step).kinds {
      ObjectEffect(s, step, k);
    }
    WorkersReservedKept(s, step, a, mine);
    TasksReservedKept(s, step, a, mine);
    ObjectsReservedKept(s, step, a, mine);
  }

  /** Only the application itself changes an object under one of its names. */
  lemma OthersSpareReserved(s: State, step: Step, a: string, mine: set<Key>, k: Key)
    requires Reserved(s, a, mine) && Enabled(s, step) && RespectsNames(s, step, a, mine)
    requires Foreign(step) || step.app != a
    requires k in mine
    ensures k in Next(s, step).objects <==> k in s.objects
    ensures k in s.objects ==> Next(s, step).objects[k] == s.objects[k]
    ensures Next(s, step).apps[a] == s.apps[a]
  {
    hide Next, Enabled;
    AppEffect(s, step, a);
    ObjectEffect(s, step, k);
    if Writes(s, step, k) {
      WriteEffect(s, step, k);
    }
  }
}
