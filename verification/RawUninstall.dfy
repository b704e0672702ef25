/** Uninstalling a raw application: prune everything that carries its label. */
module RawUninstall {
  import opened Prelude
  import opened Git
  import opened RawCluster
  import opened RawEffects
  import opened RawReserved
  import opened RawConvergence

  ghost predicate Labelled(s: State, a: string, k: Key) {
    k in s.objects && s.objects[k].app == Some(a)
  }

  /** The prune of the uninstall itself meets no API error, except on types that hold no object
  of the application; older tasks may meet any. */
  ghost predicate RemovalStep(s: State, step: Step, a: string, mine: set<Key>) {
    && RespectsNames(s, step, a, mine)
    && (!Foreign(step) && step.app == a && Enabled(s, step) ==>
          match step
          case DiscoveryFail(_) => !s.apps[a].cleanup.all
          case SkipKind(_, kind) => s.apps[a].cleanup.selector.all ==> NoneOfKind(mine, kind)
          case TaskListFail(_, t) => TaskAt(s, a, t).selector.all ==> NoneOfKind(mine, TaskAt(s, a, t).kind)
          case TaskDeleteFail(_, t, _) => !TaskAt(s, a, t).selector.all
          case _ => true)
  }

  /** The uninstall's own prune will still reach the object. */
  ghost predicate Condemned(s: State, a: string, k: Key)
    requires a in s.apps
  {
    || s.apps[a].cleanup == Requested(true)
    || (s.apps[a].cleanup.Launching? && s.apps[a].cleanup.selector.all && k.kind in s.apps[a].cleanup.todo)
    || exists t :: HasTask(s, a, t) && TaskReaches(TaskAt(s, a, t), k) && TaskAt(s, a, t).selector.all
  }

  ghost predicate BeingRemoved(s: State, a: string, mine: set<Key>) {
    && Reserved(s, a, mine)
    && s.apps[a].removing && s.apps[a].delivery.None? && s.apps[a].current != ZERO_HASH
    && (s.apps[a].locked ==> forall k | Labelled(s, a, k) :: Condemned(s, a, k))
  }

  /** While the application is being removed, no object gets its label. */
  lemma NoNewLabel(s: State, step: Step, a: string, k: Key)
    requires a in s.apps && s.apps[a].removing && s.apps[a].delivery.None?
    requires Enabled(s, step)
    requires Labelled(Next(s, step), a, k)
    ensures Labelled(s, a, k) && Next(s, step).objects[k] == s.objects[k]
  {
    hide Next, Enabled;
    ObjectEffect(s, step, k);
    if Writes(s, step, k) {
      WriteEffect(s, step, k);
    }
  }

  lemma CondemnedKept(s: State, step: Step, a: string, mine: set<Key>, k: Key)
    requires BeingRemoved(s, a, mine) && Enabled(s, step) && RemovalStep(s, step, a, mine)
    requires Labelled(s, a, k) && Labelled(Next(s, step), a, k) && Condemned(s, a, k)
    ensures a in Next(s, step).apps && Condemned(Next(s, step), a, k)
  {
    var s' := Next(s, step);
    hide Next;
    AppEffect(s, step, a);
    CleanupEffect(s, step, a);
    if t: nat :| HasTask(s, a, t) && TaskReaches(TaskAt(s, a, t), k) && TaskAt(s, a, t).selector.all {
      TaskSurvives(s, step, a, t);
      TaskEffect(s, step, a, t);
      ObjectEffect(s, step, k);
      if step == TaskList(a, t) {
        assert k in Listed(s, a, k.kind, TaskAt(s, a, t).selector);
      }
      assert TaskReaches(TaskAt(s', a, t), k) && TaskAt(s', a, t).selector.all;
    } else if step.Launch? && step.app == a && k.kind == step.kind {
      var t := |s.apps[a].tasks|;
      TaskSurvives(s, step, a, t);
      TaskEffect(s, step, a, t);
      assert TaskReaches(TaskAt(s', a, t), k);
    }
  }

  lemma NoNewRevision(s: State, step: Step, a: string)
    requires Enabled(s, step) && a in s.apps && s.apps[a].removing
    ensures a in Next(s, step).apps && Next(s, step).apps[a].current == s.apps[a].current
  {
  }

  lemma LockCondemnsAll(s: State, step: Step, a: string)
    requires Enabled(s, step) && a in s.apps && !s.apps[a].locked
    requires a in Next(s, step).apps && Next(s, step).apps[a].locked
    ensures Next(s, step).apps[a].cleanup == Requested(true)
  {
  }

  lemma BeingRemovedKept(s: State, step: Step, a: string, mine: set<Key>)
    requires BeingRemoved(s, a, mine) && Enabled(s, step) && RemovalStep(s, step, a, mine)
    ensures BeingRemoved(Next(s, step), a, mine)
  {
    hide Next, Enabled;
    AppEffect(s, step, a);
    FlagsEffect(s, step, a);
    ProgressEffect(s, step, a);
    ReservedKept(s, step, a, mine);
    NoNewRevision(s, step, a);
    var s' := Next(s, step);
    if s'.apps[a].locked {
      if !s.apps[a].locked {
        LockCondemnsAll(s, step, a);
      }
      forall k | Labelled(s', a, k) ensures Condemned(s', a, k) {
        NoNewLabel(s, step, a, k);
        if s.apps[a].locked {
          CondemnedKept(s, step, a, mine, k);
        }
      }
    }
  }

  lemma {:induction false} BeingRemovedAlong(states: seq<State>, steps: seq<Step>, a: string, mine: set<Key>, n: nat)
    requires Run(states, steps) && n < |states| && BeingRemoved(states[0], a, mine)
    requires forall i | 0 <= i < |steps| :: RemovalStep(states[i], steps[i], a, mine)
    ensures BeingRemoved(states[n], a, mine)
  {
    hide Next, Enabled;
    if n > 0 {
      BeingRemovedAlong(states, steps, a, mine, n - 1);
      BeingRemovedKept(states[n - 1], steps[n - 1], a, mine);
    }
  }

  /** Uninstall completeness: for an application with a non-zero revision, whatever cleanups
  and prune tasks of older revisions are still under way when its Uninstall starts to wait for
  the provider, once the uninstall's prune has run and everything has drained, no object
  carries the label of the application. */
  lemma UninstallRemovesAll(states: seq<State>, steps: seq<Step>, a: string, mine: set<Key>)
    requires Run(states, steps)
    requires Reserved(states[0], a, mine) && states[0].apps[a].current != ZERO_HASH
    requires states[0].apps[a].removing && !states[0].apps[a].locked && states[0].apps[a].delivery.None?
    requires forall i | 0 <= i < |steps| :: RemovalStep(states[i], steps[i], a, mine)
    requires var last := states[|steps|]; a in last.apps && last.apps[a].locked && Drained(last, a)
    ensures forall k :: !Labelled(states[|steps|], a, k)
  {
    hide Next, Enabled;
    BeingRemovedAlong(states, steps, a, mine, |steps|);
    var last := states[|steps|];
    assert forall t | HasTask(last, a, t) :: TaskAt(last, a, t) in last.apps[a].tasks;
    forall k ensures !Labelled(last, a, k) {
      assert Labelled(last, a, k) ==> Condemned(last, a, k);
    }
  }

  /** And none comes back in any continuation, whoever else acts, errors or not. */
  lemma {:induction false} RemovedStaysRemoved(states: seq<State>, steps: seq<Step>, a: string, n: nat)
    requires Run(states, steps) && n < |states|
    requires a in states[0].apps && states[0].apps[a].removing && states[0].apps[a].delivery.None?
    requires forall k :: !Labelled(states[0], a, k)
    ensures a in states[n].apps && states[n].apps[a].removing && states[n].apps[a].delivery.None?
    ensures forall k :: !Labelled(states[n], a, k)
  {
    hide Next, Enabled;
    if n > 0 {
      RemovedStaysRemoved(states, steps, a, n - 1);
      FlagsEffect(states[n - 1], steps[n - 1], a);
      ProgressEffect(states[n - 1], steps[n - 1], a);
      forall k ensures !Labelled(states[n], a, k) {
        if Labelled(states[n], a, k) {
          NoNewLabel(states[n - 1], steps[n - 1], a, k);
        }
      }
    }
  }

  /*---------- the zero revision ----------*/

  ghost predicate IdleAtZero(s: State, a: string, mine: set<Key>) {
    && Reserved(s, a, mine)
    && s.apps[a].removing && s.apps[a].delivery.None? && s.apps[a].current == ZERO_HASH
    && !s.apps[a].cleanup.Launching?
    && forall t | HasTask(s, a, t) :: TaskAt(s, a, t).Ended?
  }

  lemma IdleAtZeroKept(s: State, step: Step, a: string, mine: set<Key>)
    requires IdleAtZero(s, a, mine) && Enabled(s, step) && Reserved(Next(s, step), a, mine)
    ensures IdleAtZero(Next(s, step), a, mine)
  {
    hide Next, Enabled;
    AppEffect(s, step, a);
    FlagsEffect(s, step, a);
    ProgressEffect(s, step, a);
    CleanupEffect(s, step, a);
    NoNewRevision(s, step, a);
    var s' := Next(s, step);
    forall t: nat | HasTask(s', a, t) ensures TaskAt(s', a, t).Ended? {
      TaskEffect(s, step, a, t);
    }
  }

  lemma IdleAtZeroSpares(s: State, step: Step, a: string, mine: set<Key>, k: Key)
    requires IdleAtZero(s, a, mine) && Enabled(s, step) && RespectsNames(s, step, a, mine)
    requires Labelled(s, a, k)
    ensures Labelled(Next(s, step), a, k) && Next(s, step).objects[k] == s.objects[k]
  {
    hide Next, Enabled;
    if Foreign(step) || step.app != a {
      OthersSpareReserved(s, step, a, mine, k);
    } else {
      ObjectEffect(s, step, k);
    }
  }

  /** An application that never reached a revision since the server started is uninstalled
  without pruning: whatever an earlier instance left in the cluster under its label stays. */
  lemma {:induction false} UninstallAtZeroRemovesNothing(states: seq<State>, steps: seq<Step>, a: string,
                                                         mine: set<Key>, n: nat)
    requires Run(states, steps) && n < |states| && IdleAtZero(states[0], a, mine)
    requires forall i | 0 <= i < |steps| :: RespectsNames(states[i], steps[i], a, mine)
    ensures IdleAtZero(states[n], a, mine)
    ensures forall k | Labelled(states[0], a, k) ::
              Labelled(states[n], a, k) && states[n].objects[k] == states[0].objects[k]
  {
    hide Next, Enabled;
    if n > 0 {
      UninstallAtZeroRemovesNothing(states, steps, a, mine, n - 1);
      var s, step := states[n - 1], steps[n - 1];
      ReservedKept(s, step, a, mine);
      IdleAtZeroKept(s, step, a, mine);
      forall k | Labelled(s, a, k)
        ensures Labelled(Next(s, step), a, k) && Next(s, step).objects[k] == s.objects[k]
      {
        IdleAtZeroSpares(s, step, a, mine, k);
      }
    }
  }

  /** From a drained application, when an error-free uninstall leaves nothing behind: exactly
  when the revision is not zero, or there was nothing to remove. */
  lemma UninstallCompleteExactlyWhen(states: seq<State>, steps: seq<Step>, a: string, mine: set<Key>)
    requires Run(states, steps)
    requires Reserved(states[0], a, mine) && Drained(states[0], a)
    requires states[0].apps[a].removing && !states[0].apps[a].locked
    requires forall i | 0 <= i < |steps| :: RemovalStep(states[i], steps[i], a, mine)
    requires var last := states[|steps|]; a in last.apps && last.apps[a].locked && Drained(last, a)
    ensures (forall k :: !Labelled(states[|steps|], a, k))
            <==> (states[0].apps[a].current != ZERO_HASH || forall k :: !Labelled(states[0], a, k))
  {
    hide Next, Enabled;
    if states[0].apps[a].current != ZERO_HASH {
      UninstallRemovesAll(states, steps, a, mine);
    } else {
      assert forall t | HasTask(states[0], a, t) :: TaskAt(states[0], a, t) in states[0].apps[a].tasks;
      UninstallAtZeroRemovesNothing(states, steps, a, mine, |steps|);
      if forall k :: !Labelled(states[0], a, k) {
        RemovedStaysRemoved(states, steps, a, |steps|);
      }
    }
  }
}
