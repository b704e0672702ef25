/** The Helm provider: which Helm action a Delivery takes, what the release is afterwards, and
whether a failed Delivery is ever made good. */
module Helm {
  import opened Prelude
  import opened Git

  type Values = map<string, string>

  /** A loaded chart; the provider writes the revision into its description (the zero revision
  stands for any description of the chart's own). */
  datatype Chart = Chart(description: Hash, defaults: Values)

  datatype Status = Deployed | FailedRelease | Pending

  datatype Release = Release(chart: Chart, config: Values, status: Status)

  /** The newest record of the release, and the newest one that was deployed successfully. */
  datatype Store = Store(current: Option<Release>, good: Option<Release>)

  const EMPTY := Store(None, None)

  /** How a Helm action ends: it works, fails before recording anything, fails after recording
  the release (and an atomic action's own clean-up may work), or the process dies in it. */
  datatype Action = Works | FailsEarly | FailsLate(cleanupWorks: bool) | Dies

  datatype Options = Options(checkValuesEqual: bool, reInstallRelease: bool, atomic: bool)

  /** What one Delivery learns from outside. */
  datatype Environment = Environment(
    listFails: bool,
    updateFails: bool,              // the dependency update before loading
    defaults: Option<Values>,       // the chart's own values, when it loads
    values: Option<Values>,         // the merged value files, when they load
    valuesAgain: Option<Values>,    // and when they are read once more
    uninstall: Action,
    main: Action)                   // the install or upgrade

  datatype Outcome = AlreadyExists | ValuesEqual | Delivered | Failed

  datatype Provider = Provider(chart: Option<Chart>, chartValues: Values, store: Store)

  /*---------- Helm actions ----------*/

  function Install(store: Store, chart: Chart, config: Values, atomic: bool, action: Action): (Store, bool) {
    var release := Release(chart, config, Deployed);
    if store.current.Some? then (store, false)
    else match action
      case Works => (Store(Some(release), Some(release)), true)
      case FailsEarly => (store, false)
      case FailsLate(cleanupWorks) =>
        (if atomic && cleanupWorks then EMPTY else Store(Some(release.(status := FailedRelease)), None), false)
      case Dies => (Store(Some(release.(status := Pending)), None), false)
  }

  /** Helm refuses to upgrade a release that another action has left pending. */
  function Upgrade(store: Store, chart: Chart, config: Values, atomic: bool, action: Action): (Store, bool)
    requires store.current.Some?
  {
    var release := Release(chart, config, Deployed);
    if store.current.value.status == Pending then (store, false)
    else match action
      case Works => (Store(Some(release), Some(release)), true)
      case FailsEarly => (store, false)
      case FailsLate(cleanupWorks) =>
        if atomic && cleanupWorks && store.good.Some? then (Store(store.good, store.good), false)
        else (store.(current := Some(release.(status := FailedRelease))), false)
      case Dies => (store.(current := Some(release.(status := Pending))), false)
  }

  function Uninstall(store: Store, action: Action): (Store, bool) {
    if action.Works? then (EMPTY, true) else (store, false)
  }

  /*---------- Delivery ----------*/

  /** Loading leaves behind what it got before it failed. */
  function Load(p: Provider, revision: Hash, env: Environment): (Provider, bool) {
    if env.updateFails then (p, false)
    else match env.defaults
      case None => (p.(chart := None), false)
      case Some(defaults) =>
        match env.values
        case None => (p.(chart := Some(Chart(ZERO_HASH, defaults)), chartValues := map[]), false)
        case Some(values) => (p.(chart := Some(Chart(revision, defaults)), chartValues := values), true)
  }

  function Act(p: Provider, chart: Chart, options: Options, env: Environment): (Provider, Outcome) {
    if p.store.current.None? then
      var (store, ok) := Install(p.store, chart, p.chartValues, options.atomic, env.main);
      (p.(store := store), if ok then Delivered else Failed)
    else if options.reInstallRelease then
      var (store, ok) := Uninstall(p.store, env.uninstall);
      if !ok then (p.(store := store), Failed)
      else
        var (store, ok) := Install(store, chart, p.chartValues, options.atomic, env.main);
        (p.(store := store), if ok then Delivered else Failed)
    else
      var (store, ok) := Upgrade(p.store, chart, p.chartValues, options.atomic, env.main);
      (p.(store := store), if ok then Delivered else Failed)
  }

  function Deliver(p: Provider, options: Options, revision: Hash, env: Environment): (Provider, Outcome) {
    if env.listFails then (p, Failed)
    else
      var (p, loaded) := Load(p, revision, env);
      if !loaded then (p, Failed)
      else if p.store.current.None? then Act(p, p.chart.value, options, env)
      else match env.valuesAgain
        case None => (p.(chartValues := map[]), Failed)
        case Some(values) =>
          var p := p.(chartValues := values);
          var current := p.store.current.value;
          if current.chart.description == revision then (p, AlreadyExists)
          else if options.checkValuesEqual && current.chart.defaults == values then (p, ValuesEqual)
          else Act(p, p.chart.value, options, env)
  }

  class HelmProvider {
    const options: Options
    var chart: Option<Chart>
    var chartValues: Values
    var store: Store

    constructor (options: Options, chart: Chart, store: Store)
      ensures this.options == options && View() == Provider(Some(chart), map[], store)
    {
      this.options := options;
      this.chart := Some(chart);
      this.chartValues := map[];
      this.store := store;
    }

    function View(): Provider
      reads this
    {
      Provider(chart, chartValues, store)
    }

    method LoadHelmChartWithValues(revision: Hash, env: Environment) returns (ok: bool)
      modifies `chart, `chartValues
      ensures (View(), ok) == Load(old(View()), revision, env)
      ensures ok ==> chart.Some?
    {
      if env.updateFails {
        return false;
      }
      if env.defaults.None? {
        chart := None;
        return false;
      }
      chart := Some(Chart(ZERO_HASH, env.defaults.value));
      if env.values.None? {
        chartValues := map[];
        return false;
      }
      chartValues := env.values.value;
      chart := Some(chart.value.(description := revision));
      return true;
    }

    method Delivery(revision: Hash, env: Environment) returns (outcome: Outcome)
      modifies this
      ensures (View(), outcome) == Deliver(old(View()), options, revision, env)
    {
      if env.listFails {
        return Failed;
      }
      var currentRelease := store.current;
      var ok := LoadHelmChartWithValues(revision, env);
      if !ok {
        return Failed;
      }
      if currentRelease.None? {
        var (installed, done) := Install(store, chart.value, chartValues, options.atomic, env.main);
        store := installed;
        return if done then Delivered else Failed;
      }
      if env.valuesAgain.None? {
        chartValues := map[];
        return Failed;
      }
      chartValues := env.valuesAgain.value;
      if currentRelease.value.chart.description == revision {
        return AlreadyExists;
      }
      if options.checkValuesEqual {
        if currentRelease.value.chart.defaults == chartValues {
          return ValuesEqual;
        }
      }
      if options.reInstallRelease {
        var (emptied, gone) := Uninstall(store, env.uninstall);
        store := emptied;
        if !gone {
          return Failed;
        }
        var (installed, done) := Install(store, chart.value, chartValues, options.atomic, env.main);
        store := installed;
        ok := done;
      } else {
        var (upgraded, done) := Upgrade(store, chart.value, chartValues, options.atomic, env.main);
        store := upgraded;
        ok := done;
      }
      return if ok then Delivered else Failed;
    }
  }

  /*---------- one Delivery ----------*/

  /** Loading succeeds exactly when all three of its calls do, and only then does the provider
  hold a chart with the stamp of the revision (if it held none before), together with the
  values of this load; the release is not touched. */
  lemma LoadStampsExactlyWhen(p: Provider, revision: Hash, env: Environment)
    requires revision != ZERO_HASH
    requires p.chart.Some? ==> p.chart.value.description != revision
    ensures var (p', loaded) := Load(p, revision, env);
            && (loaded <==> !env.updateFails && env.defaults.Some? && env.values.Some?)
            && (loaded <==> p'.chart.Some? && p'.chart.value.description == revision)
            && (loaded ==> p'.chart.value.defaults == env.defaults.value && p'.chartValues == env.values.value)
            && p'.store == p.store
  {
  }

  /** No call fails, and the value files do not change while they are read. */
  predicate ErrorFree(env: Environment) {
    && !env.listFails && !env.updateFails && env.defaults.Some? && env.values.Some?
    && env.valuesAgain == env.values && env.uninstall.Works? && env.main.Works?
  }

  predicate Stamped(store: Store, revision: Hash) {
    store.current.Some? && store.current.value.chart.description == revision
  }

  predicate SkipsForValues(store: Store, options: Options, revision: Hash, values: Values) {
    options.checkValuesEqual && store.current.Some? && !Stamped(store, revision)
    && store.current.value.chart.defaults == values
  }

  /** Another action was left pending, and the options would upgrade over it. */
  predicate Blocked(store: Store, options: Options, revision: Hash) {
    store.current.Some? && store.current.value.status == Pending && !Stamped(store, revision)
    && !options.reInstallRelease
  }

  /** What an error-free Delivery is for: afterwards the release carries the revision's stamp,
  exactly unless it was skipped because the values compared equal, or is blocked by an action
  left pending; and in those cases nothing has changed. */
  lemma ErrorFreeEndsStamped(p: Provider, options: Options, revision: Hash, env: Environment)
    requires ErrorFree(env)
    ensures var (p', outcome) := Deliver(p, options, revision, env);
            var exempt :=
              SkipsForValues(p.store, options, revision, env.values.value) || Blocked(p.store, options, revision);
            && (Stamped(p'.store, revision) <==> !exempt)
            && (exempt ==> p'.store == p.store)
            && (outcome == ValuesEqual <==> SkipsForValues(p.store, options, revision, env.values.value))
            && (outcome == Failed <==>
                  Blocked(p.store, options, revision) && !SkipsForValues(p.store, options, revision, env.values.value))
  {
  }

  /** When it does act, the new release is the chart and the values of this Delivery. */
  lemma DeliveredMeansInstalled(p: Provider, options: Options, revision: Hash, env: Environment)
    ensures var (p', outcome) := Deliver(p, options, revision, env);
            outcome == Delivered ==>
              var values := if p.store.current.None? then env.values.value else env.valuesAgain.value;
              p'.store.current == Some(Release(Chart(revision, env.defaults.value), values, Deployed))
  {
  }

  /*---------- many Deliveries ----------*/

  function DeliverAll(p: Provider, options: Options, revision: Hash, envs: seq<Environment>): Provider {
    if envs == [] then p
    else Deliver(DeliverAll(p, options, revision, envs[..|envs| - 1]), options, revision, envs[|envs| - 1]).0
  }

  /** A release that carries the revision's stamp is never touched again at that revision,
  whatever the options and whatever fails; deployed or not. */
  lemma {:induction false} StampedIsFinal(p: Provider, options: Options, revision: Hash, envs: seq<Environment>)
    requires Stamped(p.store, revision)
    ensures DeliverAll(p, options, revision, envs).store == p.store
  {
    if envs != [] {
      StampedIsFinal(p, options, revision, envs[..|envs| - 1]);
    }
  }

  lemma {:induction false} EqualValuesStayEqual(p: Provider, options: Options, revision: Hash, envs: seq<Environment>,
                                                values: Values)
    requires SkipsForValues(p.store, options, revision, values)
    requires forall env <- envs :: env.valuesAgain == Some(values) || env.valuesAgain == None
    ensures DeliverAll(p, options, revision, envs).store == p.store
  {
    if envs != [] {
      var n := |envs| - 1;
      assert envs[n] in envs;
      EqualValuesStayEqual(p, options, revision, envs[..n], values);
    }
  }

  /** Idempotence, whatever the options: after a Delivery that did not fail, any number of
  Deliveries of the same revision with the same value files, failing or not, change nothing. */
  lemma DeliveryIsIdempotent(p: Provider, options: Options, revision: Hash, env: Environment, envs: seq<Environment>)
    requires Deliver(p, options, revision, env).1 != Failed
    requires forall later <- envs :: later.valuesAgain == env.valuesAgain || later.valuesAgain == None
    ensures var p' := Deliver(p, options, revision, env).0;
            DeliverAll(p', options, revision, envs).store == p'.store
  {
    var (p', outcome) := Deliver(p, options, revision, env);
    if outcome == ValuesEqual {
      EqualValuesStayEqual(p', options, revision, envs, env.valuesAgain.value);
    } else {
      DeliveredMeansInstalled(p, options, revision, env);
      StampedIsFinal(p', options, revision, envs);
    }
  }

  /** No action runs to its end, and the process does not die in one. */
  predicate StaysAbsent(options: Options, env: Environment) {
    env.listFails || env.updateFails || env.defaults.None? || env.values.None?
    || env.main.FailsEarly? || (env.main.FailsLate? && env.main.cleanupWorks && options.atomic)
  }

  lemma {:induction false} AbsentUntilInstalled(p: Provider, options: Options, revision: Hash, envs: seq<Environment>)
    requires p.store == EMPTY && forall env <- envs :: StaysAbsent(options, env)
    ensures DeliverAll(p, options, revision, envs).store == EMPTY
  {
    if envs != [] {
      var n := |envs| - 1;
      assert envs[n] in envs;
      AbsentUntilInstalled(p, options, revision, envs[..n]);
    }
  }

  /** Recovery: a reinstallation interrupted between its uninstall and its install leaves the
  release absent, any number of failing Deliveries leave it so, and the next error-free one
  installs it. */
  lemma InterruptedReinstallRecovers(p: Provider, options: Options, revision: Hash, env: Environment,
                                     failing: seq<Environment>, newRevision: Hash, last: Environment)
    requires options.reInstallRelease && p.store.current.Some? && !Stamped(p.store, revision)
    requires !env.listFails && !env.updateFails && env.defaults.Some? && env.values.Some? && env.valuesAgain.Some?
    requires !SkipsForValues(p.store, options, revision, env.valuesAgain.value)
    requires env.uninstall.Works? && StaysAbsent(options, env)
    requires forall later <- failing :: StaysAbsent(options, later)
    requires ErrorFree(last)
    ensures var p1 := Deliver(p, options, revision, env).0;
            var p2 := DeliverAll(p1, options, revision, failing);
            var (p3, outcome) := Deliver(p2, options, newRevision, last);
            && p1.store == EMPTY && p2.store == EMPTY && outcome == Delivered
            && p3.store.current
               == Some(Release(Chart(newRevision, last.defaults.value), last.values.value, Deployed))
  {
    AbsentUntilInstalled(Deliver(p, options, revision, env).0, options, revision, failing);
  }

  /*---------- Deliveries that are never made good ----------*/

  /** The release carries the stamp but was not deployed successfully. */
  predicate Abandoned(store: Store, revision: Hash) {
    Stamped(store, revision) && store.current.value.status != Deployed
  }

  /** The Delivery gets as far as its install or upgrade. */
  predicate Acts(p: Provider, options: Options, revision: Hash, env: Environment) {
    && !env.listFails && !env.updateFails && env.defaults.Some? && env.values.Some?
    && (p.store.current.None? ||
        (&& env.valuesAgain.Some? && !Stamped(p.store, revision)
         && !SkipsForValues(p.store, options, revision, env.valuesAgain.value)
         && !Blocked(p.store, options, revision)
         && (options.reInstallRelease ==> env.uninstall.Works?)))
  }

  /** A failed upgrade of an atomic provider has something to roll back to. */
  predicate CleansUp(p: Provider, options: Options, action: Action) {
    && options.atomic && action.FailsLate? && action.cleanupWorks
    && (p.store.current.None? || options.reInstallRelease || p.store.good.Some?)
  }

  /** A store without a newest record has no good one either. */
  predicate Consistent(store: Store) {
    store.current.None? ==> store.good.None?
  }

  /** Everything a Delivery can leave behind.  One that does not get as far as its install or
  upgrade changes nothing.  One that does starts from the store, or after a reinstallation's
  uninstall from none; it leaves this Delivery's release deployed, failed, or pending as its
  action works, fails late, or dies; an action that fails early leaves what was there, and one
  that is rolled back the last release that was good, or none if there was none to begin with. */
  lemma DeliveryLeaves(p: Provider, options: Options, revision: Hash, env: Environment)
    requires Consistent(p.store)
    ensures var store' := Deliver(p, options, revision, env).0.store;
            && Consistent(store')
            && (!Acts(p, options, revision, env) ==> store' == p.store)
            && (Acts(p, options, revision, env) ==>
                  var values := if p.store.current.None? then env.values.value else env.valuesAgain.value;
                  var before := if options.reInstallRelease then EMPTY else p.store;
                  var release := Release(Chart(revision, env.defaults.value), values, Deployed);
                  store' == match env.main
                            case Works => Store(Some(release), Some(release))
                            case FailsEarly => before
                            case FailsLate(_) =>
                              if CleansUp(p, options, env.main) then Store(before.good, before.good)
                              else Store(Some(release.(status := FailedRelease)), before.good)
                            case Dies => Store(Some(release.(status := Pending)), before.good))
  {
  }

  /** What a Delivery answers, for every failure of every call. */
  lemma AnswersExactlyWhen(p: Provider, options: Options, revision: Hash, env: Environment)
    ensures var outcome := Deliver(p, options, revision, env).1;
            var compared := !env.listFails && !env.updateFails && env.defaults.Some? && env.values.Some?
                            && p.store.current.Some? && env.valuesAgain.Some?;
            && (outcome == AlreadyExists <==> compared && Stamped(p.store, revision))
            && (outcome == ValuesEqual <==>
                  compared && SkipsForValues(p.store, options, revision, env.valuesAgain.value))
            && (outcome == Delivered <==> Acts(p, options, revision, env) && env.main.Works?)
  {
  }

  /** Only an action that dies leaves the release pending. */
  lemma PendingExactlyWhen(p: Provider, options: Options, revision: Hash, env: Environment)
    requires Consistent(p.store) && GoodIsDeployed(p.store)
    requires p.store.current.Some? ==> p.store.current.value.status != Pending
    ensures var store' := Deliver(p, options, revision, env).0.store;
            (store'.current.Some? && store'.current.value.status == Pending) <==>
              Acts(p, options, revision, env) && env.main.Dies?
  {
    DeliveryLeaves(p, options, revision, env);
  }

  datatype Attempt = Attempt(revision: Hash, env: Environment)

  function Attempts(p: Provider, options: Options, attempts: seq<Attempt>): Provider {
    if attempts == [] then p
    else
      var last := attempts[|attempts| - 1];
      Deliver(Attempts(p, options, attempts[..|attempts| - 1]), options, last.revision, last.env).0
  }

  /** A Delivery that dies in no action, and is rolled back when it fails late. */
  predicate Tidy(attempt: Attempt) {
    !attempt.env.main.Works? && !attempt.env.main.Dies?
    && (attempt.env.main.FailsLate? ==> attempt.env.main.cleanupWorks)
  }

  /** Atomic upgrades are all or nothing over any number of revisions: after a Delivery that
  worked, however many upgrades to however many revisions fail and are rolled back, the
  release is the one that Delivery left, chart, values and status. */
  lemma {:induction false} AtomicUpgradesKeepTheRelease(p: Provider, options: Options, attempts: seq<Attempt>)
    requires options.atomic && !options.reInstallRelease
    requires p.store.current.Some? && p.store.current.value.status == Deployed && p.store.good == p.store.current
    requires forall attempt <- attempts :: Tidy(attempt)
    ensures Attempts(p, options, attempts).store == p.store
  {
    if attempts != [] {
      var n := |attempts| - 1;
      assert attempts[n] in attempts;
      AtomicUpgradesKeepTheRelease(p, options, attempts[..n]);
      DeliveryLeaves(Attempts(p, options, attempts[..n]), options, attempts[n].revision, attempts[n].env);
    }
  }

  /** What an earlier load has left in the provider decides nothing. */
  lemma LeftoversDecideNothing(p: Provider, q: Provider, options: Options, revision: Hash, env: Environment)
    requires p.store == q.store
    ensures Deliver(p, options, revision, env).1 == Deliver(q, options, revision, env).1
    ensures Deliver(p, options, revision, env).0.store == Deliver(q, options, revision, env).0.store
  {
  }

  predicate GoodIsDeployed(store: Store) {
    store.good.Some? ==> store.good.value.status == Deployed
  }

  /** A Delivery abandons its revision exactly when its install or upgrade dies, or fails after
  recording the release and is not (or cannot be) rolled back. */
  lemma AbandonedExactlyWhen(p: Provider, options: Options, revision: Hash, env: Environment)
    requires GoodIsDeployed(p.store) && !Abandoned(p.store, revision)
    ensures Abandoned(Deliver(p, options, revision, env).0.store, revision) <==>
            Acts(p, options, revision, env)
            && (env.main.Dies? || (env.main.FailsLate? && !CleansUp(p, options, env.main)))
    ensures GoodIsDeployed(Deliver(p, options, revision, env).0.store)
  {
  }

  /** The lifecycle calls Delivery again on every tick, but an abandoned revision is reported
  as existing and never repaired, however many error-free Deliveries follow. */
  lemma AbandonedStays(p: Provider, options: Options, revision: Hash, envs: seq<Environment>, env: Environment)
    requires Abandoned(p.store, revision) && ErrorFree(env)
    ensures var p' := DeliverAll(p, options, revision, envs);
            Abandoned(p'.store, revision) && Deliver(p', options, revision, env).1 == AlreadyExists
  {
    StampedIsFinal(p, options, revision, envs);
  }

  /** An environment in which every call works, up to how the install or upgrade ends. */
  function Ending(main: Action): Environment {
    Environment(false, false, Some(map[]), Some(map[]), Some(map[]), Works, main)
  }

  /** Such a run exists: a first installation without the atomic option fails to become ready,
  and the error-free Delivery after it reports that the release exists. */
  lemma FailedInstallIsAbandoned()
    ensures exists p, options, revision ::
              var (p', outcome) := Deliver(p, options, revision, Ending(FailsLate(true)));
              && p.store == EMPTY && outcome == Failed && Abandoned(p'.store, revision)
              && Deliver(p', options, revision, Ending(Works)) == (p', AlreadyExists)
  {
    var revision: Hash := [Commit(0, map[])];
    var p := Provider(None, map[], EMPTY);
    var options := Options(false, false, false);
    var (p', outcome) := Deliver(p, options, revision, Ending(FailsLate(true)));
    assert Abandoned(p'.store, revision);
    assert Deliver(p', options, revision, Ending(Works)) == (p', AlreadyExists);
  }

  /** A release left pending by another revision blocks every later Delivery, exactly for
  providers that upgrade; a provider that reinstalls delivers, unless the values compare
  equal. */
  lemma {:induction false} PendingBlocks(p: Provider, options: Options, revision: Hash, envs: seq<Environment>,
                                         env: Environment)
    requires p.store.current.Some? && p.store.current.value.status == Pending && !Stamped(p.store, revision)
    requires ErrorFree(env)
    ensures !options.reInstallRelease ==> DeliverAll(p, options, revision, envs).store == p.store
    ensures Deliver(p, options, revision, env).1 == Delivered
            <==> options.reInstallRelease && !SkipsForValues(p.store, options, revision, env.values.value)
  {
    if envs != [] {
      PendingBlocks(p, options, revision, envs[..|envs| - 1], env);
    }
  }
}
