/** The periodic reconcile, from the custom resource to the registered instance. */
module Resync {
  import Finalizer
  import Registry
  import RegistryRuns

  /** What the operator sends for a resource: its URL and the name are given, the rest is read
  from the specification. */
  datatype Reading = Reading(
    namespace: string, reference: string, sparsePath: string, helm: Registry.HelmOptions)

  function SpecOf(name: string, cr: Finalizer.Resource, read: string -> Reading): Registry.Spec {
    var r := read(cr.spec);
    Registry.Spec(name, r.namespace, cr.url, r.reference, r.sparsePath, r.helm)
  }

  /** Nothing of the resource is lost or swapped on the way to the server. */
  lemma RequestSaysTheResource(name: string, cr: Finalizer.Resource, read: string -> Reading)
    ensures var spec := SpecOf(name, cr, read);
            && spec.name == name && spec.url == cr.url
            && Reading(spec.namespace, spec.reference, spec.sparsePath, spec.helm) == read(cr.spec)
  {
  }

  /** The protocol's state, and the server's lists behind the registry. */
  datatype System = System(protocol: Finalizer.State, repos: seq<Registry.Repo>)

  /** One reconcile of the cached version: the replies to its two calls, and what the build
  would do and the instance it would make if the server had to build one. */
  datatype Attempt = Attempt(first: Finalizer.Reply, second: Finalizer.Reply, build: Registry.Build, id: nat)

  /** The request that a live resource with the finalizer sends; it takes effect unless it is
  refused. */
  function Reconcile(s: System, name: string, cr: Finalizer.Resource, read: string -> Reading, attempt: Attempt): System
  {
    var request := Registry.AddOrUpdateApplication(SpecOf(name, cr, read), attempt.build, attempt.id);
    System(
      Finalizer.Uninterrupted(s.protocol, name, attempt.first, attempt.second),
      if attempt.first.Refused? then s.repos else Registry.Serve(s.repos, request).0)
  }

  function ReconcileAll(
    s: System, name: string, cr: Finalizer.Resource, read: string -> Reading, attempts: seq<Attempt>): System
  {
    if attempts == [] then s
    else Reconcile(ReconcileAll(s, name, cr, read, attempts[..|attempts| - 1]), name, cr, read,
                   attempts[|attempts| - 1])
  }

  /** The newest version of the resource, live and with the finalizer, is what the operator
  sees, and it is registered: the lists hold an instance built from an equal specification. */
  ghost predicate InStep(s: System, name: string, cr: Finalizer.Resource, read: string -> Reading, app: Registry.App) {
    && s.protocol.worker.Idle? && Finalizer.CacheCurrent(s.protocol, name)
    && Finalizer.Last(Finalizer.HistoryOf(s.protocol, name)) == Finalizer.Present(cr)
    && cr.finalizer && !cr.deleting
    && Finalizer.Registration(cr.url, name) in s.protocol.registry
    && RegistryRuns.Registers(s.repos, cr.url, app)
    && Registry.SameSpec(app.spec, SpecOf(name, cr, read))
  }

  /** The periodic resync is a stutter: any number of reconciles of a registered application,
  refused, answered or with the answer lost, leave the resource, the registration and the
  lists as they are, so the same instance keeps its clone and its revision. */
  lemma {:induction false} PeriodicReconcileChangesNothing(
    s: System, name: string, cr: Finalizer.Resource, read: string -> Reading, app: Registry.App,
    attempts: seq<Attempt>)
    requires InStep(s, name, cr, read, app)
    ensures ReconcileAll(s, name, cr, read, attempts) == s
  {
    if attempts != [] {
      var n := |attempts| - 1;
      PeriodicReconcileChangesNothing(s, name, cr, read, app, attempts[..n]);
      Finalizer.ResyncChangesNothing(s.protocol, name, attempts[n].first, attempts[n].second);
      var request := Registry.AddOrUpdateApplication(SpecOf(name, cr, read), attempts[n].build, attempts[n].id);
      RegistryRuns.OneResync(s.repos, app, request);
    }
  }
}
