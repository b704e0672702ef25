/** The Reconcile method call by call, with no other step in between, proved against the
protocol's state machine. */
module Reconciler {
  import opened Finalizer

  datatype Result = Stop | RequeueAfter | Failed

  class ApplicationReconciler {
    var history: map<string, History>
    var seen: map<string, nat>
    var registry: set<Registration>
    var left: set<Registration>

    constructor ()
      ensures View() == INITIAL
    {
      history := map[];
      seen := map[];
      registry := {};
      left := {};
    }

    function View(): State
      reads this
    {
      State(history, seen, Idle, registry, left)
    }

    /** The version in the cache. */
    function Cached(name: string): Version
      reads this
      requires SeenOf(View(), name) < |HistoryOf(View(), name)|
    {
      HistoryOf(View(), name)[SeenOf(View(), name)]
    }

    method Update(name: string, version: nat, v: Version, reply: Reply) returns (ok: bool)
      modifies `history
      ensures ok == Accepted(old(View()), name, version, reply)
      ensures View() == Write(old(View()), name, version, v, reply)
    {
      var versions := HistoryOf(View(), name);
      if version != |versions| - 1 || reply.Refused? {
        return false;
      }
      history := history[name := versions + [v]];
      return reply.Answered?;
    }

    /** One reconcile.  It asks to be called again only when the application it read is
    registered, and stops after a deletion only when the resource is gone and the application
    is not registered; otherwise it fails, and only because a call did. */
    method Reconcile(name: string, first: Reply, second: Reply) returns (result: Result)
      requires SeenOf(View(), name) < |HistoryOf(View(), name)|
      modifies this
      ensures View() == Uninterrupted(old(View()), name, first, second)
      ensures result.RequeueAfter? <==>
                && old(Cached(name)).Present? && !old(Cached(name)).cr.deleting && first.Answered?
                && (old(Cached(name)).cr.finalizer || (CacheCurrent(old(View()), name) && second.Answered?))
      ensures result.Stop? <==>
                || old(Cached(name)).Gone?
                || (old(Cached(name)).cr.deleting
                    && (!old(Cached(name)).cr.finalizer
                        || (CacheCurrent(old(View()), name) && first.Answered? && second.Answered?)))
      ensures result.RequeueAfter? ==>
                && old(Cached(name)).Present? && !old(Cached(name)).cr.deleting
                && Registration(old(Cached(name)).cr.url, name) in registry
      ensures result.Stop? && Finalized(old(Cached(name))) ==>
                && old(Cached(name)).cr.deleting && Last(HistoryOf(View(), name)).Gone?
                && Registration(old(Cached(name)).cr.url, name) !in registry
      ensures result.Failed? ==> !first.Answered? || !second.Answered? || !CacheCurrent(old(View()), name)
    {
      var version := SeenOf(View(), name);
      var cached := HistoryOf(View(), name)[version];
      if cached.Gone? {
        return Stop;
      }
      var app, reply := cached.cr, first;
      if !app.deleting {
        if !app.finalizer {
          app := app.(finalizer := true);
          var ok := Update(name, version, Present(app), first);
          if !ok {
            return Failed;
          }
          reply := second;
        }
      } else {
        if app.finalizer {
          if !first.Refused? {
            registry := registry - {Registration(app.url, name)};
          }
          if !first.Answered? {
            return Failed;
          }
          var ok := Update(name, version, Gone, second);
          if !ok {
            return Failed;
          }
        }
        return Stop;
      }
      if !reply.Refused? {
        registry := registry + {Registration(app.url, name)};
      }
      if !reply.Answered? {
        return Failed;
      }
      return RequeueAfter;
    }
  }
}
