/** The server's objects, updated in place, each method proved against the function on lists. */
module RegistryServer {
  import opened Prelude
  import opened Registry
  import opened RegistryRuns

  class RepositoryConfig {
    const name: string
    const url: string
    var apps: seq<Slot>

    constructor (name: string, url: string)
      ensures this.name == name && this.url == url && apps == []
    {
      this.name := name;
      this.url := url;
      this.apps := [];
    }

    function View(): Repo
      reads this
    {
      Repo(name, url, apps)
    }

    /** Adds the application, leaves an equal one alone, or replaces a changed one. */
    method AddOrUpdateApplication(spec: Spec, build: Build, id: nat) returns (reply: Reply)
      modifies `apps
      ensures (apps, reply) == AddOrUpdate(old(apps), spec, build, id)
      ensures forall i: nat | First(old(apps), spec.name) == Found(i) ::
                var o := old(apps)[i].app.spec;
                var equal := o.namespace == spec.namespace && o.url == spec.url && o.reference == spec.reference
                             && o.sparsePath == spec.sparsePath;
                && (reply == AlreadyUpToDate <==> equal)
                && (equal ==> apps == old(apps))
                && (!equal && !build.storageFails && !build.fails ==> apps == old(apps)[i := Holding(App(id, spec))])
    {
      var appIndex := -1;
      var i := 0;
      while i < |apps| && appIndex == -1
        invariant 0 <= i <= |apps| && apps == old(apps)
        invariant appIndex == -1 ==> First(apps, spec.name) == Shift(First(apps[i..], spec.name), i)
        invariant appIndex != -1 ==> appIndex >= 0 && First(apps, spec.name) == Found(appIndex)
        decreases |apps| - i, appIndex == -1
      {
        assert apps[i..][0] == apps[i] && apps[i..][1..] == apps[i + 1..];
        if apps[i].Nil? {
          return Crash;
        }
        if apps[i].app.spec.name == spec.name {
          appIndex := i;
        } else {
          i := i + 1;
        }
      }
      if appIndex == -1 {
        if build.fails {
          return Failed(NotBuilt);
        }
        apps := apps + [Holding(App(id, spec))];
        return Success;
      }
      if SameSpec(apps[appIndex].app.spec, spec) {
        return AlreadyUpToDate;
      }
      if build.storageFails {
        return Failed(StorageNotRemoved);
      }
      if build.fails {
        apps := apps[appIndex := Nil];
        return Failed(NotBuilt);
      }
      apps := apps[appIndex := Holding(App(id, spec))];
      return Success;
    }

    /** Uninstalls the last application of that name and drops it by swap-remove; an unknown
    name is a success. */
    method DeleteApplication(name: string) returns (reply: Reply)
      modifies `apps
      ensures (apps, reply) == Remove(old(apps), name)
    {
      var appIndex := -1;
      for i := 0 to |apps|
        invariant apps == old(apps)
        invariant -1 <= appIndex < i
        invariant Scan(apps[..i], name) == if appIndex == -1 then Absent else Found(appIndex)
      {
        assert apps[..i + 1][..i] == apps[..i];
        if apps[i].Nil? {
          ScanExactly(apps, name);
          return Crash;
        }
        if apps[i].app.spec.name == name {
          appIndex := i;
        }
      }
      assert apps[..|apps|] == apps;
      if appIndex == -1 {
        return Success;
      }
      var last := |apps| - 1;
      apps := apps[appIndex := apps[last]];
      apps := apps[..last];
      return Success;
    }

    /** Starts one goroutine for every entry; each uninstalls its application, and one that
    gets a hole dereferences nil.  Without holes every application is uninstalled once. */
    method UninstallAll() returns (uninstalled: seq<App>, crashed: bool)
      ensures crashed <==> HasHole(apps)
      ensures !crashed ==> |uninstalled| == |apps| && forall i | 0 <= i < |apps| :: apps[i] == Holding(uninstalled[i])
    {
      uninstalled := [];
      for i := 0 to |apps|
        invariant !HasHole(apps[..i])
        invariant |uninstalled| == i && forall j | 0 <= j < i :: apps[j] == Holding(uninstalled[j])
      {
        if apps[i].Nil? {
          return uninstalled, true;
        }
        uninstalled := uninstalled + [apps[i].app];
      }
      return uninstalled, false;
    }
  }

  lemma SwappedObjects(repos: seq<RepositoryConfig>, i: nat)
    requires i < |repos| && forall j, k | 0 <= j < k < |repos| :: repos[j] != repos[k]
    ensures var repos' := SwapRemove(repos, i);
            && (forall j, k | 0 <= j < k < |repos'| :: repos'[j] != repos'[k])
            && forall repo <- repos' :: repo in repos
  {
  }

  lemma SwappedViews(repos: seq<RepositoryConfig>, i: nat)
    requires i < |repos|
    ensures Views(SwapRemove(repos, i)) == SwapRemove(Views(repos), i)
  {
  }

  /** The values of a list of repositories. */
  function Views(repos: seq<RepositoryConfig>): (v: seq<Repo>)
    reads repos
    ensures |v| == |repos| && forall i | 0 <= i < |repos| :: v[i] == repos[i].View()
  {
    if repos == [] then [] else Views(repos[..|repos| - 1]) + [repos[|repos| - 1].View()]
  }

  class RepositoryHandler {
    var repos: seq<RepositoryConfig>

    /** A repository is listed once. */
    ghost predicate Valid()
      reads this
    {
      forall i, j | 0 <= i < j < |repos| :: repos[i] != repos[j]
    }

    function View(): seq<Repo>
      reads this, repos
    {
      Views(repos)
    }

    constructor ()
      ensures repos == [] && Valid()
    {
      repos := [];
    }

    method GetRepositoryConfig(url: string) returns (repo: RepositoryConfig?)
      ensures match FindRepo(View(), url)
              case None => repo == null
              case Some(i) => i < |repos| && repo == repos[i]
    {
      for i := 0 to |repos|
        invariant FindRepo(View(), url)
                  == match FindRepo(View()[i..], url) case None => None case Some(j) => Some(i + j)
      {
        assert View()[i..][0] == repos[i].View() && View()[i..][1..] == View()[i + 1..];
        if repos[i].url == url {
          return repos[i];
        }
      }
      return null;
    }

    method AddRepository(newRepository: RepositoryConfig) returns (reply: Reply)
      requires Valid() && newRepository !in repos
      modifies `repos
      ensures Valid()
      ensures reply == if FindRepo(old(View()), newRepository.url).Some? then Failed(RepositoryAlreadyExist)
                       else Success
      ensures repos == if reply.Success? then old(repos) + [newRepository] else old(repos)
      ensures View() == if reply.Success? then old(View()) + [newRepository.View()] else old(View())
    {
      for i := 0 to |repos|
        invariant repos == old(repos)
        invariant FindRepo(View(), newRepository.url).Some? <==> FindRepo(View()[i..], newRepository.url).Some?
      {
        assert View()[i..][0] == repos[i].View() && View()[i..][1..] == View()[i + 1..];
        if repos[i].url == newRepository.url {
          return Failed(RepositoryAlreadyExist);
        }
      }
      repos := repos + [newRepository];
      return Success;
    }

    /** The forward search of DeleteApplication; -1 when there is no such URL. */
    method FindFirst(url: string) returns (repoIndex: int)
      ensures FindRepo(View(), url) == if repoIndex < 0 then None else Some(repoIndex)
      ensures -1 <= repoIndex < |repos|
    {
      for i := 0 to |repos|
        invariant FindRepo(View(), url)
                  == match FindRepo(View()[i..], url) case None => None case Some(j) => Some(i + j)
      {
        assert View()[i..][0] == repos[i].View() && View()[i..][1..] == View()[i + 1..];
        if repos[i].url != url {
          continue;
        }
        return i;
      }
      return -1;
    }

    /** The full scan of a deletion; -1 when there is no such name. */
    method FindLast(name: string) returns (repoIndex: int)
      ensures LastNamed(View(), name) == if repoIndex < 0 then None else Some(repoIndex)
      ensures -1 <= repoIndex < |repos|
    {
      repoIndex := -1;
      for i := 0 to |repos|
        invariant -1 <= repoIndex < i
        invariant LastNamed(View()[..i], name) == if repoIndex == -1 then None else Some(repoIndex)
      {
        assert View()[..i + 1][..i] == View()[..i] && View()[i] == repos[i].View();
        if repos[i].name == name {
          repoIndex := i;
        }
      }
      assert View()[..|repos|] == View();
    }

    /** Swap-remove: the last repository takes the place of the dropped one. */
    method Drop(repoIndex: nat)
      requires Valid() && repoIndex < |repos|
      modifies `repos
      ensures Valid() && forall repo <- repos :: repo in old(repos)
      ensures View() == SwapRemove(old(View()), repoIndex)
    {
      SwappedViews(repos, repoIndex);
      SwappedObjects(repos, repoIndex);
      var last := |repos| - 1;
      repos := repos[repoIndex := repos[last]];
      repos := repos[..last];
      assert repos == SwapRemove(old(repos), repoIndex);
      hide Views, SwapRemove;
    }

    /** Uninstalls the applications of the last repository of that name and drops it: the
    uninstalled applications are exactly those of the dropped repository. */
    method DeleteRepository(name: string) returns (reply: Reply, uninstalled: seq<App>)
      requires Valid()
      modifies `repos
      ensures Valid() && forall repo <- repos :: repo in old(repos)
      ensures (View(), reply) == Serve(old(View()), Request.DeleteRepository(name))
      ensures reply.Success? ==>
                var found := LastNamed(old(View()), name);
                && found.Some? && |uninstalled| == |old(View())[found.value].slots|
                && forall i | 0 <= i < |uninstalled| :: old(View())[found.value].slots[i] == Holding(uninstalled[i])
      ensures reply.Failed? ==> uninstalled == []
    {
      var repoIndex := FindLast(name);
      if repoIndex == -1 {
        return Failed(RepositoryConfigNotFound), [];
      }
      var crashed;
      uninstalled, crashed := repos[repoIndex].UninstallAll();
      if crashed {
        return Crash, uninstalled;
      }
      Drop(repoIndex);
      return Success, uninstalled;
    }

    /** The first application with that name and URL, over all repositories. */
    method GetApplication(name: string, url: string) returns (answer: Answer)
      ensures answer == Lookup(View(), name, url)
    {
      for i := 0 to |repos|
        invariant Lookup(View(), name, url) == Lookup(View()[i..], name, url)
      {
        var apps := repos[i].apps;
        assert View()[i..][0] == repos[i].View() && View()[i..][1..] == View()[i + 1..];
        for j := 0 to |apps|
          invariant LookupIn(apps, name, url) == LookupIn(apps[j..], name, url)
        {
          assert apps[j..][0] == apps[j] && apps[j..][1..] == apps[j + 1..];
          if apps[j].Nil? {
            return Tripped;
          }
          if apps[j].app.spec.name == name && apps[j].app.spec.url == url {
            return Hit(apps[j].app);
          }
        }
      }
      return Miss;
    }
  }

  /** The request methods, one after the other. */
  class Server {
    const handler: RepositoryHandler

    constructor ()
      ensures fresh(handler) && handler.repos == [] && handler.Valid()
    {
      handler := new RepositoryHandler();
    }

    method AddRepository(name: string, url: string, authFails: bool) returns (reply: Reply)
      requires handler.Valid()
      modifies handler`repos
      ensures handler.Valid() && forall repo <- handler.repos :: repo in old(handler.repos) || fresh(repo)
      ensures (handler.View(), reply) == Serve(old(handler.View()), Request.AddRepository(name, url, authFails))
    {
      var config := handler.GetRepositoryConfig(url);
      if config != null {
        return Success;
      }
      if authFails {
        return Failed(NoAccess);
      }
      var newConfig := new RepositoryConfig(name, url);
      reply := handler.AddRepository(newConfig);
    }

    method DeleteRepository(name: string) returns (reply: Reply)
      requires handler.Valid()
      modifies handler`repos
      ensures handler.Valid() && forall repo <- handler.repos :: repo in old(handler.repos)
      ensures (handler.View(), reply) == Serve(old(handler.View()), Request.DeleteRepository(name))
    {
      var uninstalled;
      reply, uninstalled := handler.DeleteRepository(name);
    }

    method AddOrUpdateApplication(spec: Spec, build: Build, id: nat) returns (reply: Reply)
      requires handler.Valid()
      modifies handler.repos
      ensures handler.repos == old(handler.repos)
      ensures (handler.View(), reply) == Serve(old(handler.View()), Request.AddOrUpdateApplication(spec, build, id))
      ensures AnswersAllBySpec(old(handler.View()), handler.View(), reply, spec, build, id)
    {
      ghost var before := handler.View();
      ServedBySpec(before, spec, build, id);
      hide AnswersAllBySpec;
      var repository := handler.GetRepositoryConfig(spec.url);
      if repository == null {
        return Failed(RepositoryConfigNotFound);
      }
      reply := repository.AddOrUpdateApplication(spec, build, id);
      ghost var i := FindRepo(before, spec.url).value;
      assert handler.View() == before[i := before[i].(slots := repository.apps)];
      if reply.AlreadyUpToDate? {
        return Success;
      }
    }

    method DeleteApplication(url: string, name: string) returns (reply: Reply)
      requires handler.Valid()
      modifies handler.repos
      ensures handler.repos == old(handler.repos)
      ensures (handler.View(), reply) == Serve(old(handler.View()), Request.DeleteApplication(url, name))
    {
      var i := handler.FindFirst(url);
      if i < 0 {
        return Success;
      }
      ghost var before := handler.View();
      reply := handler.repos[i].DeleteApplication(name);
      assert handler.View() == before[i := before[i].(slots := handler.repos[i].apps)];
    }
  }
}
