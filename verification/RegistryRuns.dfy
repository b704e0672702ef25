/** Whole runs of the registry: requests and ticks one after the other, until a nil entry of a
list is dereferenced and the process dies. */
module RegistryRuns {
  import opened Prelude
  import opened Registry

  /** What happens to the registry: a request, or a tick of the ticker, which visits every
  repository whose mutex it gets and dereferences each of its entries. */
  datatype Event =
    | Requested(request: Request)
    | Ticked(busy: set<string>)

  datatype Process = Up(repos: seq<Repo>) | Down

  predicate TickTrips(repos: seq<Repo>, busy: set<string>) {
    exists repo <- repos :: repo.url !in busy && HasHole(repo.slots)
  }

  function Respond(repos: seq<Repo>, event: Event): Process {
    match event
    case Requested(request) =>
      var (repos', reply) := Serve(repos, request);
      if reply.Crash? then Down else Up(repos')
    case Ticked(busy) => if TickTrips(repos, busy) then Down else Up(repos)
  }

  /** A dead process answers nothing any more. */
  function RespondAll(p: Process, events: seq<Event>): Process {
    if events == [] then p
    else
      match RespondAll(p, events[..|events| - 1])
      case Down => Down
      case Up(repos) => Respond(repos, events[|events| - 1])
  }

  predicate BuildFails(event: Event) {
    event.Requested? && event.request.AddOrUpdateApplication? && event.request.build.fails
  }

  lemma NoNewHoles(repos: seq<Repo>, request: Request)
    requires WellFormed(repos) && NoHoles(repos)
    requires request.AddOrUpdateApplication? ==> !request.build.fails
    ensures NoHoles(Serve(repos, request).0) && !Serve(repos, request).1.Crash?
  {
    match request
    case AddRepository(_, _, _) =>
    case DeleteRepository(name) =>
      var found := LastNamed(repos, name);
      if found.Some? {
        assert repos[found.value] in repos;
        assert forall repo <- SwapRemove(repos, found.value) :: repo in repos;
      }
    case AddOrUpdateApplication(spec, build, id) =>
      var found := FindRepo(repos, spec.url);
      if found.Some? {
        assert repos[found.value] in repos;
        AddOrUpdateRefines(repos[found.value].slots, spec, build, id);
      }
    case DeleteApplication(url, name) =>
      var found := FindRepo(repos, url);
      if found.Some? {
        assert repos[found.value] in repos;
        RemoveRefines(repos[found.value].slots, name);
      }
  }

  /** From an empty server, any sequence of ticks and of requests whose builds succeed keeps the
  lists a faithful map without holes, and never crashes. */
  lemma {:induction false} RunsStayFaithful(repos: seq<Repo>, events: seq<Event>)
    requires WellFormed(repos) && NoHoles(repos) && forall event <- events :: !BuildFails(event)
    ensures var p := RespondAll(Up(repos), events);
            p.Up? && WellFormed(p.repos) && NoHoles(p.repos)
  {
    if events != [] {
      var n := |events| - 1;
      RunsStayFaithful(repos, events[..n]);
      assert events[n] in events;
      if events[n].Requested? {
        WellFormedKept(RespondAll(Up(repos), events[..n]).repos, events[n].request);
        NoNewHoles(RespondAll(Up(repos), events[..n]).repos, events[n].request);
      }
    }
  }

  /** Repository names are not kept distinct: two repositories of one name can be added, and a
  deletion by that name removes one of them, the one listed last. */
  lemma SharedNameDeletesOne(name: string, url: string, url': string)
    requires url != url'
    ensures var added := RespondAll(Up([]), [Requested(AddRepository(name, url, false)),
                                            Requested(AddRepository(name, url', false))]);
            && added == Up([Repo(name, url, []), Repo(name, url', [])])
            && Respond(added.repos, Requested(DeleteRepository(name))) == Up([Repo(name, url, [])])
  {
    var first, second := Requested(AddRepository(name, url, false)), Requested(AddRepository(name, url', false));
    assert [first, second][..1] == [first] && [first][..0] == [];
    assert RespondAll(Up([]), [first]) == Up([Repo(name, url, [])]);
    assert FindRepo([Repo(name, url, [])][1..], url') == None;
  }

  /** One AddOrUpdateApplication at the server, in terms of the fields of the specifications: a
  registered application whose namespace, URL, reference and sparse path are those of the
  request stays, the same instance; any difference replaces it, in its place, by an instance
  with the whole new specification. */
  predicate AnswersBySpec(repos: seq<Repo>, repos': seq<Repo>, reply: Reply, i: nat, j: nat, n: Spec, build: Build,
                          id: nat)
    requires i < |repos| && j < |repos[i].slots| && repos[i].slots[j].Holding?
  {
    var o := repos[i].slots[j].app.spec;
    var changed := repos[i].(slots := repos[i].slots[j := Holding(App(id, n))]);
    if o.namespace == n.namespace && o.url == n.url && o.reference == n.reference && o.sparsePath == n.sparsePath then
      repos' == repos && reply == Success
    else
      !build.storageFails && !build.fails ==> repos' == repos[i := changed] && reply == Success
  }

  lemma FoundInSlots(slots: seq<Slot>, j: nat)
    requires NamesDistinct(slots) && !HasHole(slots) && j < |slots|
    ensures slots[j].Holding? && First(slots, slots[j].app.spec.name) == Found(j)
  {
    assert slots[j] in slots;
    FirstExactly(slots, slots[j].app.spec.name);
  }

  lemma ChangedExactlyWhen(repos: seq<Repo>, i: nat, j: nat, n: Spec, build: Build, id: nat)
    requires WellFormed(repos) && NoHoles(repos) && Registered(repos, i, j, n)
    ensures var (repos', reply) := Serve(repos, AddOrUpdateApplication(n, build, id));
            AnswersBySpec(repos, repos', reply, i, j, n, build, id)
  {
    assert repos[i] in repos;
    FoundAt(repos, i);
    FoundInSlots(repos[i].slots, j);
    UpToDateExactlyWhen(repos[i].slots, j, n, build, id);
    SlotsPutBack(repos, i);
    hide WellFormed, NoHoles, AddOrUpdate, First, FindRepo, SameSpec;
  }

  /** The repository and the slot in which the specification's name is registered. */
  predicate Registered(repos: seq<Repo>, i: nat, j: nat, n: Spec) {
    && i < |repos| && repos[i].url == n.url
    && j < |repos[i].slots| && repos[i].slots[j].Holding? && repos[i].slots[j].app.spec.name == n.name
  }

  /** The same, wherever the name is registered. */
  ghost predicate AnswersAllBySpec(repos: seq<Repo>, repos': seq<Repo>, reply: Reply, n: Spec, build: Build, id: nat) {
    WellFormed(repos) && NoHoles(repos) ==>
      forall i: nat, j: nat | Registered(repos, i, j, n) :: AnswersBySpec(repos, repos', reply, i, j, n, build, id)
  }

  lemma ServedBySpec(repos: seq<Repo>, n: Spec, build: Build, id: nat)
    ensures var (repos', reply) := Serve(repos, AddOrUpdateApplication(n, build, id));
            AnswersAllBySpec(repos, repos', reply, n, build, id)
  {
    hide Serve, AnswersBySpec;
    if WellFormed(repos) && NoHoles(repos) {
      forall i: nat, j: nat | Registered(repos, i, j, n)
        ensures var (repos', reply) := Serve(repos, AddOrUpdateApplication(n, build, id));
                AnswersBySpec(repos, repos', reply, i, j, n, build, id)
      {
        ChangedExactlyWhen(repos, i, j, n, build, id);
      }
    }
  }

  /*---------- resynchronisation ----------*/

  ghost predicate Registers(repos: seq<Repo>, url: string, app: App) {
    WellFormed(repos) && NoHoles(repos) && exists repo <- repos :: repo.url == url && Holding(app) in repo.slots
  }

  /** In terms of the map: the entry of that URL holds the instance under its name. */
  lemma RegistersExactly(repos: seq<Repo>, url: string, app: App)
    requires WellFormed(repos) && NoHoles(repos)
    ensures Registers(repos, url, app) <==>
            && url in Meaning(repos) && app.spec.name in Meaning(repos)[url].apps
            && Meaning(repos)[url].apps[app.spec.name] == app
  {
    hide Meaning, AsMap;
    if Registers(repos, url, app) {
      var repo :| repo in repos && repo.url == url && Holding(app) in repo.slots;
      MeaningHoldsAll(repos, repo);
      AsMapHoldsAll(repo.slots, Holding(app));
    }
  }

  /** The operator sends the specification again, possibly with other Helm options. */
  predicate Resyncs(request: Request, spec: Spec) {
    request.AddOrUpdateApplication? && SameSpec(spec, request.spec)
  }

  /** Sending a registered specification again, any number of times and between any ticks,
  changes nothing: the lists, and so the instance with its clone and revision, stay as they
  are, and every reply is a success. */
  lemma {:induction false} ResyncIsStutter(repos: seq<Repo>, app: App, events: seq<Event>)
    requires Registers(repos, app.spec.url, app)
    requires forall event <- events :: event.Requested? ==> Resyncs(event.request, app.spec)
    ensures RespondAll(Up(repos), events) == Up(repos)
    ensures forall event <- events :: event.Requested? ==> Serve(repos, event.request) == (repos, Success)
  {
    forall event <- events | event.Requested? ensures Serve(repos, event.request) == (repos, Success) {
      OneResync(repos, app, event.request);
    }
    hide Serve, Resyncs;
    if events != [] {
      assert events[|events| - 1] in events;
      ResyncIsStutter(repos, app, events[..|events| - 1]);
    }
  }

  lemma OneResync(repos: seq<Repo>, app: App, request: Request)
    requires Registers(repos, app.spec.url, app) && Resyncs(request, app.spec)
    ensures Serve(repos, request) == (repos, Success)
  {
    RegistersExactly(repos, app.spec.url, app);
    MeaningAt(repos, app.spec.url);
    var i := FindRepo(repos, app.spec.url).value;
    assert repos[i] in repos;
    AddOrUpdateRefines(repos[i].slots, request.spec, request.build, request.id);
    hide AddOrUpdate, AsMap, Meaning, FindRepo, NamesDistinct, HasHole, WellFormed, NoHoles;
    assert AddOrUpdate(repos[i].slots, request.spec, request.build, request.id) == (repos[i].slots, AlreadyUpToDate);
    SlotsPutBack(repos, i);
  }

  lemma SlotsPutBack(repos: seq<Repo>, i: nat)
    requires i < |repos|
    ensures repos[i := repos[i].(slots := repos[i].slots)] == repos
  {
  }

  /** Another application's requests, and other repositories' ones, leave an entry alone. */
  predicate Concerns(request: Request, entry: Repo, name: string) {
    match request
    case AddRepository(_, _, _) => false
    case DeleteRepository(repoName) => repoName == entry.name
    case AddOrUpdateApplication(spec, _, _) => spec.url == entry.url && spec.name == name
    case DeleteApplication(url, appName) => url == entry.url && appName == name
  }

  lemma OthersLeaveEntryAlone(repos: seq<Repo>, request: Request, i: nat, app: App)
    requires i < |repos| && Registers(repos, repos[i].url, app) && !Concerns(request, repos[i], app.spec.name)
    requires request.AddOrUpdateApplication? ==> !request.build.fails
    ensures Registers(Serve(repos, request).0, repos[i].url, app)
  {
    RegistryRefinesMap(repos, request);
    NoNewHoles(repos, request);
    MeaningHoldsAll(repos, repos[i]);
    RegistersExactly(repos, repos[i].url, app);
    hide Serve, AsMap, Meaning, NoHoles, WellFormed;
    RegistersExactly(Serve(repos, request).0, repos[i].url, app);
    var (repos', reply) := Serve(repos, request);
    MapLeavesEntryAlone(Meaning(repos), request, Meaning(repos'), reply, repos[i], app);
  }

  lemma MapLeavesEntryAlone(m: map<string, Entry>, request: Request, m': map<string, Entry>, reply: Reply, repo: Repo,
                            app: App)
    requires MapServes(m, request, m', reply) && !Concerns(request, repo, app.spec.name)
    requires repo.url in m && m[repo.url].name == repo.name
    requires app.spec.name in m[repo.url].apps && m[repo.url].apps[app.spec.name] == app
    ensures repo.url in m' && app.spec.name in m'[repo.url].apps && m'[repo.url].apps[app.spec.name] == app
  {
  }

  /*---------- holes ----------*/

  /** What the request needs to dereference is nil. */
  predicate TripsOver(repos: seq<Repo>, request: Request) {
    match request
    case AddRepository(_, _, _) => false
    case DeleteRepository(name) =>
      var found := LastNamed(repos, name);
      found.Some? && HasHole(repos[found.value].slots)
    case AddOrUpdateApplication(spec, _, _) =>
      var found := FindRepo(repos, spec.url);
      found.Some? && HoleBeforeMatch(repos[found.value].slots, spec.name)
    case DeleteApplication(url, _) =>
      var found := FindRepo(repos, url);
      found.Some? && HasHole(repos[found.value].slots)
  }

  /** A request crashes the server exactly when it meets a hole: deletions in the repository
  meet any, AddOrUpdateApplication one that comes before its name. */
  lemma CrashExactlyWhen(repos: seq<Repo>, request: Request)
    ensures Serve(repos, request).1.Crash? <==> TripsOver(repos, request)
  {
    if request.AddOrUpdateApplication? {
      var found := FindRepo(repos, request.spec.url);
      if found.Some? {
        FirstExactly(repos[found.value].slots, request.spec.name);
      }
    } else if request.DeleteApplication? {
      var found := FindRepo(repos, request.url);
      if found.Some? {
        ScanExactly(repos[found.value].slots, request.name);
      }
    }
  }

  ghost predicate Holed(repos: seq<Repo>, url: string) {
    exists repo <- repos :: repo.url == url && HasHole(repo.slots)
  }

  lemma HoleStays(repos: seq<Repo>, request: Request, url: string)
    requires WellFormed(repos) && Holed(repos, url)
    ensures Holed(Serve(repos, request).0, url)
  {
    var i :| 0 <= i < |repos| && repos[i].url == url && HasHole(repos[i].slots);
    var repos' := Serve(repos, request).0;
    FoundAt(repos, i);
    match request
    case AddRepository(_, _, _) => assert repos[i] in repos';
    case DeleteRepository(name) =>
      var found := LastNamed(repos, name);
      if found.Some? && found.value != i && repos' != repos {
        var n := |repos| - 1;
        assert repos'[if i == n then found.value else i] == repos[i];
      } else {
        assert repos' == repos;
      }
    case AddOrUpdateApplication(spec, build, id) =>
      HoleStaysInSlots(repos[i].slots, spec, build, id);
      assert repos'[i] in repos';
    case DeleteApplication(otherUrl, name) =>
      ScanExactly(repos[i].slots, name);
      assert repos'[i] in repos';
  }

  lemma HoleStaysInSlots(slots: seq<Slot>, spec: Spec, build: Build, id: nat)
    requires HasHole(slots)
    ensures HasHole(AddOrUpdate(slots, spec, build, id).0)
  {
    var h :| 0 <= h < |slots| && slots[h] == Nil;
    var slots' := AddOrUpdate(slots, spec, build, id).0;
    assert slots'[h] == Nil;
  }

  /** No run that survives removes the hole or its repository. */
  lemma {:induction false} HoleIsForEver(repos: seq<Repo>, events: seq<Event>, url: string)
    requires WellFormed(repos) && Holed(repos, url)
    ensures var p := RespondAll(Up(repos), events);
            p.Up? ==> WellFormed(p.repos) && Holed(p.repos, url)
  {
    if events != [] {
      var n := |events| - 1;
      HoleIsForEver(repos, events[..n], url);
      var p := RespondAll(Up(repos), events[..n]);
      if p.Up? && events[n].Requested? {
        WellFormedKept(p.repos, events[n].request);
        HoleStays(p.repos, events[n].request, url);
      }
    }
  }

  /** The hole appears exactly when a changed specification's clone is removed and the rebuild
  then fails. */
  lemma HoleAppearsExactlyWhen(repos: seq<Repo>, request: Request)
    requires WellFormed(repos) && NoHoles(repos)
    ensures !NoHoles(Serve(repos, request).0) <==>
            && request.AddOrUpdateApplication? && request.build.fails && !request.build.storageFails
            && request.spec.url in Meaning(repos)
            && var apps := Meaning(repos)[request.spec.url].apps;
               request.spec.name in apps && !SameSpec(apps[request.spec.name].spec, request.spec)
  {
    if request.AddOrUpdateApplication? {
      var spec := request.spec;
      MeaningAt(repos, spec.url);
      var found := FindRepo(repos, spec.url);
      if found.Some? {
        var i := found.value;
        assert repos[i] in repos;
        AddOrUpdateRefines(repos[i].slots, spec, request.build, request.id);
        var repos' := Serve(repos, request).0;
        assert repos'[i] in repos';
      }
    } else {
      NoNewHoles(repos, request);
    }
  }

  /*---------- how long a server with a hole lives ----------*/

  /** The same names and the same holes in the same slots. */
  predicate SameShape(slots: seq<Slot>, slots': seq<Slot>) {
    && |slots'| == |slots|
    && forall i | 0 <= i < |slots| ::
         && slots'[i].Holding? == slots[i].Holding?
         && (slots[i].Holding? ==> slots'[i].app.spec.name == slots[i].app.spec.name)
  }

  lemma ShapeDecidesTripping(slots: seq<Slot>, slots': seq<Slot>, name: string)
    requires SameShape(slots, slots')
    ensures HoleBeforeMatch(slots, name) <==> HoleBeforeMatch(slots', name)
    ensures HasHole(slots) <==> HasHole(slots')
  {
    assert forall i | 0 <= i < |slots| :: HoleAt(slots, name, i) <==> HoleAt(slots', name, i);
    assert forall i | 0 <= i < |slots| :: slots[i] == Nil <==> slots'[i] == Nil;
  }

  /** Where there is a hole, an update whose build succeeds changes no name and no hole. */
  lemma HoleKeepsShape(slots: seq<Slot>, spec: Spec, build: Build, id: nat)
    requires HasHole(slots) && !build.fails
    ensures SameShape(slots, AddOrUpdate(slots, spec, build, id).0)
  {
    FirstExactly(slots, spec.name);
  }

  /** `repo`, up to the applications in its slots, is listed, has a hole, and is the only one
  with a hole and the only one of its name. */
  ghost predicate OnlyHoled(repos: seq<Repo>, repo: Repo) {
    && HasHole(repo.slots)
    && (exists r <- repos :: r.url == repo.url)
    && forall r <- repos ::
         if r.url == repo.url then r.name == repo.name && SameShape(repo.slots, r.slots)
         else r.name != repo.name && !HasHole(r.slots)
  }

  /** The event does not look at the hole. */
  predicate Spares(repo: Repo, event: Event) {
    match event
    case Ticked(busy) => repo.url in busy
    case Requested(AddRepository(_, _, _)) => true
    case Requested(DeleteRepository(name)) => name != repo.name
    case Requested(AddOrUpdateApplication(spec, _, _)) =>
      spec.url == repo.url ==> !HoleBeforeMatch(repo.slots, spec.name)
    case Requested(DeleteApplication(url, _)) => url != repo.url
  }

  predicate TakesName(event: Event, name: string) {
    event.Requested? && event.request.AddRepository? && event.request.name == name
  }

  lemma DiesExactlyWhen(repos: seq<Repo>, repo: Repo, event: Event)
    requires WellFormed(repos) && OnlyHoled(repos, repo)
    ensures Respond(repos, event).Down? <==> !Spares(repo, event)
  {
    var i :| 0 <= i < |repos| && repos[i].url == repo.url;
    FoundAt(repos, i);
    ShapeDecidesTripping(repo.slots, repos[i].slots, "");
    match event
    case Ticked(busy) => assert repos[i] in repos;
    case Requested(request) =>
      CrashExactlyWhen(repos, request);
      if request.AddOrUpdateApplication? {
        OthersAreWhole(repos, repo, request.spec.url, request.spec.name);
        ShapeDecidesTripping(repo.slots, repos[i].slots, request.spec.name);
      } else if request.DeleteApplication? {
        OthersAreWhole(repos, repo, request.url, "");
      } else if request.DeleteRepository? {
        LastNamedExactly(repos, request.name);
        assert repos[i] in repos;
      }
  }

  lemma OthersAreWhole(repos: seq<Repo>, repo: Repo, url: string, name: string)
    requires OnlyHoled(repos, repo)
    ensures url != repo.url && FindRepo(repos, url).Some? ==>
              !HasHole(repos[FindRepo(repos, url).value].slots)
              && !HoleBeforeMatch(repos[FindRepo(repos, url).value].slots, name)
  {
    if url != repo.url && FindRepo(repos, url).Some? {
      var found := repos[FindRepo(repos, url).value];
      assert found in repos;
      assert forall i | 0 <= i < |found.slots| :: found.slots[i] in found.slots;
    }
  }

  lemma OnlyHoledKept(repos: seq<Repo>, repo: Repo, event: Event)
    requires WellFormed(repos) && OnlyHoled(repos, repo)
    requires Spares(repo, event) && !BuildFails(event) && !TakesName(event, repo.name)
    ensures Respond(repos, event).Up? && WellFormed(Respond(repos, event).repos)
    ensures OnlyHoled(Respond(repos, event).repos, repo)
  {
    DiesExactlyWhen(repos, repo, event);
    if event.Requested? {
      WellFormedKept(repos, event.request);
      var repos' := Serve(repos, event.request).0;
      match event.request
      case AddRepository(_, _, _) =>
        forall r <- repos ensures r in repos' { }
      case DeleteRepository(name) =>
        var found := LastNamed(repos, name);
        if found.Some? {
          SwappedElements(repos, found.value);
        }
      case AddOrUpdateApplication(spec, build, id) =>
        var found := FindRepo(repos, spec.url);
        if found.Some? {
          OneSlotsChange(repos, repo, found.value, AddOrUpdate(repos[found.value].slots, spec, build, id).0) by {
            UpdateKeepsWhole(repos, repo, found.value, spec, build, id);
          }
        }
      case DeleteApplication(url, name) =>
        var found := FindRepo(repos, url);
        if found.Some? {
          assert repos[found.value] in repos;
          RemoveRefines(repos[found.value].slots, name);
          OneSlotsChange(repos, repo, found.value, Remove(repos[found.value].slots, name).0);
        }
    }
  }

  lemma UpdateKeepsWhole(repos: seq<Repo>, repo: Repo, i: nat, spec: Spec, build: Build, id: nat)
    requires WellFormed(repos) && OnlyHoled(repos, repo) && i < |repos| && !build.fails
    ensures var slots := AddOrUpdate(repos[i].slots, spec, build, id).0;
            if repos[i].url == repo.url then SameShape(repo.slots, slots) else !HasHole(slots)
  {
    assert repos[i] in repos;
    if repos[i].url == repo.url {
      ShapeDecidesTripping(repo.slots, repos[i].slots, "");
      HoleKeepsShape(repos[i].slots, spec, build, id);
    } else {
      AddOrUpdateRefines(repos[i].slots, spec, build, id);
    }
  }

  lemma OneSlotsChange(repos: seq<Repo>, repo: Repo, i: nat, slots: seq<Slot>)
    requires OnlyHoled(repos, repo) && i < |repos|
    requires if repos[i].url == repo.url then SameShape(repo.slots, slots) else !HasHole(slots)
    ensures OnlyHoled(repos[i := repos[i].(slots := slots)], repo)
  {
    var repos' := repos[i := repos[i].(slots := slots)];
    var j :| 0 <= j < |repos| && repos[j].url == repo.url;
    assert repos'[j].url == repo.url && repos'[j] in repos';
    forall r <- repos'
      ensures if r.url == repo.url then r.name == repo.name && SameShape(repo.slots, r.slots)
              else r.name != repo.name && !HasHole(r.slots)
    {
      var k :| 0 <= k < |repos'| && repos'[k] == r;
      assert repos[k] in repos;
    }
  }

  /** How long a server with a hole lives.  Let one repository have a hole, be the only one of
  its name, and no later build fail.  A sequence of requests and ticks is survived if and only
  if none of them looks at the hole: no tick gets the repository's mutex, and no request
  deletes the repository or one of its applications, or adds or updates an application that is
  not listed before the hole. */
  lemma {:induction false} SurvivesExactlyWhen(repos: seq<Repo>, repo: Repo, events: seq<Event>)
    requires WellFormed(repos) && OnlyHoled(repos, repo)
    requires forall event <- events :: !BuildFails(event) && !TakesName(event, repo.name)
    ensures var p := RespondAll(Up(repos), events);
            && (p.Up? <==> forall event <- events :: Spares(repo, event))
            && (p.Up? ==> WellFormed(p.repos) && OnlyHoled(p.repos, repo))
  {
    if events != [] {
      var n := |events| - 1;
      SurvivesExactlyWhen(repos, repo, events[..n]);
      assert events == events[..n] + [events[n]];
      var p := RespondAll(Up(repos), events[..n]);
      if p.Up? {
        DiesExactlyWhen(p.repos, repo, events[n]);
        if Spares(repo, events[n]) {
          OnlyHoledKept(p.repos, repo, events[n]);
        }
      }
    }
  }

  /** And that is the state a failed rebuild leaves behind. */
  lemma FailedRebuildLeavesHole(repos: seq<Repo>, request: Request)
    requires WellFormed(repos) && NoHoles(repos) && !NoHoles(Serve(repos, request).0)
    requires request.AddOrUpdateApplication? ==>
               forall r, q | r in repos && q in repos && r.url == request.spec.url && q.url != r.url :: q.name != r.name
    ensures request.AddOrUpdateApplication? && Respond(repos, Requested(request)).Up?
    ensures var repos' := Serve(repos, request).0;
            exists repo <- repos' :: repo.url == request.spec.url && OnlyHoled(repos', repo)
  {
    HoleInServed(repos, request);
    hide AddOrUpdate, NamesDistinct, OnlyHoled, HasHole, NoHoles;
    var i := FindRepo(repos, request.spec.url).value;
    HoleMadeAt(repos, i, AddOrUpdate(repos[i].slots, request.spec, request.build, request.id).0);
  }

  lemma HoleInServed(repos: seq<Repo>, request: Request)
    requires WellFormed(repos) && NoHoles(repos) && !NoHoles(Serve(repos, request).0)
    ensures request.AddOrUpdateApplication? && FindRepo(repos, request.spec.url).Some?
    ensures var slots := repos[FindRepo(repos, request.spec.url).value].slots;
            var (slots', reply) := AddOrUpdate(slots, request.spec, request.build, request.id);
            HasHole(slots') && !reply.Crash?
  {
    HoleAppearsExactlyWhen(repos, request);
    MeaningAt(repos, request.spec.url);
    var i := FindRepo(repos, request.spec.url).value;
    assert repos[i] in repos;
    hide Meaning, AsMap, Serve;
    AddOrUpdateRefines(repos[i].slots, request.spec, request.build, request.id);
  }

  lemma HoleMadeAt(repos: seq<Repo>, i: nat, slots: seq<Slot>)
    requires UrlsDistinct(repos) && NoHoles(repos) && i < |repos| && HasHole(slots)
    requires forall q <- repos | q.url != repos[i].url :: q.name != repos[i].name
    ensures var repos' := repos[i := repos[i].(slots := slots)];
            repos'[i] in repos' && repos'[i].url == repos[i].url && OnlyHoled(repos', repos'[i])
  {
    var repos' := repos[i := repos[i].(slots := slots)];
    assert repos'[i] in repos';
    forall r <- repos'
      ensures if r.url == repos[i].url then r == repos'[i] else r.name != repos[i].name && !HasHole(r.slots)
    {
      var k :| 0 <= k < |repos'| && repos'[k] == r;
      assert repos[k] in repos;
    }
  }
}
