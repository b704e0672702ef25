/** What the server's registry means: lists with swap-remove and nil holes, read as a map from
repository URL to a map from application name to application. */
module Registry {
  import opened Prelude

  datatype HelmOptions = HelmOptions(
    valueFiles: seq<string>,
    checkValuesEqual: bool,
    reInstallRelease: bool,
    createNamespace: bool,
    atomic: bool,
    includeCRDs: bool)

  datatype Spec = Spec(
    name: string,
    namespace: string,
    url: string,
    reference: string,
    sparsePath: string,
    helm: HelmOptions)

  /** An application instance; `id` tells instances of equal specifications apart. */
  datatype App = App(id: nat, spec: Spec)

  /** A list slot; a failed rebuild leaves `Nil` behind. */
  datatype Slot = Nil | Holding(app: App)

  datatype Error = RepositoryConfigNotFound | RepositoryAlreadyExist | NoAccess | StorageNotRemoved | NotBuilt

  /** `Crash` is the nil dereference that ends the process. */
  datatype Reply = Success | AlreadyUpToDate | Failed(error: Error) | Crash

  datatype Search = Found(index: nat) | Absent | NilDereference

  /** What the outside does to one AddOrUpdateApplication call: removing the old clone may
  fail, and so may building the new application. */
  datatype Build = Build(storageFails: bool, fails: bool)

  /*---------- one repository's applications ----------*/

  function Shift(found: Search, n: nat): Search {
    match found
    case Found(i) => Found(i + n)
    case _ => found
  }

  /** A forward search that stops at the first match. */
  function First(slots: seq<Slot>, name: string): (r: Search)
    ensures r.Found? ==> r.index < |slots| && slots[r.index].Holding? && slots[r.index].app.spec.name == name
  {
    if slots == [] then Absent
    else if slots[0].Nil? then NilDereference
    else if slots[0].app.spec.name == name then Found(0)
    else Shift(First(slots[1..], name), 1)
  }

  /** A full scan that remembers the latest match. */
  function Scan(slots: seq<Slot>, name: string): (r: Search)
    ensures r.Found? ==> r.index < |slots| && slots[r.index].Holding? && slots[r.index].app.spec.name == name
  {
    if slots == [] then Absent
    else
      var n := |slots| - 1;
      var before := Scan(slots[..n], name);
      if before.NilDereference? then before
      else if slots[n].Nil? then NilDereference
      else if slots[n].app.spec.name == name then Found(n)
      else before
  }

  /** The comparison of AddOrUpdateApplication: Helm options and the revision are ignored. */
  predicate SameSpec(s: Spec, t: Spec) {
    s == t.(helm := s.helm)
  }

  function AddOrUpdate(slots: seq<Slot>, spec: Spec, build: Build, id: nat): (seq<Slot>, Reply) {
    match First(slots, spec.name)
    case NilDereference => (slots, Crash)
    case Absent =>
      if build.fails then (slots, Failed(NotBuilt)) else (slots + [Holding(App(id, spec))], Success)
    case Found(i) =>
      if SameSpec(slots[i].app.spec, spec) then (slots, AlreadyUpToDate)
      else if build.storageFails then (slots, Failed(StorageNotRemoved))
      else if build.fails then (slots[i := Nil], Failed(NotBuilt))
      else (slots[i := Holding(App(id, spec))], Success)
  }

  function Remove(slots: seq<Slot>, name: string): (seq<Slot>, Reply) {
    match Scan(slots, name)
    case NilDereference => (slots, Crash)
    case Absent => (slots, Success)
    case Found(i) => (SwapRemove(slots, i), Success)
  }

  predicate HasHole(slots: seq<Slot>) {
    Nil in slots
  }

  predicate NamesDistinct(slots: seq<Slot>) {
    forall i, j | 0 <= i < j < |slots| && slots[i].Holding? && slots[j].Holding? ::
      slots[i].app.spec.name != slots[j].app.spec.name
  }

  /** The list as a map. */
  function AsMap(slots: seq<Slot>): (m: map<string, App>)
    ensures forall name <- m :: Holding(m[name]) in slots && m[name].spec.name == name
  {
    if slots == [] then map[]
    else
      var n := |slots| - 1;
      var m := AsMap(slots[..n]);
      if slots[n].Nil? then m else m[slots[n].app.spec.name := slots[n].app]
  }

  lemma {:induction false} AsMapHoldsAll(slots: seq<Slot>, slot: Slot)
    requires NamesDistinct(slots) && slot in slots && slot.Holding?
    ensures slot.app.spec.name in AsMap(slots) && AsMap(slots)[slot.app.spec.name] == slot.app
  {
    var n := |slots| - 1;
    if slot != slots[n] {
      AsMapHoldsAll(slots[..n], slot);
    }
  }

  /** A map that lists exactly the applications of the slots is their map. */
  lemma MapIs(slots: seq<Slot>, m: map<string, App>)
    requires NamesDistinct(slots)
    requires forall slot <- slots | slot.Holding? :: slot.app.spec.name in m && m[slot.app.spec.name] == slot.app
    requires forall name <- m :: Holding(m[name]) in slots && m[name].spec.name == name
    ensures m == AsMap(slots)
  {
    forall name | name in m || name in AsMap(slots)
      ensures name in m && name in AsMap(slots) && m[name] == AsMap(slots)[name]
    {
      if name in m {
        AsMapHoldsAll(slots, Holding(m[name]));
      }
    }
  }

  /** Without holes, the search that stops and the search that does not find the same slot,
  and they find one exactly for the names of the map. */
  lemma {:induction false} SearchesAgree(slots: seq<Slot>, name: string)
    requires NamesDistinct(slots) && !HasHole(slots)
    ensures First(slots, name) == Scan(slots, name)
    ensures if name in AsMap(slots) then
              First(slots, name).Found? && slots[First(slots, name).index].app == AsMap(slots)[name]
            else First(slots, name).Absent?
  {
    FirstExactly(slots, name);
    ScanExactly(slots, name);
    var found := First(slots, name);
    if found.Found? {
      AsMapHoldsAll(slots, slots[found.index]);
    }
  }

  /** A forward search crashes exactly when a hole comes before every match. */
  lemma {:induction false} FirstExactly(slots: seq<Slot>, name: string)
    ensures match First(slots, name)
            case Found(i) => forall j | 0 <= j < i :: slots[j].Holding? && slots[j].app.spec.name != name
            case Absent => forall j | 0 <= j < |slots| :: slots[j].Holding? && slots[j].app.spec.name != name
            case NilDereference => HoleBeforeMatch(slots, name)
  {
    if slots != [] && slots[0].Holding? && slots[0].app.spec.name != name {
      FirstExactly(slots[1..], name);
      assert slots == [slots[0]] + slots[1..];
      if First(slots[1..], name).NilDereference? {
        var i :| 0 <= i < |slots[1..]| && HoleAt(slots[1..], name, i);
        assert HoleAt(slots, name, i + 1);
      }
    } else if slots != [] && slots[0].Nil? {
      assert HoleAt(slots, name, 0);
    }
  }

  predicate HoleAt(slots: seq<Slot>, name: string, i: int)
    requires 0 <= i < |slots|
  {
    slots[i].Nil? && forall j | 0 <= j < i :: slots[j].Holding? && slots[j].app.spec.name != name
  }

  predicate HoleBeforeMatch(slots: seq<Slot>, name: string) {
    exists i | 0 <= i < |slots| :: HoleAt(slots, name, i)
  }

  /** A full scan crashes on any hole. */
  lemma {:induction false} ScanExactly(slots: seq<Slot>, name: string)
    ensures Scan(slots, name).NilDereference? <==> HasHole(slots)
    ensures match Scan(slots, name)
            case Found(i) => forall j | i < j < |slots| :: slots[j].Holding? && slots[j].app.spec.name != name
            case Absent => forall j | 0 <= j < |slots| :: slots[j].Holding? && slots[j].app.spec.name != name
            case NilDereference => true
  {
    if slots != [] {
      ScanExactly(slots[..|slots| - 1], name);
      assert slots == slots[..|slots| - 1] + [slots[|slots| - 1]];
    }
  }

  /** One AddOrUpdateApplication on the map: a new name is added, an equal specification is
  left alone (the same instance stays), a changed one is replaced by a new instance; when the
  rebuild fails the old instance is gone. */
  function AddOrUpdateInMap(m: map<string, App>, spec: Spec, build: Build, id: nat): (map<string, App>, Reply) {
    if spec.name !in m then
      if build.fails then (m, Failed(NotBuilt)) else (m[spec.name := App(id, spec)], Success)
    else if SameSpec(m[spec.name].spec, spec) then (m, AlreadyUpToDate)
    else if build.storageFails then (m, Failed(StorageNotRemoved))
    else if build.fails then (m - {spec.name}, Failed(NotBuilt))
    else (m[spec.name := App(id, spec)], Success)
  }

  /** The list does what the map does; it gets a hole exactly when a changed specification's
  rebuild fails after its clone was removed. */
  lemma AddOrUpdateRefines(slots: seq<Slot>, spec: Spec, build: Build, id: nat)
    requires NamesDistinct(slots) && !HasHole(slots)
    ensures var (slots', reply) := AddOrUpdate(slots, spec, build, id);
            var m := AsMap(slots);
            && NamesDistinct(slots')
            && (HasHole(slots') <==>
                  spec.name in m && !SameSpec(m[spec.name].spec, spec) && !build.storageFails && build.fails)
            && (AsMap(slots'), reply) == AddOrUpdateInMap(m, spec, build, id)
            && (reply == AlreadyUpToDate ==> slots' == slots)
  {
    SearchesAgree(slots, spec.name);
    FirstExactly(slots, spec.name);
    var slots' := AddOrUpdate(slots, spec, build, id).0;
    var found := First(slots, spec.name);
    hide AsMap;
    if found.Absent? {
      AppendedMap(slots, App(id, spec));
    } else if slots' != slots {
      ReplacedMap(slots, found.index, slots'[found.index]);
      assert slots'[found.index] == if build.fails then Nil else Holding(App(id, spec));
    }
  }

  /** What the comparison compares: when a name is registered (and no hole is met before it),
  the answer is "up to date" exactly when namespace, URL, reference and sparse path are equal,
  and then the list stays; otherwise the slot holds the new specification once it is built.
  Helm options decide nothing. */
  lemma UpToDateExactlyWhen(slots: seq<Slot>, i: nat, n: Spec, build: Build, id: nat)
    requires First(slots, n.name) == Found(i)
    ensures i < |slots| && slots[i].Holding? && slots[i].app.spec.name == n.name
    ensures var o := slots[i].app.spec;
            var (slots', reply) := AddOrUpdate(slots, n, build, id);
            var equal := o.namespace == n.namespace && o.url == n.url && o.reference == n.reference
                         && o.sparsePath == n.sparsePath;
            && (reply == AlreadyUpToDate <==> equal)
            && (equal ==> slots' == slots)
            && (!equal && !build.storageFails && !build.fails ==>
                  reply == Success && slots' == slots[i := Holding(App(id, n))])
            && (!equal && build.storageFails ==> reply == Failed(StorageNotRemoved) && slots' == slots)
            && (!equal && !build.storageFails && build.fails ==> reply == Failed(NotBuilt) && slots' == slots[i := Nil])
  {
  }

  /** A name that is not registered is added as it is, at the end. */
  lemma AddedExactlyWhen(slots: seq<Slot>, n: Spec, build: Build, id: nat)
    requires forall slot <- slots :: slot.Holding? && slot.app.spec.name != n.name
    ensures AddOrUpdate(slots, n, build, id)
            == if build.fails then (slots, Failed(NotBuilt)) else (slots + [Holding(App(id, n))], Success)
  {
    FirstExactly(slots, n.name);
    assert forall i | 0 <= i < |slots| :: slots[i] in slots;
  }

  lemma AppendedMap(slots: seq<Slot>, app: App)
    requires NamesDistinct(slots) && forall slot <- slots | slot.Holding? :: slot.app.spec.name != app.spec.name
    ensures NamesDistinct(slots + [Holding(app)])
    ensures AsMap(slots + [Holding(app)]) == AsMap(slots)[app.spec.name := app]
  {
    assert (slots + [Holding(app)])[..|slots|] == slots;
  }

  lemma ReplacedMap(slots: seq<Slot>, i: nat, slot: Slot)
    requires NamesDistinct(slots) && i < |slots| && slots[i].Holding?
    requires slot.Holding? ==> slot.app.spec.name == slots[i].app.spec.name
    ensures NamesDistinct(slots[i := slot])
    ensures AsMap(slots[i := slot]) ==
            if slot.Nil? then AsMap(slots) - {slots[i].app.spec.name}
            else AsMap(slots)[slots[i].app.spec.name := slot.app]
  {
    var slots', name := slots[i := slot], slots[i].app.spec.name;
    forall other <- slots' | other.Holding? && other != slot
      ensures other.app.spec.name in AsMap(slots) && AsMap(slots)[other.app.spec.name] == other.app
      ensures other.app.spec.name != name
    {
      AsMapHoldsAll(slots, other);
    }
    forall other <- AsMap(slots) | other != name ensures Holding(AsMap(slots)[other]) in slots' {
      var j :| 0 <= j < |slots| && slots[j] == Holding(AsMap(slots)[other]);
      assert slots'[j] == slots[j];
    }
    assert slots'[i] == slot;
    hide AsMap;
    MapIs(slots', if slot.Nil? then AsMap(slots) - {name} else AsMap(slots)[name := slot.app]);
  }

  /** Swap-remove deletes exactly the named entry. */
  lemma RemoveRefines(slots: seq<Slot>, name: string)
    requires NamesDistinct(slots) && !HasHole(slots)
    ensures var (slots', reply) := Remove(slots, name);
            && NamesDistinct(slots') && !HasHole(slots')
            && AsMap(slots') == AsMap(slots) - {name}
            && reply == Success
  {
    SearchesAgree(slots, name);
    ScanExactly(slots, name);
    var found := Scan(slots, name);
    if found.Found? {
      SwappedMap(slots, found.index);
    }
  }

  lemma SwappedElements<T>(xs: seq<T>, i: nat)
    requires i < |xs|
    ensures forall j | 0 <= j < |xs| - 1 :: SwapRemove(xs, i)[j] == if j == i then xs[|xs| - 1] else xs[j]
    ensures forall j | 0 <= j < |xs| && j != i :: xs[j] in SwapRemove(xs, i)
  {
    forall j | 0 <= j < |xs| && j != i ensures xs[j] in SwapRemove(xs, i) {
      assert xs[j] == SwapRemove(xs, i)[if j == |xs| - 1 then i else j];
    }
  }

  lemma SwappedNames(slots: seq<Slot>, i: nat)
    requires NamesDistinct(slots) && !HasHole(slots) && i < |slots|
    ensures NamesDistinct(SwapRemove(slots, i)) && !HasHole(SwapRemove(slots, i))
    ensures forall slot <- SwapRemove(slots, i) :: slot in slots && slot.app.spec.name != slots[i].app.spec.name
  {
    SwappedElements(slots, i);
  }

  lemma SwappedMap(slots: seq<Slot>, i: nat)
    requires NamesDistinct(slots) && !HasHole(slots) && i < |slots|
    ensures NamesDistinct(SwapRemove(slots, i)) && !HasHole(SwapRemove(slots, i))
    ensures AsMap(SwapRemove(slots, i)) == AsMap(slots) - {slots[i].app.spec.name}
  {
    var slots', gone := SwapRemove(slots, i), slots[i].app.spec.name;
    SwappedNames(slots, i);
    SwappedElements(slots, i);
    hide SwapRemove, AsMap;
    forall slot <- slots' ensures slot.app.spec.name in AsMap(slots) && AsMap(slots)[slot.app.spec.name] == slot.app {
      AsMapHoldsAll(slots, slot);
    }
    forall name <- AsMap(slots) | name != gone ensures Holding(AsMap(slots)[name]) in slots' {
      var j :| 0 <= j < |slots| && slots[j] == Holding(AsMap(slots)[name]);
    }
    MapIs(slots', AsMap(slots) - {gone});
  }

  /*---------- all repositories ----------*/

  datatype Repo = Repo(name: string, url: string, slots: seq<Slot>)

  /** The repository that a forward search by URL finds. */
  function FindRepo(repos: seq<Repo>, url: string): (r: Option<nat>)
    ensures r.Some? ==> r.value < |repos| && repos[r.value].url == url
  {
    if repos == [] then None
    else if repos[0].url == url then Some(0)
    else match FindRepo(repos[1..], url) case None => None case Some(i) => Some(i + 1)
  }

  /** The repository that a full scan by name leaves behind. */
  function LastNamed(repos: seq<Repo>, name: string): (r: Option<nat>)
    ensures r.Some? ==> r.value < |repos| && repos[r.value].name == name
  {
    if repos == [] then None
    else if repos[|repos| - 1].name == name then Some(|repos| - 1)
    else LastNamed(repos[..|repos| - 1], name)
  }

  datatype Request =
    | AddRepository(name: string, url: string, authFails: bool)
    | DeleteRepository(name: string)
    | AddOrUpdateApplication(spec: Spec, build: Build, id: nat)
    | DeleteApplication(url: string, name: string)

  /** What a request does to the registry, and its reply. */
  function Serve(repos: seq<Repo>, request: Request): (seq<Repo>, Reply) {
    match request
    case AddRepository(name, url, authFails) =>
      if FindRepo(repos, url).Some? then (repos, Success)
      else if authFails then (repos, Failed(NoAccess))
      else (repos + [Repo(name, url, [])], Success)
    case DeleteRepository(name) =>
      (match LastNamed(repos, name)
       case None => (repos, Failed(RepositoryConfigNotFound))
       case Some(i) => if HasHole(repos[i].slots) then (repos, Crash) else (SwapRemove(repos, i), Success))
    case AddOrUpdateApplication(spec, build, id) =>
      (match FindRepo(repos, spec.url)
       case None => (repos, Failed(RepositoryConfigNotFound))
       case Some(i) =>
         var (slots, reply) := AddOrUpdate(repos[i].slots, spec, build, id);
         (repos[i := repos[i].(slots := slots)], if reply == AlreadyUpToDate then Success else reply))
    case DeleteApplication(url, name) =>
      (match FindRepo(repos, url)
       case None => (repos, Success)
       case Some(i) =>
         var (slots, reply) := Remove(repos[i].slots, name);
         (repos[i := repos[i].(slots := slots)], reply))
  }

  ghost predicate UrlsDistinct(repos: seq<Repo>) {
    forall i, j | 0 <= i < j < |repos| :: repos[i].url != repos[j].url
  }

  /** URLs are distinct, names are distinct per repository, and an application is listed under
  the URL it names. */
  ghost predicate WellFormed(repos: seq<Repo>) {
    && UrlsDistinct(repos)
    && (forall repo <- repos :: NamesDistinct(repo.slots))
    && (forall repo <- repos, slot <- repo.slots :: slot.Holding? ==> slot.app.spec.url == repo.url)
  }

  predicate NoHoles(repos: seq<Repo>) {
    forall repo <- repos :: !HasHole(repo.slots)
  }

  lemma {:induction false} FindRepoExactly(repos: seq<Repo>, url: string)
    ensures FindRepo(repos, url).None? ==> forall repo <- repos :: repo.url != url
  {
    if repos != [] && repos[0].url != url {
      FindRepoExactly(repos[1..], url);
      assert repos == [repos[0]] + repos[1..];
    }
  }

  lemma FoundAt(repos: seq<Repo>, i: nat)
    requires UrlsDistinct(repos) && i < |repos|
    ensures FindRepo(repos, repos[i].url) == Some(i)
  {
    FindRepoExactly(repos, repos[i].url);
    assert repos[i] in repos;
  }

  lemma SlotsInvented(slots: seq<Slot>, spec: Spec, build: Build, id: nat, name: string)
    ensures forall slot <- AddOrUpdate(slots, spec, build, id).0 ::
              slot.Nil? || slot in slots || slot == Holding(App(id, spec))
    ensures forall slot <- Remove(slots, name).0 :: slot in slots
  {
  }

  /** Holes or not, names stay distinct. */
  lemma NamesStayDistinct(slots: seq<Slot>, spec: Spec, build: Build, id: nat, name: string)
    requires NamesDistinct(slots)
    ensures NamesDistinct(AddOrUpdate(slots, spec, build, id).0)
    ensures NamesDistinct(Remove(slots, name).0)
  {
    FirstExactly(slots, spec.name);
    match First(slots, spec.name) {
      case Found(i) => ReplacedMap(slots, i, AddOrUpdate(slots, spec, build, id).0[i]);
      case Absent => AppendedMap(slots, App(id, spec));
      case NilDereference =>
    }
    ScanExactly(slots, name);
    var found := Scan(slots, name);
    if found.Found? {
      SwappedMap(slots, found.index);
    }
  }

  /** Every request keeps the registry well formed, whether builds succeed or fail. */
  lemma WellFormedKept(repos: seq<Repo>, request: Request)
    requires WellFormed(repos)
    ensures WellFormed(Serve(repos, request).0)
  {
    match request
    case AddRepository(_, url, _) => FindRepoExactly(repos, url);
    case DeleteRepository(name) =>
      var found := LastNamed(repos, name);
      if found.Some? {
        assert forall repo <- SwapRemove(repos, found.value) :: repo in repos;
      }
    case AddOrUpdateApplication(spec, build, id) =>
      var found := FindRepo(repos, spec.url);
      if found.Some? {
        SlotsInvented(repos[found.value].slots, spec, build, id, "");
        NamesStayDistinct(repos[found.value].slots, spec, build, id, "");
        ReplacedRepo(repos, found.value, AddOrUpdate(repos[found.value].slots, spec, build, id).0);
      }
    case DeleteApplication(url, name) =>
      var found := FindRepo(repos, url);
      if found.Some? {
        var spec := Spec("", "", "", "", "", HelmOptions([], false, false, false, false, false));
        SlotsInvented(repos[found.value].slots, spec, Build(true, true), 0, name);
        NamesStayDistinct(repos[found.value].slots, spec, Build(true, true), 0, name);
        ReplacedRepo(repos, found.value, Remove(repos[found.value].slots, name).0);
      }
  }

  lemma ReplacedRepo(repos: seq<Repo>, i: nat, slots: seq<Slot>)
    requires WellFormed(repos) && i < |repos| && NamesDistinct(slots)
    requires forall slot <- slots :: slot.Holding? ==> slot.app.spec.url == repos[i].url
    ensures WellFormed(repos[i := repos[i].(slots := slots)])
  {
    assert repos[i] in repos;
  }

  /*---------- refinement ----------*/

  datatype Entry = Entry(name: string, apps: map<string, App>)

  function EntryOf(repo: Repo): Entry {
    Entry(repo.name, AsMap(repo.slots))
  }

  /** The registry as a map from URL to the applications by name. */
  function Meaning(repos: seq<Repo>): (m: map<string, Entry>)
    ensures forall url <- m :: exists repo <- repos :: repo.url == url && m[url] == EntryOf(repo)
  {
    if repos == [] then map[]
    else Meaning(repos[..|repos| - 1])[repos[|repos| - 1].url := EntryOf(repos[|repos| - 1])]
  }

  lemma {:induction false} MeaningHoldsAll(repos: seq<Repo>, repo: Repo)
    requires UrlsDistinct(repos) && repo in repos
    ensures repo.url in Meaning(repos) && Meaning(repos)[repo.url] == EntryOf(repo)
  {
    if repo != repos[|repos| - 1] {
      MeaningHoldsAll(repos[..|repos| - 1], repo);
    }
  }

  lemma MeaningIs(repos: seq<Repo>, m: map<string, Entry>)
    requires UrlsDistinct(repos)
    requires forall repo <- repos :: repo.url in m && m[repo.url] == EntryOf(repo)
    requires forall url <- m :: exists repo <- repos :: repo.url == url
    ensures m == Meaning(repos)
  {
    hide EntryOf, UrlsDistinct, Meaning;
    forall url | url in m || url in Meaning(repos)
      ensures url in m && url in Meaning(repos) && m[url] == Meaning(repos)[url]
    {
      var repo :| repo in repos && repo.url == url;
      MeaningHoldsAll(repos, repo);
    }
  }

  /** The same requests on the map. */
  ghost predicate MapServes(m: map<string, Entry>, request: Request, m': map<string, Entry>, reply: Reply) {
    match request
    case AddRepository(name, url, authFails) =>
      if url in m then m' == m && reply == Success
      else if authFails then m' == m && reply == Failed(NoAccess)
      else m' == m[url := Entry(name, map[])] && reply == Success
    case DeleteRepository(name) =>
      if forall url <- m :: m[url].name != name then m' == m && reply == Failed(RepositoryConfigNotFound)
      else reply == Success && exists url | url in m && m[url].name == name :: m' == m - {url}
    case AddOrUpdateApplication(spec, build, id) =>
      if spec.url !in m then m' == m && reply == Failed(RepositoryConfigNotFound)
      else
        var (apps, answer) := AddOrUpdateInMap(m[spec.url].apps, spec, build, id);
        && m' == m[spec.url := m[spec.url].(apps := apps)]
        && reply == if answer == AlreadyUpToDate then Success else answer
    case DeleteApplication(url, name) =>
      && reply == Success
      && m' == if url in m then m[url := m[url].(apps := m[url].apps - {name})] else m
  }

  lemma MeaningAt(repos: seq<Repo>, url: string)
    requires WellFormed(repos)
    ensures match FindRepo(repos, url)
            case None => url !in Meaning(repos)
            case Some(i) => url in Meaning(repos) && Meaning(repos)[url] == EntryOf(repos[i])
  {
    FindRepoExactly(repos, url);
    var found := FindRepo(repos, url);
    if found.Some? {
      MeaningHoldsAll(repos, repos[found.value]);
    }
  }

  lemma MeaningReplaced(repos: seq<Repo>, i: nat, slots: seq<Slot>)
    requires UrlsDistinct(repos) && i < |repos|
    ensures Meaning(repos[i := repos[i].(slots := slots)])
            == Meaning(repos)[repos[i].url := Entry(repos[i].name, AsMap(slots))]
  {
    var repo := repos[i].(slots := slots);
    var repos' := repos[i := repo];
    assert repos'[i] == repo;
    hide Meaning, AsMap;
    var m := Meaning(repos)[repo.url := EntryOf(repo)];
    forall other <- repos' ensures other.url in m && m[other.url] == EntryOf(other) {
      if other != repo {
        assert other in repos;
        MeaningHoldsAll(repos, other);
      }
    }
    forall url <- m ensures exists other <- repos' :: other.url == url {
      if url != repo.url {
        var j :| 0 <= j < |repos| && repos[j].url == url;
        assert repos'[j] == repos[j];
      }
    }
    MeaningIs(repos', m);
  }

  /** Refinement: without holes, each request acts on the lists as it acts on the map. */
  lemma RegistryRefinesMap(repos: seq<Repo>, request: Request)
    requires WellFormed(repos) && NoHoles(repos)
    ensures WellFormed(Serve(repos, request).0)
    ensures MapServes(Meaning(repos), request, Meaning(Serve(repos, request).0), Serve(repos, request).1)
  {
    WellFormedKept(repos, request);
    match request
    case AddRepository(name, url, authFails) => AddRepositoryRefines(repos, name, url, authFails);
    case DeleteRepository(name) => DeleteRepositoryRefines(repos, name);
    case AddOrUpdateApplication(spec, build, id) => AddOrUpdateServed(repos, spec, build, id);
    case DeleteApplication(url, name) => DeleteServed(repos, url, name);
  }

  lemma AddRepositoryRefines(repos: seq<Repo>, name: string, url: string, authFails: bool)
    requires WellFormed(repos)
    requires WellFormed(Serve(repos, AddRepository(name, url, authFails)).0)
    ensures var (repos', reply) := Serve(repos, AddRepository(name, url, authFails));
            MapServes(Meaning(repos), AddRepository(name, url, authFails), Meaning(repos'), reply)
  {
    MeaningAt(repos, url);
    if FindRepo(repos, url).None? && !authFails {
      MeaningAppended(repos, name, url);
    }
  }

  lemma MeaningAppended(repos: seq<Repo>, name: string, url: string)
    ensures Meaning(repos + [Repo(name, url, [])]) == Meaning(repos)[url := Entry(name, map[])]
  {
    assert (repos + [Repo(name, url, [])])[..|repos|] == repos;
  }

  lemma {:induction false} LastNamedExactly(repos: seq<Repo>, name: string)
    ensures match LastNamed(repos, name)
            case None => forall repo <- repos :: repo.name != name
            case Some(i) => forall j | i < j < |repos| :: repos[j].name != name
  {
    if repos != [] && repos[|repos| - 1].name != name {
      LastNamedExactly(repos[..|repos| - 1], name);
      assert repos == repos[..|repos| - 1] + [repos[|repos| - 1]];
    }
  }

  lemma DeleteRepositoryRefines(repos: seq<Repo>, name: string)
    requires WellFormed(repos) && NoHoles(repos) && WellFormed(Serve(repos, DeleteRepository(name)).0)
    ensures var (repos', reply) := Serve(repos, DeleteRepository(name));
            MapServes(Meaning(repos), DeleteRepository(name), Meaning(repos'), reply)
  {
    var m := Meaning(repos);
    LastNamedExactly(repos, name);
    match LastNamed(repos, name)
    case None =>
      forall url <- m ensures m[url].name != name {
        var repo :| repo in repos && repo.url == url && m[url] == EntryOf(repo);
      }
    case Some(i) =>
      assert repos[i] in repos;
      MeaningSwapped(repos, i);
      MeaningHoldsAll(repos, repos[i]);
  }

  lemma SwappedUrls(repos: seq<Repo>, i: nat)
    requires UrlsDistinct(repos) && i < |repos|
    ensures forall repo <- SwapRemove(repos, i) :: repo in repos && repo.url != repos[i].url
    ensures forall repo <- repos | repo.url != repos[i].url :: repo in SwapRemove(repos, i)
  {
    SwappedElements(repos, i);
  }

  lemma MeaningSwapped(repos: seq<Repo>, i: nat)
    requires UrlsDistinct(repos) && i < |repos| && UrlsDistinct(SwapRemove(repos, i))
    ensures Meaning(SwapRemove(repos, i)) == Meaning(repos) - {repos[i].url}
  {
    var repos', gone := SwapRemove(repos, i), repos[i].url;
    SwappedUrls(repos, i);
    hide Meaning, SwapRemove, EntryOf, UrlsDistinct;
    forall repo <- repos' ensures repo.url in Meaning(repos) && Meaning(repos)[repo.url] == EntryOf(repo) {
      MeaningHoldsAll(repos, repo);
    }
    forall url <- Meaning(repos) | url != gone ensures exists repo <- repos' :: repo.url == url {
      var repo :| repo in repos && repo.url == url;
    }
    MeaningIs(repos', Meaning(repos) - {gone});
  }

  lemma AddOrUpdateServed(repos: seq<Repo>, spec: Spec, build: Build, id: nat)
    requires WellFormed(repos) && NoHoles(repos)
    requires WellFormed(Serve(repos, AddOrUpdateApplication(spec, build, id)).0)
    ensures var (repos', reply) := Serve(repos, AddOrUpdateApplication(spec, build, id));
            MapServes(Meaning(repos), AddOrUpdateApplication(spec, build, id), Meaning(repos'), reply)
  {
    MeaningAt(repos, spec.url);
    var found := FindRepo(repos, spec.url);
    if found.Some? {
      var i := found.value;
      assert repos[i] in repos;
      hide AddOrUpdate, AddOrUpdateInMap, AsMap, Meaning, NamesDistinct, HasHole, WellFormed, FindRepo;
      AddOrUpdateRefines(repos[i].slots, spec, build, id);
      MeaningReplaced(repos, i, AddOrUpdate(repos[i].slots, spec, build, id).0);
    }
  }

  lemma DeleteServed(repos: seq<Repo>, url: string, name: string)
    requires WellFormed(repos) && NoHoles(repos)
    requires WellFormed(Serve(repos, DeleteApplication(url, name)).0)
    ensures var (repos', reply) := Serve(repos, DeleteApplication(url, name));
            MapServes(Meaning(repos), DeleteApplication(url, name), Meaning(repos'), reply)
  {
    MeaningAt(repos, url);
    var found := FindRepo(repos, url);
    if found.Some? {
      var i := found.value;
      assert repos[i] in repos;
      RemoveRefines(repos[i].slots, name);
      MeaningReplaced(repos, i, Remove(repos[i].slots, name).0);
    }
  }

  /*---------- lookups ----------*/

  datatype Answer = Hit(app: App) | Miss | Tripped

  function LookupIn(slots: seq<Slot>, name: string, url: string): Answer {
    if slots == [] then Miss
    else if slots[0].Nil? then Tripped
    else if slots[0].app.spec.name == name && slots[0].app.spec.url == url then Hit(slots[0].app)
    else LookupIn(slots[1..], name, url)
  }

  /** The first application with that name and URL, in any repository. */
  function Lookup(repos: seq<Repo>, name: string, url: string): Answer {
    if repos == [] then Miss
    else match LookupIn(repos[0].slots, name, url)
         case Miss => Lookup(repos[1..], name, url)
         case answer => answer
  }

  lemma {:induction false} LookupInExactly(slots: seq<Slot>, name: string, url: string)
    requires !HasHole(slots)
    ensures match LookupIn(slots, name, url)
            case Hit(app) => Holding(app) in slots && app.spec.name == name && app.spec.url == url
            case Miss => forall slot <- slots :: slot.app.spec.name != name || slot.app.spec.url != url
            case Tripped => false
  {
    if slots != [] {
      assert slots[0] in slots;
      LookupInExactly(slots[1..], name, url);
      assert slots == [slots[0]] + slots[1..];
    }
  }

  /** The linear search over all repositories finds what the map says. */
  lemma {:induction false} LookupRefines(repos: seq<Repo>, name: string, url: string)
    requires WellFormed(repos) && NoHoles(repos)
    ensures Lookup(repos, name, url) ==
            var m := Meaning(repos);
            if url in m && name in m[url].apps then Hit(m[url].apps[name]) else Miss
  {
    MeaningAt(repos, url);
    HitIsListed(repos, name, url);
    LookupExactly(repos, name, url);
    var found := FindRepo(repos, url);
    if found.Some? {
      LookupAnswers(repos, found.value, name, url);
    }
  }

  lemma HitIsListed(repos: seq<Repo>, name: string, url: string)
    requires WellFormed(repos) && NoHoles(repos)
    ensures Lookup(repos, name, url).Hit? ==> FindRepo(repos, url).Some?
  {
    LookupExactly(repos, name, url);
    FindRepoExactly(repos, url);
  }

  lemma LookupAnswers(repos: seq<Repo>, i: nat, name: string, url: string)
    requires WellFormed(repos) && NoHoles(repos) && i < |repos| && repos[i].url == url
    ensures var apps := AsMap(repos[i].slots);
            Lookup(repos, name, url) == if name in apps then Hit(apps[name]) else Miss
  {
    LookupExactly(repos, name, url);
    assert repos[i] in repos;
    var apps := AsMap(repos[i].slots);
    hide AsMap, Lookup;
    match Lookup(repos, name, url)
    case Hit(app) =>
      var j :| 0 <= j < |repos| && Holding(app) in repos[j].slots;
      assert repos[j] in repos;
      AsMapHoldsAll(repos[i].slots, Holding(app));
    case Miss =>
      if name in apps {
        assert false;
      }
  }

  lemma {:induction false} LookupExactly(repos: seq<Repo>, name: string, url: string)
    requires NoHoles(repos)
    ensures match Lookup(repos, name, url)
            case Hit(app) =>
              (exists repo <- repos :: Holding(app) in repo.slots) && app.spec.name == name && app.spec.url == url
            case Miss =>
              forall repo <- repos, slot <- repo.slots :: slot.app.spec.name != name || slot.app.spec.url != url
            case Tripped => false
  {
    if repos != [] {
      assert repos[0] in repos;
      LookupInExactly(repos[0].slots, name, url);
      LookupExactly(repos[1..], name, url);
      assert repos == [repos[0]] + repos[1..];
    }
  }
}
