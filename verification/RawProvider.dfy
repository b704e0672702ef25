/** The raw provider object: the sequential code between its concurrent API calls. */
module RawProvider {
  import opened Prelude
  import opened Git
  import opened RawCluster

  /** What discovery answers for one group version: its resource types, or an error. */
  type Discovery = seq<Option<seq<Kind>>>

  /** One prune task per resource type of every group version that answered, in order. */
  function TasksFor(discovery: Discovery, selector: Selector): seq<Task> {
    if discovery == [] then []
    else TasksFor(discovery[..|discovery| - 1], selector) + TasksForVersion(discovery[|discovery| - 1], selector)
  }

  function TasksForVersion(kinds: Option<seq<Kind>>, selector: Selector): seq<Task> {
    match kinds
    case None => []
    case Some(ks) => seq(|ks|, i requires 0 <= i < |ks| => Listing(ks[i], selector))
  }

  /** How often a resource type was reported, over all group versions that answered. */
  function Reports(discovery: Discovery, kind: Kind): nat {
    if discovery == [] then 0
    else
      var last := discovery[|discovery| - 1];
      Reports(discovery[..|discovery| - 1], kind) + if last.Some? then multiset(last.value)[kind] else 0
  }

  /** A resource type has exactly one task for each group version that reported it, and there
  are no other tasks. */
  lemma {:induction false} OneTaskPerReport(discovery: Discovery, selector: Selector, kind: Kind)
    ensures multiset(TasksFor(discovery, selector))[Listing(kind, selector)] == Reports(discovery, kind)
    ensures forall task <- TasksFor(discovery, selector) :: task.Listing? && task.selector == selector
  {
    if discovery != [] {
      var n := |discovery| - 1;
      OneTaskPerReport(discovery[..n], selector, kind);
      if discovery[n].Some? {
        OneTaskPerEntry(discovery[n].value, selector, kind);
      }
    }
  }

  lemma {:induction false} OneTaskPerEntry(kinds: seq<Kind>, selector: Selector, kind: Kind)
    ensures multiset(TasksForVersion(Some(kinds), selector))[Listing(kind, selector)] == multiset(kinds)[kind]
  {
    var tasks := TasksForVersion(Some(kinds), selector);
    if kinds != [] {
      var n := |kinds| - 1;
      OneTaskPerEntry(kinds[..n], selector, kind);
      assert kinds == kinds[..n] + [kinds[n]];
      assert tasks == TasksForVersion(Some(kinds[..n]), selector) + [Listing(kinds[n], selector)];
    }
  }

  lemma FilesBelow(resources: seq<Resource>, worktree: Tree, sparsePath: Path)
    requires (set res | res in resources) == ManifestsOf(worktree, sparsePath)
    ensures forall file: Path | At(sparsePath, file) in worktree && worktree[At(sparsePath, file)].Manifest? ::
              worktree[At(sparsePath, file)].resource in resources
    ensures forall res <- resources :: exists file: Path ::
              At(sparsePath, file) in worktree && worktree[At(sparsePath, file)] == Manifest(res)
  {
    forall file: Path | At(sparsePath, file) in worktree && worktree[At(sparsePath, file)].Manifest?
      ensures worktree[At(sparsePath, file)].resource in (set res | res in resources)
    {
      ManifestsAreFilesBelow(worktree, sparsePath, worktree[At(sparsePath, file)].resource);
    }
    forall res <- resources
      ensures exists file: Path :: At(sparsePath, file) in worktree && worktree[At(sparsePath, file)] == Manifest(res)
    {
      assert res in (set x | x in resources);
      ManifestsAreFilesBelow(worktree, sparsePath, res);
    }
  }

  class RawProvider {
    const sparsePath: Path
    var revisionLabel: Option<Hash>    // labels["dummy.cd/revision"]
    var resources: seq<Resource>
    var locked: bool                   // mutex

    /** Reads the manifests once; the revision label is not set yet. */
    constructor (sparsePath: Path, worktree: Tree)
      ensures this.sparsePath == sparsePath
      ensures revisionLabel == None && !locked
      ensures (set res | res in resources) == ManifestsOf(worktree, sparsePath)
    {
      this.sparsePath := sparsePath;
      revisionLabel := None;
      locked := false;
      resources := [];
      new;
      resources := ReadResources(sparsePath, worktree);
    }

    /** Collects the manifests of the handled directory, file by file. */
    static method ReadResources(sparsePath: Path, worktree: Tree) returns (resources: seq<Resource>)
      ensures (set res | res in resources) == ManifestsOf(worktree, sparsePath)
      ensures forall file: Path | At(sparsePath, file) in worktree && worktree[At(sparsePath, file)].Manifest? ::
                worktree[At(sparsePath, file)].resource in resources
      ensures forall res <- resources :: exists file: Path ::
                At(sparsePath, file) in worktree && worktree[At(sparsePath, file)] == Manifest(res)
    {
      resources := [];
      var files := set p | p in worktree && InDirectory(sparsePath, p);
      ghost var read: set<Path> := {};
      while files != {}
        invariant read !! files
        invariant read + files == set p | p in worktree && InDirectory(sparsePath, p)
        invariant forall res :: res in resources <==> exists p <- read :: worktree[p] == Manifest(res)
        decreases files
      {
        var p :| p in files;
        files := files - {p};
        if worktree[p].Manifest? {
          resources := resources + [worktree[p].resource];
        }
        read := read + {p};
      }
      FilesBelow(resources, worktree, sparsePath);
    }

    /** The part of Delivery before the goroutines run: manifests are read again only when a
    Delivery has been made before; the label becomes the revision. */
    method BeginDelivery(worktree: Tree, appRevision: Hash) returns (workers: seq<Worker>)
      modifies this
      ensures revisionLabel == Some(appRevision) && locked == old(locked)
      ensures if old(revisionLabel).None? then resources == old(resources)
              else (set res | res in resources) == ManifestsOf(worktree, sparsePath)
      ensures workers == WorkersFor(resources)
    {
      if revisionLabel.Some? {
        resources := ReadResources(sparsePath, worktree);
      }
      revisionLabel := Some(appRevision);
      workers := [];
      for i := 0 to |resources|
        invariant |workers| == i && forall j | 0 <= j < i :: workers[j] == Getting(resources[j])
      {
        workers := workers + [Getting(resources[i])];
      }
    }

    /** Launches the prune tasks, group version by group version.  The mutex, taken by the
    caller, is released on every path.  (Waiting for room in the pools is in RawTasks.) */
    method CleanResources(cleanAll: bool, appRevision: Hash, groupsFail: bool, discovery: Discovery)
      returns (tasks: seq<Task>)
      requires locked
      modifies `locked
      ensures !locked
      ensures tasks == if appRevision == ZERO_HASH || groupsFail then []
                       else TasksFor(discovery, Selector(cleanAll, appRevision))
    {
      tasks := [];
      if appRevision == ZERO_HASH || groupsFail {
        locked := false;
        return;
      }
      var selector := Selector(cleanAll, appRevision);
      for g := 0 to |discovery|
        invariant locked && tasks == TasksFor(discovery[..g], selector)
      {
        assert discovery[..g + 1][..g] == discovery[..g];
        if discovery[g].Some? {
          var kinds := discovery[g].value;
          for i := 0 to |kinds|
            invariant locked
            invariant tasks == TasksFor(discovery[..g], selector)
                               + seq(i, j requires 0 <= j < i => Listing(kinds[j], selector))
          {
            tasks := tasks + [Listing(kinds[i], selector)];
          }
        }
      }
      assert discovery[..|discovery|] == discovery;
      locked := false;
    }
  }
}
