/** Git as the engine sees it: one branch with a linear history.

A commit hash identifies a commit together with all its ancestors, so a hash is
modelled as that history, oldest commit first.  The empty history is the zero hash.
Refs (remote branch, tracking ref, local branch) are hashes. */
module Git {
  type Path = string
  type Kind = string
  type Content = string

  /** A manifest as `NewUnstructuredResource` reads it from one YAML file. */
  datatype Resource = Resource(kind: Kind, name: string, content: Content)

  /** A file: a YAML manifest, or anything that is skipped when manifests are collected. */
  datatype Blob = Manifest(resource: Resource) | Other(text: string)

  type Tree = map<Path, Blob>

  datatype Commit = Commit(id: nat, tree: Tree)

  type Hash = seq<Commit>

  const ZERO_HASH: Hash := []

  function TreeAt(h: Hash): Tree {
    if h == ZERO_HASH then map[] else h[|h| - 1].tree
  }

  function Parent(h: Hash): Hash
    requires h != ZERO_HASH
  {
    h[..|h| - 1]
  }

  /** The PathFilter closure of the application: an empty SparsePath matches everything. */
  predicate PathFilter(sparsePath: Path, p: Path) {
    if |sparsePath| == 0 then true else sparsePath <= p
  }

  predicate SameAt(t: Tree, u: Tree, p: Path) {
    (p in t <==> p in u) && (p in t && p in u ==> t[p] == u[p])
  }

  /** Whether the commit at the tip of `h` changes a path accepted by the filter, compared
  with its parent (or with nothing, for the first commit). */
  predicate Touches(h: Hash, sparsePath: Path)
    requires h != ZERO_HASH
  {
    var t, u := TreeAt(h), TreeAt(Parent(h));
    exists p <- t.Keys + u.Keys :: PathFilter(sparsePath, p) && !SameAt(t, u, p)
  }

  /** The newest commit of `h` that touches the sparse path; zero when there is none. */
  function PathHead(h: Hash, sparsePath: Path): (r: Hash)
    ensures r <= h
  {
    if h == ZERO_HASH then ZERO_HASH
    else if Touches(h, sparsePath) then h
    else PathHead(Parent(h), sparsePath)
  }

  /** Two trees agree on everything the filter lets through. */
  ghost predicate SameUnder(t: Tree, u: Tree, sparsePath: Path) {
    forall p :: PathFilter(sparsePath, p) ==> SameAt(t, u, p)
  }

  /** Files of the handled directory `storagePath/SparsePath`. */
  predicate InDirectory(sparsePath: Path, p: Path) {
    if |sparsePath| == 0 then true
    else if sparsePath[|sparsePath| - 1] == '/' then sparsePath <= p
    else sparsePath + "/" <= p
  }

  /** Where a file of the handled directory stands in the tree. */
  function At(sparsePath: Path, file: Path): Path {
    if sparsePath == "" then file
    else if sparsePath[|sparsePath| - 1] == '/' then sparsePath + file
    else sparsePath + "/" + file
  }

  /** The manifests that reading the handled directory yields. */
  function ManifestsOf(t: Tree, sparsePath: Path): set<Resource> {
    set p | p in t && InDirectory(sparsePath, p) && t[p].Manifest? :: t[p].resource
  }

  /** The manifests of the application at a commit. */
  function ManifestsAt(h: Hash, sparsePath: Path): set<Resource> {
    ManifestsOf(TreeAt(h), sparsePath)
  }

  lemma PrefixMeans(s: string, p: string)
    ensures s <= p <==> exists rest: string :: p == s + rest
  {
    if s <= p {
      assert p == s + p[|s|..];
    }
  }

  /** The filter accepts exactly the paths that begin with the sparse path. */
  lemma PathFilterMeans(sparsePath: Path, p: Path)
    ensures PathFilter(sparsePath, p) <==> exists rest: string :: p == sparsePath + rest
  {
    PrefixMeans(sparsePath, p);
    assert sparsePath == "" ==> p == sparsePath + p;
  }

  /** The handled directory holds exactly the files below the sparse path: a sibling whose name
  merely begins with it does not belong. */
  lemma DirectoryMeans(sparsePath: Path, p: Path)
    ensures InDirectory(sparsePath, p) <==> exists file: Path :: p == At(sparsePath, file)
  {
    PrefixMeans(sparsePath, p);
    PrefixMeans(sparsePath + "/", p);
    if sparsePath == "" {
      assert p == At(sparsePath, p);
    } else if sparsePath[|sparsePath| - 1] == '/' {
      forall rest: string | p == sparsePath + rest ensures p == At(sparsePath, rest) { }
    } else {
      forall rest: string | p == sparsePath + "/" + rest ensures p == At(sparsePath, rest) { }
    }
  }

  lemma SiblingIsOutside(sparsePath: Path, rest: string)
    requires sparsePath != "" && sparsePath[|sparsePath| - 1] != '/' && rest != "" && rest[0] != '/'
    ensures !InDirectory(sparsePath, sparsePath + rest) && PathFilter(sparsePath, sparsePath + rest)
  {
    assert (sparsePath + rest)[|sparsePath|] == rest[0];
    assert (sparsePath + "/")[|sparsePath|] == '/';
  }

  /** The manifests are those of the files below the sparse path, and no others. */
  lemma ManifestsAreFilesBelow(t: Tree, sparsePath: Path, res: Resource)
    ensures res in ManifestsOf(t, sparsePath) <==>
            exists file: Path :: At(sparsePath, file) in t && t[At(sparsePath, file)] == Manifest(res)
  {
    if res in ManifestsOf(t, sparsePath) {
      var p :| p in t && InDirectory(sparsePath, p) && t[p] == Manifest(res);
      DirectoryMeans(sparsePath, p);
      var file: Path :| p == At(sparsePath, file);
      assert At(sparsePath, file) in t;
    }
    forall file: Path | At(sparsePath, file) in t && t[At(sparsePath, file)] == Manifest(res)
      ensures res in ManifestsOf(t, sparsePath)
    {
      DirectoryMeans(sparsePath, At(sparsePath, file));
    }
  }

  datatype Entry = Missing | Holding(blob: Blob)

  function EntryAt(t: Tree, p: Path): Entry {
    if p in t then Holding(t[p]) else Missing
  }

  /** A commit touches the sparse path exactly when some path that begins with it is added,
  changed or removed between the parent's tree and its own. */
  lemma TouchesMeans(history: Hash, commit: Commit, sparsePath: Path)
    ensures var before := if history == [] then map[] else history[|history| - 1].tree;
            Touches(history + [commit], sparsePath) <==>
              exists rest: string :: EntryAt(commit.tree, sparsePath + rest) != EntryAt(before, sparsePath + rest)
  {
    var h := history + [commit];
    var before := if history == [] then map[] else history[|history| - 1].tree;
    assert Parent(h) == history && TreeAt(h) == commit.tree && TreeAt(Parent(h)) == before;
    if Touches(h, sparsePath) {
      var p :| p in commit.tree.Keys + before.Keys && PathFilter(sparsePath, p) && !SameAt(commit.tree, before, p);
      PathFilterMeans(sparsePath, p);
      var rest: string :| p == sparsePath + rest;
      assert EntryAt(commit.tree, sparsePath + rest) != EntryAt(before, sparsePath + rest);
    }
    forall rest: string | EntryAt(commit.tree, sparsePath + rest) != EntryAt(before, sparsePath + rest)
      ensures Touches(h, sparsePath)
    {
      PathFilterMeans(sparsePath, sparsePath + rest);
      assert sparsePath + rest in commit.tree.Keys + before.Keys;
    }
  }

  lemma DirectoryPassesFilter(sparsePath: Path, p: Path)
    requires InDirectory(sparsePath, p)
    ensures PathFilter(sparsePath, p)
  {
    if |sparsePath| > 0 && sparsePath[|sparsePath| - 1] != '/' {
      assert sparsePath <= sparsePath + "/";
    }
  }

  lemma SameManifests(t: Tree, u: Tree, sparsePath: Path)
    requires SameUnder(t, u, sparsePath)
    ensures ManifestsOf(t, sparsePath) == ManifestsOf(u, sparsePath)
  {
    forall p | InDirectory(sparsePath, p) ensures SameAt(t, u, p) {
      DirectoryPassesFilter(sparsePath, p);
    }
  }

  /** Between the path-filtered head and the tip nothing under the sparse path changes. */
  lemma {:induction false} ContentAtPathHead(h: Hash, sparsePath: Path)
    ensures SameUnder(TreeAt(h), TreeAt(PathHead(h, sparsePath)), sparsePath)
  {
    if h != ZERO_HASH && !Touches(h, sparsePath) {
      ContentAtPathHead(Parent(h), sparsePath);
      var t, u, v := TreeAt(h), TreeAt(Parent(h)), TreeAt(PathHead(h, sparsePath));
      forall p | PathFilter(sparsePath, p) ensures SameAt(t, v, p) {
        assert SameAt(t, u, p) by {
          if p in t.Keys + u.Keys { } else { assert p !in t && p !in u; }
        }
        assert SameAt(u, v, p);
      }
    }
  }

  /** The commit recorded as the revision carries the manifests of the branch tip, although
  later commits may lie between them: the revision label can stand for the content. */
  lemma ManifestsAtPathHead(h: Hash, sparsePath: Path)
    ensures ManifestsAt(PathHead(h, sparsePath), sparsePath) == ManifestsAt(h, sparsePath)
  {
    ContentAtPathHead(h, sparsePath);
    SameManifests(TreeAt(h), TreeAt(PathHead(h, sparsePath)), sparsePath);
  }

  /** No commit of `pushed`, placed on top of `h`, touches the sparse path. */
  ghost predicate Irrelevant(h: Hash, pushed: Hash, sparsePath: Path) {
    forall n | 0 < n <= |pushed| :: !Touches(h + pushed[..n], sparsePath)
  }

  /** Appending any number of irrelevant commits leaves the path-filtered head unchanged. */
  lemma {:induction false} IrrelevantPushesKeepPathHead(h: Hash, pushed: Hash, sparsePath: Path)
    requires Irrelevant(h, pushed, sparsePath)
    ensures PathHead(h + pushed, sparsePath) == PathHead(h, sparsePath)
    decreases |pushed|
  {
    if pushed == [] {
      assert h + pushed == h;
    } else {
      var n := |pushed| - 1;
      forall m | 0 < m <= n ensures !Touches(h + pushed[..n][..m], sparsePath) {
        assert pushed[..n][..m] == pushed[..m];
      }
      IrrelevantPushesKeepPathHead(h, pushed[..n], sparsePath);
      assert pushed[..|pushed|] == pushed;
      assert Parent(h + pushed) == h + pushed[..n];
    }
  }

  /** The path-filtered head is the newest touching commit and nothing else: any touching
  prefix with no touching prefix above it is the head. */
  lemma {:induction false} PathHeadIsNewest(h: Hash, sparsePath: Path)
    ensures var r := PathHead(h, sparsePath);
            && (r != ZERO_HASH ==> Touches(r, sparsePath))
            && (forall n | |r| < n <= |h| :: !Touches(h[..n], sparsePath))
  {
    if h == ZERO_HASH {
    } else if Touches(h, sparsePath) {
    } else {
      PathHeadIsNewest(Parent(h), sparsePath);
      forall n | |PathHead(h, sparsePath)| < n <= |h| ensures !Touches(h[..n], sparsePath) {
        if n == |h| {
          assert h[..n] == h;
        } else {
          assert Parent(h)[..n] == h[..n];
        }
      }
    }
  }

  /** Collects the commits that touch the sparse path, walking the log from the tip. */
  method GetRevisionHashList(head: Hash, sparsePath: Path) returns (list: seq<Hash>)
    ensures forall r <- list :: ZERO_HASH < r <= head && Touches(r, sparsePath)
    ensures forall n | 0 < n <= |head| && Touches(head[..n], sparsePath) :: head[..n] in list
    ensures forall i, j | 0 <= i < j < |list| :: |list[i]| > |list[j]|
  {
    hide Touches;
    list := [];
    var commit := head;
    while commit != ZERO_HASH
      invariant commit <= head
      invariant forall r <- list :: ZERO_HASH < r <= head && Touches(r, sparsePath) && |r| > |commit|
      invariant forall n | |commit| < n <= |head| && Touches(head[..n], sparsePath) :: head[..n] in list
      invariant forall i, j | 0 <= i < j < |list| :: |list[i]| > |list[j]|
      decreases |commit|
    {
      assert commit == head[..|commit|];
      if Touches(commit, sparsePath) {
        list := list + [commit];
      }
      commit := Parent(commit);
    }
  }

  /** The first entry of that list, or the zero hash when the list is nil. */
  method GetApplicationHeadRevision(head: Hash, sparsePath: Path) returns (revision: Hash)
    ensures revision == PathHead(head, sparsePath)
  {
    hide Touches;
    var revisions := GetRevisionHashList(head, sparsePath);
    PathHeadIsNewest(head, sparsePath);
    var r := PathHead(head, sparsePath);
    assert r == head[..|r|];
    if |revisions| == 0 {
      return ZERO_HASH;
    }
    revision := revisions[0];
    assert revision in revisions;
    assert revision == head[..|revision|];
    assert |r| >= |revision|;
    assert r in revisions;
  }
}
