/** The revision state machine of one application: what one `RunLifeCycle` call does to the
clone, the recorded revision and the delivery provider, whatever the git steps answer. */
module Lifecycle {
  import opened Git

  /** The clone of an application and the revision it last decided to deliver. */
  datatype Clone = Clone(local: Hash, tracking: Hash, worktree: Tree, current: Hash)

  /** A worktree operation that may fail half way, leaving any files behind. */
  datatype GitStep = Succeeds | Fails(left: Tree)

  /** Everything one `RunLifeCycle` call learns from outside. */
  datatype Environment = Environment(
    remote: Hash,             // the remote branch when Fetch asks for it
    fetchFails: bool,
    referencesFail: bool,     // resolving either ref, or opening the worktree
    reset: GitStep,
    resetMovesBranch: bool,   // a failing reset may already have moved the branch
    checkout: GitStep,
    pullFails: bool,
    pullFetches: bool,        // a failing pull may already have fetched
    pullRemote: Hash,         // the remote branch when Pull asks for it
    recheckout: GitStep,
    logFails: bool,
    deliveryFails: bool)

  datatype Outcome =
    | GitError
    | NoMatchingCommit
    | UpToDate
    | Delivered(revision: Hash, worktree: Tree, failed: bool)

  /** The second half of the lifecycle: check out the branch, compute the matched head and
  deliver when it is a new one. */
  function Publish(c: Clone, env: Environment, sparsePath: Path): (Clone, Outcome) {
    match env.recheckout
    case Fails(left) => (c.(worktree := left), GitError)
    case Succeeds =>
      var c := c.(worktree := TreeAt(c.local));
      var head := PathHead(c.local, sparsePath);
      if env.logFails then (c, GitError)
      else if head == ZERO_HASH then (c, NoMatchingCommit)
      else if c.current == head then (c, UpToDate)
      else (c.(current := head), Delivered(head, c.worktree, env.deliveryFails))
  }

  /** The branch for equal refs: check out, then pull (which fetches once more and only
  accepts a fast-forward). */
  function PullAndPublish(c: Clone, env: Environment, sparsePath: Path): (Clone, Outcome) {
    match env.checkout
    case Fails(left) => (c.(worktree := left), GitError)
    case Succeeds =>
      var c := c.(worktree := TreeAt(c.local));
      if env.pullFails then (if env.pullFetches then c.(tracking := env.pullRemote) else c, GitError)
      else if env.pullRemote == c.tracking then
        if c.current != ZERO_HASH then (c, UpToDate) else Publish(c, env, sparsePath)
      else if !(c.local <= env.pullRemote) then (c.(tracking := env.pullRemote), GitError)
      else
        Publish(c.(tracking := env.pullRemote, local := env.pullRemote,
                   worktree := TreeAt(env.pullRemote)), env, sparsePath)
  }

  /** The branch for different refs: hard reset to the tracking ref. */
  function ResetAndPublish(c: Clone, env: Environment, sparsePath: Path): (Clone, Outcome) {
    match env.reset
    case Fails(left) =>
      (c.(local := if env.resetMovesBranch then c.tracking else c.local, worktree := left), GitError)
    case Succeeds =>
      Publish(c.(local := c.tracking, worktree := TreeAt(c.tracking)), env, sparsePath)
  }

  /** One tick of the application: the new clone and what the call reported. */
  function Tick(c: Clone, env: Environment, sparsePath: Path): (Clone, Outcome) {
    if env.fetchFails then (c, GitError)
    else if c.tracking == env.remote && c.current != ZERO_HASH then
      (c, Delivered(c.current, c.worktree, env.deliveryFails))
    else
      var c := c.(tracking := env.remote);
      if env.referencesFail then (c, GitError)
      else if c.local != c.tracking then ResetAndPublish(c, env, sparsePath)
      else PullAndPublish(c, env, sparsePath)
  }

  /** The application object with the fields that `RunLifeCycle` updates step by step. */
  class Application {
    const sparsePath: Path
    var currentRevision: Hash
    var localReference: Hash
    var remoteReference: Hash
    var worktree: Tree

    /** A new application starts at the zero revision on whatever clone it finds. */
    constructor (sparsePath: Path, localReference: Hash, remoteReference: Hash)
      ensures this.sparsePath == sparsePath
      ensures View() == Clone(localReference, remoteReference, TreeAt(localReference), ZERO_HASH)
    {
      this.sparsePath := sparsePath;
      this.currentRevision := ZERO_HASH;
      this.localReference := localReference;
      this.remoteReference := remoteReference;
      this.worktree := TreeAt(localReference);
    }

    function View(): Clone
      reads this
    {
      Clone(localReference, remoteReference, worktree, currentRevision)
    }

    method Checkout(step: GitStep) returns (failed: bool)
      modifies `worktree
      ensures failed == step.Fails?
      ensures worktree == if step.Fails? then step.left else TreeAt(localReference)
    {
      match step
      case Fails(left) => worktree := left; failed := true;
      case Succeeds => worktree := TreeAt(localReference); failed := false;
    }

    method RunLifeCycle(env: Environment) returns (outcome: Outcome)
      modifies this
      ensures (View(), outcome) == Tick(old(View()), env, sparsePath)
    {
      if env.fetchFails {
        return GitError;
      }
      var alreadyUpToDate := remoteReference == env.remote;
      remoteReference := env.remote;
      if alreadyUpToDate && currentRevision != ZERO_HASH {
        return Delivered(currentRevision, worktree, env.deliveryFails);
      }
      if env.referencesFail {
        return GitError;
      }
      if localReference != remoteReference {
        match env.reset {
          case Fails(left) =>
            if env.resetMovesBranch {
              localReference := remoteReference;
            }
            worktree := left;
            return GitError;
          case Succeeds =>
            localReference, worktree := remoteReference, TreeAt(remoteReference);
        }
      } else {
        var failed := Checkout(env.checkout);
        if failed {
          return GitError;
        }
        if env.pullFails {
          if env.pullFetches {
            remoteReference := env.pullRemote;
          }
          return GitError;
        }
        if env.pullRemote == remoteReference {
          if currentRevision != ZERO_HASH {
            return UpToDate;
          }
        } else {
          remoteReference := env.pullRemote;
          if !(localReference <= env.pullRemote) {
            return GitError;
          }
          localReference, worktree := env.pullRemote, TreeAt(env.pullRemote);
        }
      }
      var failed := Checkout(env.recheckout);
      if failed || env.logFails {
        return GitError;
      }
      var headMatchedRevision := GetApplicationHeadRevision(localReference, sparsePath);
      if headMatchedRevision == ZERO_HASH {
        return NoMatchingCommit;
      }
      if currentRevision == headMatchedRevision {
        return UpToDate;
      }
      currentRevision := headMatchedRevision;
      return Delivered(currentRevision, worktree, env.deliveryFails);
    }
  }

  /*---------- runs ----------*/

  /** The clone after a sequence of ticks. */
  function After(c: Clone, envs: seq<Environment>, sparsePath: Path): Clone
    decreases |envs|
  {
    if envs == [] then c
    else Tick(After(c, envs[..|envs| - 1], sparsePath), envs[|envs| - 1], sparsePath).0
  }

  /** No tick of the run failed in a git step after its Fetch went through.  Deliveries may
  fail, and Fetch may fail. */
  ghost predicate GitHealthy(c: Clone, envs: seq<Environment>, sparsePath: Path) {
    forall n | 0 <= n < |envs| ::
      envs[n].fetchFails || Tick(After(c, envs[..n], sparsePath), envs[n], sparsePath).1 != GitError
  }

  /*---------- what a tick answers ----------*/

  /** Fetch reports no change and a revision is recorded: straight to Delivery. */
  predicate QuietExit(c: Clone, env: Environment) {
    !env.fetchFails && env.remote == c.tracking && c.current != ZERO_HASH
  }

  /** The branch is at the fetched remote, Pull reports no change, a revision is recorded. */
  predicate PullExit(c: Clone, env: Environment) {
    && !env.fetchFails && env.remote != c.tracking && env.remote == c.local && env.pullRemote == env.remote
    && c.current != ZERO_HASH && !env.referencesFail && env.checkout.Succeeds? && !env.pullFails
  }

  /** What has to go wrong on the path with different refs, and on the one with equal refs. */
  predicate ResetPathFails(env: Environment) {
    env.reset.Fails? || env.recheckout.Fails? || env.logFails
  }

  predicate PullPathFails(c: Clone, env: Environment) {
    || env.checkout.Fails?
    || env.pullFails
    || (env.pullRemote != env.remote && !(c.local <= env.pullRemote))
    || ((env.pullRemote != env.remote || c.current == ZERO_HASH) && (env.recheckout.Fails? || env.logFails))
  }

  /** Which of its git steps make a tick fail, on which path. */
  lemma GitErrorExactlyWhen(c: Clone, env: Environment, sparsePath: Path)
    ensures Tick(c, env, sparsePath).1 == GitError <==>
            || env.fetchFails
            || (&& !QuietExit(c, env)
                && (|| env.referencesFail
                    || (c.local != env.remote && ResetPathFails(env))
                    || (c.local == env.remote && PullPathFails(c, env))))
  {
  }

  /** The newest commit of the branch that touches the sparse path is the n-th. */
  ghost predicate NewestTouching(branch: Hash, sparsePath: Path, n: nat) {
    && 0 < n <= |branch| && Touches(branch[..n], sparsePath)
    && forall m | n < m <= |branch| :: !Touches(branch[..m], sparsePath)
  }

  ghost predicate NothingTouches(branch: Hash, sparsePath: Path) {
    forall n | 0 < n <= |branch| :: !Touches(branch[..n], sparsePath)
  }

  lemma NewestIsPathHead(branch: Hash, sparsePath: Path)
    ensures NothingTouches(branch, sparsePath) <==> PathHead(branch, sparsePath) == ZERO_HASH
    ensures forall n: nat :: NewestTouching(branch, sparsePath, n) <==>
              PathHead(branch, sparsePath) != ZERO_HASH && n == |PathHead(branch, sparsePath)|
    ensures PathHead(branch, sparsePath) == branch[..|PathHead(branch, sparsePath)|]
  {
    hide Touches;
    PathHeadIsNewest(branch, sparsePath);
    var r := PathHead(branch, sparsePath);
    assert r == branch[..|r|];
  }

  /** The answer of a tick that gets through its git steps and takes no up-to-date exit: it is an
  error when no commit of the branch it ends at touches the sparse path, "up to date" when the
  newest such commit is the recorded one, and else the Delivery of that commit, which is then
  recorded. */
  lemma OutcomeExactlyWhen(c: Clone, env: Environment, sparsePath: Path)
    requires Tick(c, env, sparsePath).1 != GitError && !QuietExit(c, env) && !PullExit(c, env)
    ensures var (c', out) := Tick(c, env, sparsePath);
            && c'.local == c'.tracking == (if c.local == env.remote then env.pullRemote else env.remote)
            && c'.worktree == TreeAt(c'.local)
            && (out == NoMatchingCommit <==> NothingTouches(c'.local, sparsePath))
            && (out == UpToDate <==>
                  exists n: nat :: NewestTouching(c'.local, sparsePath, n) && c'.local[..n] == c.current)
            && (out.Delivered? <==>
                  exists n: nat :: NewestTouching(c'.local, sparsePath, n) && c'.local[..n] != c.current)
            && (out.Delivered? ==>
                  && NewestTouching(c'.local, sparsePath, |out.revision|) && out.revision == c'.local[..|out.revision|]
                  && out == Delivered(c'.current, c'.worktree, env.deliveryFails))
            && (!out.Delivered? ==> c'.current == c.current)
  {
    var c' := Tick(c, env, sparsePath).0;
    NewestIsPathHead(c'.local, sparsePath);
    hide NewestTouching, NothingTouches, Touches;
    var n := |PathHead(c'.local, sparsePath)|;
    assert PathHead(c'.local, sparsePath) != ZERO_HASH ==> NewestTouching(c'.local, sparsePath, n);
  }

  /** And the two exits: both keep the recorded revision; the first delivers it with the files at
  hand, the second delivers nothing. */
  lemma ExitsAnswer(c: Clone, env: Environment, sparsePath: Path)
    ensures QuietExit(c, env) ==>
              Tick(c, env, sparsePath) == (c, Delivered(c.current, c.worktree, env.deliveryFails))
    ensures PullExit(c, env) ==>
              Tick(c, env, sparsePath) == (c.(tracking := env.remote, worktree := TreeAt(c.local)), UpToDate)
  {
  }

  /** What a tick that fails in git leaves behind: never a new revision; the tracking ref as far
  as Fetch and Pull have got; the branch and the files as far as the failing step had come. */
  lemma GitErrorLeaves(c: Clone, env: Environment, sparsePath: Path)
    requires Tick(c, env, sparsePath).1 == GitError
    ensures var c' := Tick(c, env, sparsePath).0;
            && c'.current == c.current
            && (env.fetchFails ==> c' == c)
            && (!env.fetchFails && env.referencesFail ==> c' == c.(tracking := env.remote))
            && (!env.fetchFails && !env.referencesFail && c.local != env.remote ==>
                  && c'.tracking == env.remote
                  && c'.local == (if env.reset.Succeeds? || env.resetMovesBranch then env.remote else c.local)
                  && c'.worktree == match env.reset
                                    case Fails(left) => left
                                    case Succeeds => if env.recheckout.Fails? then env.recheckout.left
                                                     else TreeAt(env.remote))
            && (!env.fetchFails && !env.referencesFail && c.local == env.remote && env.checkout.Fails? ==>
                  c' == c.(tracking := env.remote, worktree := env.checkout.left))
            && (!env.fetchFails && !env.referencesFail && c.local == env.remote && env.checkout.Succeeds? ==>
                  && c'.tracking == (if env.pullFails && !env.pullFetches then env.remote else env.pullRemote)
                  && c'.local == (if !env.pullFails && c.local <= env.pullRemote then env.pullRemote else c.local)
                  && c'.worktree == if !env.pullFails && c.local <= env.pullRemote && env.recheckout.Fails?
                                    then env.recheckout.left else TreeAt(c'.local))
  {
  }

  /** The refs agree, the files are those of the branch, and the recorded revision is the
  newest commit touching the sparse path, if the branch has one. */
  predicate InSync(c: Clone, sparsePath: Path) {
    && c.local == c.tracking
    && c.worktree == TreeAt(c.local)
    && (PathHead(c.local, sparsePath) != ZERO_HASH ==> c.current == PathHead(c.local, sparsePath))
  }

  /** What a Delivery was called with belongs to the revision it is called at.  (The manifests
  are fewer only after a forced push to a branch without any matching commit.) */
  ghost predicate DeliversRecordedRevision(out: Outcome, c: Clone, sparsePath: Path) {
    out.Delivered? ==>
      && out.revision == c.current != ZERO_HASH
      && out.worktree == TreeAt(c.local)
      && ManifestsOf(out.worktree, sparsePath) <= ManifestsAt(out.revision, sparsePath)
      && (PathHead(c.local, sparsePath) != ZERO_HASH ==>
            ManifestsOf(out.worktree, sparsePath) == ManifestsAt(out.revision, sparsePath))
  }

  lemma InSyncDeliversRecordedRevision(out: Outcome, c: Clone, sparsePath: Path)
    requires InSync(c, sparsePath)
    requires out.Delivered? ==> out.revision == c.current != ZERO_HASH && out.worktree == c.worktree
    ensures DeliversRecordedRevision(out, c, sparsePath)
  {
    ManifestsAtPathHead(c.local, sparsePath);
    assert ManifestsAt(ZERO_HASH, sparsePath) == {};
  }

  lemma PublishSyncs(c: Clone, env: Environment, sparsePath: Path)
    requires c.local == c.tracking
    requires Publish(c, env, sparsePath).1 != GitError
    ensures var (c', out) := Publish(c, env, sparsePath);
            && InSync(c', sparsePath)
            && c'.tracking == c.tracking
            && (out.Delivered? ==> out.revision == c'.current != ZERO_HASH && out.worktree == c'.worktree)
  {
  }

  /** One tick without a git error brings a clone into sync, from a fresh start with any refs
  (even mutually stale ones) as well as from sync, and follows the remote it saw. */
  lemma TickSyncs(c: Clone, env: Environment, sparsePath: Path)
    requires c.current == ZERO_HASH || InSync(c, sparsePath)
    requires Tick(c, env, sparsePath).1 != GitError
    ensures InSync(Tick(c, env, sparsePath).0, sparsePath)
    ensures Tick(c, env, sparsePath).0.tracking in {env.remote, env.pullRemote}
    ensures DeliversRecordedRevision(Tick(c, env, sparsePath).1, Tick(c, env, sparsePath).0, sparsePath)
  {
    var out := Tick(c, env, sparsePath).1;
    if c.tracking == env.remote && c.current != ZERO_HASH {
    } else {
      var fetched := c.(tracking := env.remote);
      if fetched.local != fetched.tracking {
        PublishSyncs(fetched.(local := env.remote, worktree := TreeAt(env.remote)), env, sparsePath);
      } else if env.pullRemote == fetched.tracking {
        PublishSyncs(fetched.(worktree := TreeAt(fetched.local)), env, sparsePath);
      } else {
        PublishSyncs(Clone(env.pullRemote, env.pullRemote, TreeAt(env.pullRemote), c.current), env, sparsePath);
      }
    }
    InSyncDeliversRecordedRevision(out, Tick(c, env, sparsePath).0, sparsePath);
  }

  /** The lifecycle invariant: along every run of pushes, fetch failures and failed
  deliveries, starting from any clone at the zero revision, the clone is in sync after every
  tick, or nothing has been fetched yet. */
  lemma {:induction false} SyncedAfterEveryTick(c: Clone, envs: seq<Environment>, sparsePath: Path)
    requires c.current == ZERO_HASH
    requires GitHealthy(c, envs, sparsePath)
    ensures var c' := After(c, envs, sparsePath);
            || InSync(c', sparsePath)
            || (c' == c && forall env <- envs :: env.fetchFails)
    decreases |envs|
  {
    if envs != [] {
      var n := |envs| - 1;
      var before := envs[..n];
      forall m | 0 <= m < n
        ensures before[m].fetchFails || Tick(After(c, before[..m], sparsePath), before[m], sparsePath).1 != GitError
      {
        assert before[..m] == envs[..m];
        assert before[m] == envs[m];
      }
      SyncedAfterEveryTick(c, before, sparsePath);
      assert envs[n].fetchFails || Tick(After(c, envs[..n], sparsePath), envs[n], sparsePath).1 != GitError;
      if !envs[n].fetchFails {
        TickSyncs(After(c, before, sparsePath), envs[n], sparsePath);
      }
    }
  }

  /** A failed Delivery is retried: after any such run, the next tick whose Fetch reports no
  change calls Delivery again, at the recorded revision and with its manifests. */
  lemma QuietTickDeliversAgain(c: Clone, envs: seq<Environment>, env: Environment, sparsePath: Path)
    requires c.current == ZERO_HASH
    requires GitHealthy(c, envs, sparsePath)
    requires After(c, envs, sparsePath).current != ZERO_HASH
    requires !env.fetchFails && env.remote == After(c, envs, sparsePath).tracking
    ensures var c' := After(c, envs, sparsePath);
            && Tick(c', env, sparsePath) == (c', Delivered(c'.current, TreeAt(c'.tracking), env.deliveryFails))
            && ManifestsOf(TreeAt(c'.tracking), sparsePath) <= ManifestsAt(c'.current, sparsePath)
            && (PathHead(env.remote, sparsePath) != ZERO_HASH ==> c'.current == PathHead(env.remote, sparsePath))
  {
    SyncedAfterEveryTick(c, envs, sparsePath);
    TickSyncs(After(c, envs, sparsePath), env, sparsePath);
  }

  /** Fresh start: at the zero revision neither "up to date" exit is taken, so one tick without
  a git error over a stable remote records and delivers the matched head of the remote. */
  lemma FreshStartConverges(c: Clone, env: Environment, sparsePath: Path)
    requires c.current == ZERO_HASH && env.pullRemote == env.remote
    requires Tick(c, env, sparsePath).1 != GitError
    requires PathHead(env.remote, sparsePath) != ZERO_HASH
    ensures var (c', out) := Tick(c, env, sparsePath);
            && c'.local == c'.tracking == env.remote
            && out == Delivered(PathHead(env.remote, sparsePath), TreeAt(env.remote), env.deliveryFails)
            && c'.current == PathHead(env.remote, sparsePath)
  {
  }

  /** The two guards under which a tick returns without looking for a new revision. */
  predicate TakesUpToDateExit(c: Clone, env: Environment) {
    c.current != ZERO_HASH && (c.tracking == env.remote || c.local == env.remote)
  }

  /** From any clone whatever, when a tick without git error over a stable remote records the
  remote's matched head: exactly when no "up to date" exit is taken, or the recorded revision
  was that head already. */
  lemma TickSettlesExactlyWhen(c: Clone, env: Environment, sparsePath: Path)
    requires env.pullRemote == env.remote
    requires Tick(c, env, sparsePath).1 != GitError
    requires PathHead(env.remote, sparsePath) != ZERO_HASH
    ensures Tick(c, env, sparsePath).0.current == PathHead(env.remote, sparsePath)
            <==> !TakesUpToDateExit(c, env) || c.current == PathHead(env.remote, sparsePath)
  {
    if TakesUpToDateExit(c, env) {
      assert Tick(c, env, sparsePath).0.current == c.current;
    }
  }

  /** The tracking ref has moved on to another matched head than the recorded revision. */
  predicate Stale(c: Clone, sparsePath: Path) {
    && c.current != ZERO_HASH
    && PathHead(c.tracking, sparsePath) != ZERO_HASH
    && c.current != PathHead(c.tracking, sparsePath)
  }

  /** When a clone in sync becomes stale: exactly when a tick fetches a new matched head and
  then fails in a later git step. */
  lemma BecomesStaleExactlyWhen(c: Clone, env: Environment, sparsePath: Path)
    requires InSync(c, sparsePath) && c.current != ZERO_HASH
    ensures Stale(Tick(c, env, sparsePath).0, sparsePath)
            <==> (&& !env.fetchFails
                  && (env.referencesFail || env.reset.Fails? || env.recheckout.Fails? || env.logFails)
                  && PathHead(env.remote, sparsePath) !in {ZERO_HASH, c.current})
  {
    if !env.fetchFails && Tick(c, env, sparsePath).1 != GitError {
      TickSyncs(c, env, sparsePath);
    }
  }

  /** A stale clone stays stale as long as the remote does not move: every tick takes the
  first "up to date" exit, whether or not its git steps would now succeed. */
  lemma {:induction false} StaleUntilNextPush(c: Clone, envs: seq<Environment>, sparsePath: Path)
    requires Stale(c, sparsePath)
    requires forall env <- envs :: env.remote == c.tracking
    ensures After(c, envs, sparsePath) == c
    decreases |envs|
  {
    if envs != [] {
      assert envs[|envs| - 1] in envs;
      StaleUntilNextPush(c, envs[..|envs| - 1], sparsePath);
    }
  }

  /** The next push repairs it, unless it pushes back what the local branch already has. */
  lemma PushRepairsStaleClone(c: Clone, env: Environment, sparsePath: Path)
    requires Stale(c, sparsePath)
    requires env.remote != c.tracking && env.remote != c.local
    requires Tick(c, env, sparsePath).1 != GitError
    ensures InSync(Tick(c, env, sparsePath).0, sparsePath)
    ensures Tick(c, env, sparsePath).0.tracking == env.remote
  {
  }

  /** Pushes that do not touch the sparse path change neither the recorded revision nor the
  cluster: the tick that fetches them reports "up to date" and calls no Delivery. */
  lemma IrrelevantPushIsInvisible(c: Clone, pushed: Hash, env: Environment, sparsePath: Path)
    requires InSync(c, sparsePath) && PathHead(c.local, sparsePath) != ZERO_HASH
    requires pushed != [] && Irrelevant(c.local, pushed, sparsePath)
    requires env.remote == c.local + pushed && Tick(c, env, sparsePath).1 != GitError
    ensures Tick(c, env, sparsePath).1 == UpToDate
    ensures Tick(c, env, sparsePath).0 == Clone(env.remote, env.remote, TreeAt(env.remote), c.current)
    ensures InSync(Tick(c, env, sparsePath).0, sparsePath)
  {
    IrrelevantPushesKeepPathHead(c.local, pushed, sparsePath);
    assert |env.remote| > |c.local|;
  }

  /** An environment in which every step succeeds and the remote is `remote`. */
  function Calm(remote: Hash): Environment {
    Environment(remote, false, false, Succeeds, false, Succeeds, false, false, remote, Succeeds, false, false)
  }

  /** A git step that fails has changed no file: a failed reset leaves the files of the clone,
  a failed checkout after the reset those of the commit it was reset to. */
  predicate AllOrNothing(c: Clone, env: Environment) {
    && (env.reset.Fails? ==> env.reset.left == c.worktree)
    && (env.recheckout.Fails? ==> env.recheckout.left == TreeAt(env.remote))
  }

  /** The tick got through Fetch and failed in a later git step. */
  predicate FailsAfterFetch(c: Clone, env: Environment, sparsePath: Path) {
    !env.fetchFails && Tick(c, env, sparsePath).1 == GitError
  }

  /** After such a tick of a clone in sync, a tick that fetches nothing new hands precisely the
  files that the failed one left to the provider, under the old revision. */
  lemma QuietTickDeliversWhatWasLeft(c: Clone, bad: Environment, quiet: Environment, sparsePath: Path)
    requires InSync(c, sparsePath) && c.current != ZERO_HASH && FailsAfterFetch(c, bad, sparsePath)
    requires !quiet.fetchFails && quiet.remote == Tick(c, bad, sparsePath).0.tracking
    ensures var c' := Tick(c, bad, sparsePath).0;
            && c'.tracking == bad.remote && c'.current == c.current
            && Tick(c', quiet, sparsePath) == (c', Delivered(c.current, c'.worktree, quiet.deliveryFails))
  {
  }

  /** When that Delivery applies what its revision says: if the failing step came before the
  files were changed, or the fetched commit has the same manifests.  So a failed checkout
  after the reset mislabels new content, and so does a failing log. */
  lemma QuietTickHonestExactlyWhen(c: Clone, bad: Environment, quiet: Environment, sparsePath: Path)
    requires InSync(c, sparsePath) && PathHead(c.local, sparsePath) != ZERO_HASH
    requires FailsAfterFetch(c, bad, sparsePath) && AllOrNothing(c, bad)
    requires !quiet.fetchFails && quiet.remote == Tick(c, bad, sparsePath).0.tracking
    ensures var out := Tick(Tick(c, bad, sparsePath).0, quiet, sparsePath).1;
            && out.Delivered? && out.revision == c.current
            && (ManifestsOf(out.worktree, sparsePath) == ManifestsAt(out.revision, sparsePath) <==>
                  || bad.referencesFail || bad.reset.Fails?
                  || ManifestsAt(bad.remote, sparsePath) == ManifestsAt(c.current, sparsePath))
  {
    QuietTickDeliversWhatWasLeft(c, bad, quiet, sparsePath);
    ManifestsAtPathHead(c.local, sparsePath);
  }

  /** Such a run exists: when the checkout after the reset fails, the files are already those of
  the new commit, and the next quiet tick hands them to the provider under the old revision. */
  lemma FailedCheckoutMislabelsContent()
    ensures exists c: Clone, bad: Environment, quiet: Environment, sparsePath: Path ::
              && InSync(c, sparsePath) && c.current != ZERO_HASH
              && Tick(c, bad, sparsePath).1 == GitError
              && var (_, out) := Tick(Tick(c, bad, sparsePath).0, quiet, sparsePath);
              && out.Delivered?
              && out.revision == c.current
              && !(ManifestsOf(out.worktree, sparsePath) <= ManifestsAt(out.revision, sparsePath))
  {
    var web := Resource("services", "web", "port 80");
    var t0: Tree := map["a.txt" := Other("hello")];
    var t1: Tree := map["a.txt" := Other("hello"), "web.yaml" := Manifest(web)];
    var h0: Hash := [Commit(0, t0)];
    var h1: Hash := [Commit(0, t0), Commit(1, t1)];
    assert Parent(h0) == ZERO_HASH && TreeAt(h0) == t0 && TreeAt(h1) == t1;
    assert "a.txt" in t0.Keys && !SameAt(t0, TreeAt(Parent(h0)), "a.txt");
    assert PathHead(h0, "") == h0;
    var c := Clone(h0, h0, t0, h0);
    var bad := Calm(h1).(recheckout := Fails(t1));
    var c1 := Tick(c, bad, "").0;
    assert c1 == Clone(h1, h1, t1, h0);
    var out := Tick(c1, Calm(h1), "").1;
    assert out == Delivered(h0, t1, false);
    assert t1["web.yaml"].resource == web;
    assert web in ManifestsOf(t1, "");
    assert web !in ManifestsAt(h0, "");
    assert InSync(c, "");
  }
}
