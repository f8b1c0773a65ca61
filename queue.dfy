/**
 * The merge queue: `enqueue_merge`, which puts an approved pull request in
 * the `merges` table, and `handle_merge_queue`, one pass of the scheduler
 * that tries every queued pull request once.
 *
 * The store's own failures and GitHub's answers to the merge requests are
 * not computed here: an `Environment` says which store writes fail in a pass
 * and which merges GitHub accepts.
 */
module Queue {
  import opened Wrappers
  import opened Text
  import opened Store
  import opened Merges
  import Github

  // ---------------------------------------------------------------------------
  // enqueue_merge

  /**
   * `enqueue_merge(id)` against the tables `pulls` and `merges`: inserting the
   * row `id ↦ Waiting`, refused when the primary key is taken or no pull
   * request has that id; `connected` is whether the store could be opened.
   */
  function Enqueue(pulls: map<nat, PullRequestRow>, merges: MergeTable, id: nat, connected: bool)
    : (r: Result<MergeTable, StoreError>)
    ensures r.Ok? <==> connected && id !in merges && id in pulls
    ensures r.Err? ==> (r.error == Unavailable <==> !connected)
    ensures connected && id in merges ==> r == Err(UniqueViolation)
    ensures connected && id !in pulls && id !in merges ==> r == Err(ForeignKeyViolation)
    ensures r.Ok? ==> r.value.Keys == merges.Keys + {id} && r.value[id] == Waiting
    ensures r.Ok? ==> forall x :: x in merges ==> r.value[x] == merges[x]
  {
    if !connected then Err(Unavailable)
    else if id in merges then Err(UniqueViolation)
    else if id !in pulls then Err(ForeignKeyViolation)
    else Ok(merges[id := Waiting])
  }

  /** A second enqueue of the same pull request is refused by the primary key. */
  lemma EnqueueTwiceFails(pulls: map<nat, PullRequestRow>, merges: MergeTable, id: nat, connected: bool)
    requires Enqueue(pulls, merges, id, true).Ok?
    ensures connected ==> Enqueue(pulls, Enqueue(pulls, merges, id, true).value, id, connected) == Err(UniqueViolation)
  {
  }

  /** Enqueueing keeps every merge row tied to a stored pull request. */
  lemma EnqueueKeepsBelongsTo(pulls: map<nat, PullRequestRow>, merges: MergeTable, id: nat, connected: bool)
    requires BelongsTo(merges, pulls.Keys)
    ensures match Enqueue(pulls, merges, id, connected)
      case Ok(m) => BelongsTo(m, pulls.Keys)
      case Err(_) => true
  {
  }

  /** `enqueue_merge` on the store. */
  method EnqueueMerge(db: Database, id: nat, connected: bool) returns (r: Result<(), StoreError>)
    requires db.Valid()
    modifies db`merges
    ensures db.Valid()
    ensures match Enqueue(old(db.pulls), old(db.merges), id, connected)
      case Ok(m) => r == Ok(()) && db.merges == m
      case Err(e) => r == Err(e) && db.merges == old(db.merges)
  {
    if !connected {
      return Err(Unavailable);
    }
    if id in db.merges {
      return Err(UniqueViolation);
    }
    if id !in db.pulls {
      return Err(ForeignKeyViolation);
    }
    db.merges := db.merges[id := Waiting];
    r := Ok(());
  }

  // ---------------------------------------------------------------------------
  // What one pass reads

  /** A least element of a non-empty set of ids, chosen in proof only. */
  ghost function SomeLeast(ids: set<nat>): (m: nat)
    requires ids != {}
    ensures m in ids && forall x :: x in ids ==> m <= x
    decreases |ids|
  {
    var y :| y in ids;
    if ids == {y} then y
    else
      var m := SomeLeast(ids - {y});
      assert forall x :: x in ids ==> x == y || x in ids - {y};
      if y < m then y else m
  }

  /** The least id of a non-empty set. */
  function Least(ids: set<nat>): (m: nat)
    requires ids != {}
    ensures m in ids && forall x :: x in ids ==> m <= x
  {
    ghost var w := SomeLeast(ids);
    var m :| m in ids && forall x :: x in ids ==> m <= x;
    m
  }

  /** The ids in ascending order: the order in which the joined query returns the pull requests. */
  function SortedIds(ids: set<nat>): (r: seq<nat>)
    ensures forall x :: x in r <==> x in ids
    ensures forall i, j :: 0 <= i < j < |r| ==> r[i] < r[j]
    decreases |ids|
  {
    if ids == {} then []
    else
      var m := Least(ids);
      [m] + SortedIds(ids - {m})
  }

  /** A pull request with the merge rows the join found for it. */
  datatype Entry = Entry(pull: PullRequestRow, related: seq<MergeRow>)

  /** `find_with_related(MergesEntity).all()`: every pull request, ascending by id, with its rows. */
  function Snapshot(pulls: map<nat, PullRequestRow>, merges: MergeTable): seq<Entry> {
    var ids := SortedIds(pulls.Keys);
    seq(|ids|, k requires 0 <= k < |ids| => Entry(pulls[ids[k]], Related(merges, ids[k])))
  }

  /** `entries` lists the pull requests `ids`, each with its rows in `merges`. */
  predicate Lists(entries: seq<Entry>, pulls: map<nat, PullRequestRow>, merges: MergeTable, ids: seq<nat>) {
    |entries| == |ids|
    && forall k :: 0 <= k < |ids| ==> ids[k] in pulls && entries[k] == Entry(pulls[ids[k]], Related(merges, ids[k]))
  }

  predicate Ascending(ids: seq<nat>) {
    forall i, j :: 0 <= i < j < |ids| ==> ids[i] < ids[j]
  }

  /** The join lists every stored pull request once, in ascending id order, with its queue row if any. */
  lemma SnapshotLists(pulls: map<nat, PullRequestRow>, merges: MergeTable)
    ensures Lists(Snapshot(pulls, merges), pulls, merges, SortedIds(pulls.Keys))
    ensures Ascending(SortedIds(pulls.Keys))
    ensures forall x :: x in SortedIds(pulls.Keys) <==> x in pulls
  {
  }

  // ---------------------------------------------------------------------------
  // The merge request for one pull request

  const U64_MODULUS: int := 0x1_0000_0000_0000_0000

  /** `as u64` on a signed 64-bit integer: the value modulo 2^64. */
  function AsU64(n: int): (r: nat)
    ensures r < U64_MODULUS
    ensures 0 <= n < U64_MODULUS ==> r == n
    ensures -U64_MODULUS / 2 <= n < 0 ==> r == n + U64_MODULUS
  {
    n % U64_MODULUS
  }

  /**
   * `repository.split("/")` with the first two pieces taken as owner and
   * repository name; `None` where `parts.get(1).unwrap()` panics.
   */
  function SplitRepository(repository: string): (r: Option<(string, string)>)
  {
    var parts := Split(repository, '/');
    if |parts| < 2 then None else Some((parts[0], parts[1]))
  }

  predicate NoSlash(s: string) {
    forall k :: 0 <= k < |s| ==> s[k] != '/'
  }

  /** There is no owner and name exactly when the text has no `/`. */
  lemma SplitRepositoryNone(repository: string)
    ensures SplitRepository(repository).None? <==> NoSlash(repository)
  {
    SplitFirst(repository, '/');
  }

  /**
   * The owner is the text before the first `/`, the name the text after it up
   * to the next `/` or the end.
   */
  lemma SplitRepositoryParts(repository: string)
    ensures match SplitRepository(repository)
      case Some((owner, repo)) =>
        NoSlash(owner) && NoSlash(repo) && owner + "/" + repo <= repository
      case None => true
  {
    if |Split(repository, '/')| >= 2 {
      SplitFirst(repository, '/');
      SplitSecondFree(repository, '/');
      SplitSecondPrefix(repository, '/');
    }
  }

  /** A `full_name` "owner/name", possibly followed by more `/` pieces, splits back into owner and name. */
  lemma SplitRepositoryOfFullName(owner: string, repo: string, more: string)
    requires NoSlash(owner) && NoSlash(repo)
    requires more == [] || more[0] == '/'
    ensures SplitRepository(owner + "/" + repo + more) == Some((owner, repo))
  {
    assert owner + "/" + repo + more == owner + ['/'] + (repo + more);
    SplitCons(owner, repo + more, '/');
    if more == [] {
      assert repo + more == repo;
      SplitWithoutSeparator(repo, '/');
    } else {
      assert repo + more == repo + ['/'] + more[1..];
      SplitCons(repo, more[1..], '/');
    }
  }

  /** Why a pass panics on a queued pull request. */
  datatype PanicReason =
    | RepositoryWithoutSlash   // `parts.get(1).unwrap()`
    | MissingApprover          // `approved_by.unwrap()`

  /** The merge request for a queued pull request, or the unwrap that panics first. */
  function MergeRequestFor(pr: PullRequestRow): (r: Result<Github.MergeRequest, PanicReason>)
  {
    match SplitRepository(pr.repository)
    case None => Err(RepositoryWithoutSlash)
    case Some((owner, repo)) =>
      match pr.approvedBy
      case None => Err(MissingApprover)
      case Some(approver) => Ok(Github.MergeRequest(owner, repo, AsU64(pr.number), pr.headRef, approver))
  }

  /** The request names the approver, the head ref and the number as `u64`; the slash is checked first. */
  lemma MergeRequestForFields(pr: PullRequestRow)
    ensures MergeRequestFor(pr) == Err(RepositoryWithoutSlash) <==> NoSlash(pr.repository)
    ensures MergeRequestFor(pr) == Err(MissingApprover) <==> !NoSlash(pr.repository) && pr.approvedBy.None?
    ensures match MergeRequestFor(pr)
      case Ok(m) =>
        Some(m.approver) == pr.approvedBy && m.headRef == pr.headRef && m.number == AsU64(pr.number)
        && m.owner + "/" + m.repo <= pr.repository
      case Err(_) => true
  {
    SplitRepositoryNone(pr.repository);
    SplitRepositoryParts(pr.repository);
  }

  // ---------------------------------------------------------------------------
  // One pass

  /** The store writes a pass makes on a merge row. */
  datatype Write = MarkStarted(id: nat) | MarkFailed(id: nat) | Dequeue(id: nat)

  /**
   * What a pass cannot compute: whether the store could be read, which
   * writes fail, and which pull requests GitHub merges.
   */
  datatype Environment = Environment(readFails: bool, failingWrites: set<Write>, acceptedMerges: set<nat>)

  /** How a pass ends: `Ok(())`, an `Err` from the store, or a panic. */
  datatype PassEnd = Completed | StoreFailed(write: Option<Write>) | Panicked(pullId: nat, reason: PanicReason)

  /** The merge table, the merge requests sent so far and how the pass ended. */
  datatype PassState = PassState(merges: MergeTable, calls: seq<Github.MergeRequest>, end: PassEnd)

  /** The body of the loop of `handle_merge_queue` for one pull request. */
  function Visit(e: Entry, env: Environment, st: PassState): (r: PassState)
    requires st.end.Completed?
  {
    if |e.related| != 1 then st
    else
      match MergeRequestFor(e.pull)
      case Err(reason) => st.(end := Panicked(e.pull.id, reason))
      case Ok(request) =>
        var id := e.related[0].pullRequestId;
        if MarkStarted(id) in env.failingWrites then st.(end := StoreFailed(Some(MarkStarted(id))))
        else
          var started := st.merges[id := Started];
          var calls := st.calls + [request];
          if id in env.acceptedMerges then
            if Dequeue(id) in env.failingWrites then PassState(started, calls, StoreFailed(Some(Dequeue(id))))
            else PassState(started - {id}, calls, Completed)
          else if MarkFailed(id) in env.failingWrites then PassState(started, calls, StoreFailed(Some(MarkFailed(id))))
          else PassState(started[id := Failed], calls, Completed)
  }

  /** The first `n` entries visited in order; after a failure the rest is not visited. */
  function Pass(entries: seq<Entry>, env: Environment, merges0: MergeTable, n: nat): PassState
    requires n <= |entries|
  {
    if n == 0 then PassState(merges0, [], Completed)
    else
      var st := Pass(entries, env, merges0, n - 1);
      if st.end.Completed? then Visit(entries[n - 1], env, st) else st
  }

  /** `handle_merge_queue` as a function of the tables and the environment. */
  function RunPass(pulls: map<nat, PullRequestRow>, merges: MergeTable, env: Environment): PassState {
    if env.readFails then PassState(merges, [], StoreFailed(None))
    else
      var entries := Snapshot(pulls, merges);
      Pass(entries, env, merges, |entries|)
  }

  /** `handle_merge_queue` on the store: returns the merge requests sent and how the pass ended. */
  method HandleMergeQueue(db: Database, env: Environment) returns (calls: seq<Github.MergeRequest>, end: PassEnd)
    requires db.Valid()
    modifies db`merges
    ensures db.Valid()
    ensures db.pulls == old(db.pulls)
    ensures PassState(db.merges, calls, end) == RunPass(old(db.pulls), old(db.merges), env)
  {
    calls := [];
    if env.readFails {
      return calls, StoreFailed(None);
    }
    var pullsWithMerges := Snapshot(db.pulls, db.merges);
    SnapshotLists(db.pulls, db.merges);
    calls, end := MergeAll(db, pullsWithMerges, env);
  }

  /** Queue rows named by the entries: every row the join found is a row of `merges`. */
  predicate FoundIn(entries: seq<Entry>, merges: MergeTable) {
    forall k :: 0 <= k < |entries| ==> |entries[k].related| == 1 ==> entries[k].related[0].pullRequestId in merges
  }

  /** The loop of `handle_merge_queue` over the fetched pull requests. */
  method MergeAll(db: Database, entries: seq<Entry>, env: Environment) returns (calls: seq<Github.MergeRequest>, end: PassEnd)
    requires FoundIn(entries, db.merges)
    modifies db`merges
    ensures db.merges.Keys <= old(db.merges).Keys
    ensures PassState(db.merges, calls, end) == Pass(entries, env, old(db.merges), |entries|)
  {
    calls := [];
    ghost var merges0 := db.merges;
    for i := 0 to |entries|
      invariant db.merges.Keys <= merges0.Keys
      invariant Pass(entries, env, merges0, i) == PassState(db.merges, calls, Completed)
    {
      var entry := entries[i];
      calls, end := MergeOne(db, entry, env, calls);
      if !end.Completed? {
        PassStops(entries, env, merges0, i + 1, |entries|);
        return;
      }
    }
    end := Completed;
  }

  /**
   * The body of the loop of `handle_merge_queue` for one pull request and its
   * merge rows: appends the merge request sent, if any, to `calls0`.
   */
  method MergeOne(db: Database, entry: Entry, env: Environment, calls0: seq<Github.MergeRequest>)
    returns (calls: seq<Github.MergeRequest>, end: PassEnd)
    modifies db`merges
    ensures PassState(db.merges, calls, end) == Visit(entry, env, PassState(old(db.merges), calls0, Completed))
    ensures |entry.related| != 1 ==> db.merges == old(db.merges)
    ensures |entry.related| == 1 ==> db.merges.Keys <= old(db.merges).Keys + {entry.related[0].pullRequestId}
  {
    calls, end := calls0, Completed;
    var pr, merges := entry.pull, entry.related;
    if |merges| == 0 || |merges| > 1 {
      return;
    }
    var parts := Split(pr.repository, '/');
    if |parts| < 2 {
      return calls, Panicked(pr.id, RepositoryWithoutSlash);
    }
    var owner, repo := parts[0], parts[1];
    if pr.approvedBy.None? {
      return calls, Panicked(pr.id, MissingApprover);
    }
    var approver := pr.approvedBy.value;
    var id := merges[0].pullRequestId;
    if MarkStarted(id) in env.failingWrites {
      return calls, StoreFailed(Some(MarkStarted(id)));
    }
    db.merges := db.merges[id := Started];
    calls := calls + [Github.MergeRequest(owner, repo, AsU64(pr.number), pr.headRef, approver)];
    if id !in env.acceptedMerges {
      if MarkFailed(id) in env.failingWrites {
        return calls, StoreFailed(Some(MarkFailed(id)));
      }
      db.merges := db.merges[id := Failed];
    } else {
      if Dequeue(id) in env.failingWrites {
        return calls, StoreFailed(Some(Dequeue(id)));
      }
      db.merges := db.merges - {id};
    }
  }

  /** Once a pass has failed, the remaining pull requests are not visited. */
  lemma {:induction false} PassStops(entries: seq<Entry>, env: Environment, merges0: MergeTable, i: nat, n: nat)
    requires i <= n <= |entries|
    requires !Pass(entries, env, merges0, i).end.Completed?
    ensures Pass(entries, env, merges0, n) == Pass(entries, env, merges0, i)
    decreases n
  {
    if n > i {
      PassStops(entries, env, merges0, i, n - 1);
    }
  }

  // ---------------------------------------------------------------------------
  // What a pass does to the queue

  /** One visit writes only the row of the pull request visited, and sends at most one request. */
  lemma VisitFrame(e: Entry, env: Environment, st: PassState)
    requires st.end.Completed?
    ensures |e.related| != 1 ==> Visit(e, env, st) == st
    ensures |e.related| == 1 ==> forall x :: x != e.related[0].pullRequestId ==>
      (x in Visit(e, env, st).merges <==> x in st.merges)
      && (x in st.merges ==> Visit(e, env, st).merges[x] == st.merges[x])
    ensures |e.related| == 1 ==> Visit(e, env, st).merges.Keys <= st.merges.Keys + {e.related[0].pullRequestId}
    ensures Visit(e, env, st).end.Completed? && |e.related| == 1 ==>
      var id := e.related[0].pullRequestId;
      MergeRequestFor(e.pull).Ok?
      && Visit(e, env, st).calls == st.calls + [MergeRequestFor(e.pull).value]
      && (id in env.acceptedMerges ==> id !in Visit(e, env, st).merges)
      && (id !in env.acceptedMerges ==> id in Visit(e, env, st).merges && Visit(e, env, st).merges[id] == Failed)
  {
  }

  /**
   * The row is marked `Started` before the merge call. If that write fails,
   * no request is sent and the table is untouched. If the write after the
   * call fails (`Failed` for a refused merge, the delete for an accepted
   * one), the request has been sent and the row is left `Started`.
   */
  lemma VisitMarksStarted(e: Entry, env: Environment, st: PassState)
    requires st.end.Completed? && |e.related| == 1 && MergeRequestFor(e.pull).Ok?
    ensures var id, r := e.related[0].pullRequestId, Visit(e, env, st);
      var request := MergeRequestFor(e.pull).value;
      (r.end == StoreFailed(Some(MarkStarted(id))) <==> MarkStarted(id) in env.failingWrites)
      && (MarkStarted(id) in env.failingWrites ==> r.calls == st.calls && r.merges == st.merges)
      && (MarkStarted(id) !in env.failingWrites ==> r.calls == st.calls + [request])
      && (r.end == StoreFailed(Some(MarkFailed(id))) <==>
            MarkStarted(id) !in env.failingWrites && id !in env.acceptedMerges && MarkFailed(id) in env.failingWrites)
      && (r.end == StoreFailed(Some(Dequeue(id))) <==>
            MarkStarted(id) !in env.failingWrites && id in env.acceptedMerges && Dequeue(id) in env.failingWrites)
      && (r.end == StoreFailed(Some(MarkFailed(id))) || r.end == StoreFailed(Some(Dequeue(id))) ==>
            r.merges == st.merges[id := Started])
  {
  }

  /**
   * After the first `n` pull requests, the table has no new key, and the rows
   * of the pull requests not yet visited are as they were.
   */
  lemma {:induction false} PassUntouched(entries: seq<Entry>, pulls: map<nat, PullRequestRow>, merges0: MergeTable, ids: seq<nat>, env: Environment, n: nat)
    requires Lists(entries, pulls, merges0, ids) && n <= |entries|
    ensures var st := Pass(entries, env, merges0, n);
      st.merges.Keys <= merges0.Keys
      && forall x :: x in merges0 && x !in ids[..n] ==> x in st.merges && st.merges[x] == merges0[x]
  {
    if n > 0 {
      PassUntouched(entries, pulls, merges0, ids, env, n - 1);
      var st := Pass(entries, env, merges0, n - 1);
      if st.end.Completed? {
        VisitUntouched(entries[n - 1], env, st, merges0, ids[..n - 1], ids[n - 1]);
        assert ids[..n] == ids[..n - 1] + [ids[n - 1]];
      }
    }
  }

  /** One visit keeps the table within the original keys and leaves the other original rows alone. */
  lemma VisitUntouched(e: Entry, env: Environment, st: PassState, merges0: MergeTable, before: seq<nat>, id: nat)
    requires st.end.Completed? && e.related == Related(merges0, id)
    requires st.merges.Keys <= merges0.Keys
    requires forall x :: x in merges0 && x !in before ==> x in st.merges && st.merges[x] == merges0[x]
    ensures var after := Visit(e, env, st);
      after.merges.Keys <= merges0.Keys
      && forall x :: x in merges0 && x !in before + [id] ==> x in after.merges && after.merges[x] == merges0[x]
  {
    VisitFrame(e, env, st);
    var after := Visit(e, env, st);
    forall x | x in merges0 && x !in before + [id] ensures x in after.merges && after.merges[x] == merges0[x] {
      assert x !in before && x != id;
    }
  }

  /** A queued pull request whose merge was attempted: its row is gone if GitHub merged it, else `Failed`. */
  predicate Settled(pulls: map<nat, PullRequestRow>, env: Environment, merges: MergeTable, id: nat)
    requires id in pulls
  {
    MergeRequestFor(pulls[id]).Ok?
    && (id in env.acceptedMerges ==> id !in merges)
    && (id !in env.acceptedMerges ==> id in merges && merges[id] == Failed)
  }

  /** The ids among `ids` that have a merge row, in the order of `ids`. */
  function Queued(ids: seq<nat>, merges: MergeTable): (r: seq<nat>)
    ensures forall x :: x in r <==> x in ids && x in merges
  {
    if ids == [] then []
    else
      var last := ids[|ids| - 1];
      Queued(ids[..|ids| - 1], merges) + (if last in merges then [last] else [])
  }

  /** The merge requests of a pass are those of the queued pull requests, in order. */
  predicate RequestsOf(calls: seq<Github.MergeRequest>, pulls: map<nat, PullRequestRow>, q: seq<nat>) {
    |calls| == |q| && forall j :: 0 <= j < |q| ==> q[j] in pulls && MergeRequestFor(pulls[q[j]]) == Ok(calls[j])
  }

  /** Visiting without failure through the first `n` pull requests settles every queued one among them. */
  lemma {:induction false} PassSettles(entries: seq<Entry>, pulls: map<nat, PullRequestRow>, merges0: MergeTable, ids: seq<nat>, env: Environment, n: nat)
    requires Lists(entries, pulls, merges0, ids) && Ascending(ids) && n <= |entries|
    requires Pass(entries, env, merges0, n).end.Completed?
    ensures forall k :: 0 <= k < n && ids[k] in merges0 ==> Settled(pulls, env, Pass(entries, env, merges0, n).merges, ids[k])
  {
    if n > 0 {
      var st0 := Pass(entries, env, merges0, n - 1);
      PassSettles(entries, pulls, merges0, ids, env, n - 1);
      VisitFrame(entries[n - 1], env, st0);
      var st := Pass(entries, env, merges0, n);
      forall k | 0 <= k < n && ids[k] in merges0
        ensures Settled(pulls, env, st.merges, ids[k])
      {
        if k < n - 1 {
          assert ids[k] < ids[n - 1];
        }
      }
    }
  }

  /** Visiting without failure through the first `n` pull requests sends one request per queued one, in order. */
  lemma {:induction false} PassRequests(entries: seq<Entry>, pulls: map<nat, PullRequestRow>, merges0: MergeTable, ids: seq<nat>, env: Environment, n: nat)
    requires Lists(entries, pulls, merges0, ids) && n <= |entries|
    requires Pass(entries, env, merges0, n).end.Completed?
    ensures RequestsOf(Pass(entries, env, merges0, n).calls, pulls, Queued(ids[..n], merges0))
  {
    if n > 0 {
      var st0 := Pass(entries, env, merges0, n - 1);
      var id := ids[n - 1];
      assert st0.end.Completed?;
      PassRequests(entries, pulls, merges0, ids, env, n - 1);
      VisitFrame(entries[n - 1], env, st0);
      assert ids[..n][..n - 1] == ids[..n - 1];
      assert Queued(ids[..n], merges0) == Queued(ids[..n - 1], merges0) + (if id in merges0 then [id] else []);
      if id in merges0 {
        RequestsOfSnoc(st0.calls, pulls, Queued(ids[..n - 1], merges0), id, MergeRequestFor(pulls[id]).value);
      } else {
        assert Queued(ids[..n], merges0) == Queued(ids[..n - 1], merges0);
      }
    }
  }

  lemma RequestsOfSnoc(calls: seq<Github.MergeRequest>, pulls: map<nat, PullRequestRow>, q: seq<nat>, id: nat, request: Github.MergeRequest)
    requires RequestsOf(calls, pulls, q)
    requires id in pulls && MergeRequestFor(pulls[id]) == Ok(request)
    ensures RequestsOf(calls + [request], pulls, q + [id])
  {
  }

  /** Keeping the elements of an ascending sequence keeps it ascending. */
  lemma {:induction false} QueuedAscending(ids: seq<nat>, merges: MergeTable)
    requires Ascending(ids)
    ensures Ascending(Queued(ids, merges))
    decreases |ids|
  {
    if ids != [] {
      var init := ids[..|ids| - 1];
      QueuedAscending(init, merges);
      var q0 := Queued(init, merges);
      var q := Queued(ids, merges);
      forall x | x in q0 ensures x < ids[|ids| - 1] {
        var k :| 0 <= k < |init| && init[k] == x;
        assert ids[k] == x;
      }
      assert q == q0 + (if ids[|ids| - 1] in merges then [ids[|ids| - 1]] else []);
      forall i, j | 0 <= i < j < |q| ensures q[i] < q[j] {
        if j >= |q0| {
          assert q[i] in q0;
        }
      }
    }
  }

  /** After a completed pass every queued pull request is settled, and no row was added. */
  lemma CompletedPassSettles(pulls: map<nat, PullRequestRow>, merges: MergeTable, env: Environment)
    requires BelongsTo(merges, pulls.Keys)
    requires RunPass(pulls, merges, env).end.Completed?
    ensures RunPass(pulls, merges, env).merges.Keys <= merges.Keys
    ensures forall id :: id in merges ==> Settled(pulls, env, RunPass(pulls, merges, env).merges, id)
  {
    var entries := Snapshot(pulls, merges);
    var ids := SortedIds(pulls.Keys);
    SnapshotLists(pulls, merges);
    var n := |entries|;
    PassUntouched(entries, pulls, merges, ids, env, n);
    PassSettles(entries, pulls, merges, ids, env, n);
    forall id | id in merges ensures Settled(pulls, env, RunPass(pulls, merges, env).merges, id) {
      var k :| 0 <= k < n && ids[k] == id;
    }
  }

  /**
   * A pass that completes has tried every queued pull request once: the rows
   * GitHub merged are gone and every other row is `Failed`.
   */
  lemma CompletedPass(pulls: map<nat, PullRequestRow>, merges: MergeTable, env: Environment)
    requires BelongsTo(merges, pulls.Keys)
    requires RunPass(pulls, merges, env).end.Completed?
    ensures RunPass(pulls, merges, env).merges == map id | id in merges && id !in env.acceptedMerges :: Failed
    ensures forall id :: id in merges ==> MergeRequestFor(pulls[id]).Ok?
  {
    CompletedPassSettles(pulls, merges, env);
    SettledTable(pulls, env, merges, RunPass(pulls, merges, env).merges);
  }

  /** A table without new keys in which every queued pull request is settled. */
  lemma SettledTable(pulls: map<nat, PullRequestRow>, env: Environment, merges: MergeTable, after: MergeTable)
    requires merges.Keys <= pulls.Keys && after.Keys <= merges.Keys
    requires forall id :: id in merges ==> Settled(pulls, env, after, id)
    ensures after == map id | id in merges && id !in env.acceptedMerges :: Failed
    ensures forall id :: id in merges ==> MergeRequestFor(pulls[id]).Ok?
  {
  }

  /**
   * A pass that completes sent one merge request per queued pull request, in
   * ascending order of pull request id.
   */
  lemma CompletedPassRequests(pulls: map<nat, PullRequestRow>, merges: MergeTable, env: Environment)
    requires BelongsTo(merges, pulls.Keys)
    requires RunPass(pulls, merges, env).end.Completed?
    ensures var q := Queued(SortedIds(pulls.Keys), merges);
      (forall x :: x in q <==> x in merges) && Ascending(q)
      && RequestsOf(RunPass(pulls, merges, env).calls, pulls, q)
  {
    var entries := Snapshot(pulls, merges);
    var ids := SortedIds(pulls.Keys);
    SnapshotLists(pulls, merges);
    assert ids[..|entries|] == ids;
    PassRequests(entries, pulls, merges, ids, env, |entries|);
    QueuedAscending(ids, merges);
  }

  /** A queued pull request without an approver makes every pass panic or fail. */
  lemma QueuedWithoutApproverNeverCompletes(pulls: map<nat, PullRequestRow>, merges: MergeTable, env: Environment, id: nat)
    requires BelongsTo(merges, pulls.Keys)
    requires id in merges && pulls[id].approvedBy.None?
    ensures !RunPass(pulls, merges, env).end.Completed?
  {
    if RunPass(pulls, merges, env).end.Completed? {
      CompletedPass(pulls, merges, env);
      MergeRequestForFields(pulls[id]);
    }
  }

  /** Two entries alike but for the statuses of their rows. */
  predicate SameShape(e1: Entry, e2: Entry) {
    e1.pull == e2.pull && |e1.related| == |e2.related|
    && (|e1.related| == 1 ==> e1.related[0].pullRequestId == e2.related[0].pullRequestId)
  }

  /** Visits of two such entries from alike states lead to alike states. */
  lemma VisitIgnoresStatus(e1: Entry, e2: Entry, s1: PassState, s2: PassState, env: Environment)
    requires SameShape(e1, e2)
    requires s1.end.Completed? && s2.end.Completed? && s1.calls == s2.calls && s1.merges.Keys == s2.merges.Keys
    ensures Visit(e1, env, s1).calls == Visit(e2, env, s2).calls
    ensures Visit(e1, env, s1).end == Visit(e2, env, s2).end
    ensures Visit(e1, env, s1).merges.Keys == Visit(e2, env, s2).merges.Keys
  {
  }

  /** Passes over entries that differ only in row statuses make the same requests and end alike. */
  lemma {:induction false} PassIgnoresStatus(es1: seq<Entry>, es2: seq<Entry>, m1: MergeTable, m2: MergeTable, env: Environment, n: nat)
    requires |es1| == |es2| && n <= |es1|
    requires forall k :: 0 <= k < |es1| ==> SameShape(es1[k], es2[k])
    requires m1.Keys == m2.Keys
    ensures var s1 := Pass(es1, env, m1, n);
      var s2 := Pass(es2, env, m2, n);
      s1.calls == s2.calls && s1.end == s2.end && s1.merges.Keys == s2.merges.Keys
  {
    if n > 0 {
      PassIgnoresStatus(es1, es2, m1, m2, env, n - 1);
      var s1, s2 := Pass(es1, env, m1, n - 1), Pass(es2, env, m2, n - 1);
      if s1.end.Completed? {
        VisitIgnoresStatus(es1[n - 1], es2[n - 1], s1, s2, env);
      }
    }
  }

  /**
   * The status of a row is never read: from tables with the same keys a pass
   * sends the same merge requests and ends the same way, so `Failed` and
   * `Started` rows are tried again exactly like `Waiting` ones.
   */
  lemma StatusNeverConsulted(pulls: map<nat, PullRequestRow>, m1: MergeTable, m2: MergeTable, env: Environment)
    requires m1.Keys == m2.Keys
    ensures RunPass(pulls, m1, env).calls == RunPass(pulls, m2, env).calls
    ensures RunPass(pulls, m1, env).end == RunPass(pulls, m2, env).end
  {
    var es1, es2 := Snapshot(pulls, m1), Snapshot(pulls, m2);
    SnapshotLists(pulls, m1);
    SnapshotLists(pulls, m2);
    var ids := SortedIds(pulls.Keys);
    forall k | 0 <= k < |es1| ensures SameShape(es1[k], es2[k]) {
      assert es1[k].related == Related(m1, ids[k]);
      assert es2[k].related == Related(m2, ids[k]);
    }
    PassIgnoresStatus(es1, es2, m1, m2, env, |es1|);
  }

  /**
   * A merge that GitHub refused is sent again on the next pass: the row is
   * left `Failed`, and the pass does not look at the status.
   */
  lemma FailedMergesRetried(pulls: map<nat, PullRequestRow>, merges: MergeTable, first: Environment, second: Environment)
    requires BelongsTo(merges, pulls.Keys)
    requires RunPass(pulls, merges, first).end.Completed?
    requires RunPass(pulls, RunPass(pulls, merges, first).merges, second).end.Completed?
    ensures var after := RunPass(pulls, merges, first).merges;
      var q := Queued(SortedIds(pulls.Keys), after);
      (forall x :: x in q <==> x in merges && x !in first.acceptedMerges)
      && RequestsOf(RunPass(pulls, after, second).calls, pulls, q)
  {
    var after := RunPass(pulls, merges, first).merges;
    CompletedPass(pulls, merges, first);
    CompletedPassRequests(pulls, after, second);
  }

  // ---------------------------------------------------------------------------
  // queue_server

  /**
   * The passes of `queue_server`, one per environment: the loop goes on while
   * passes complete; the first one that fails or panics brings the server
   * down (`unwrap` on its `Err`).
   */
  function Serve(pulls: map<nat, PullRequestRow>, merges: MergeTable, envs: seq<Environment>): PassState {
    ServeWith((table: MergeTable, env: Environment) => RunPass(pulls, table, env), merges, envs)
  }

  /** The server loop for any pass `pass` from a merge table and an environment. */
  function ServeWith(pass: (MergeTable, Environment) -> PassState, merges: MergeTable, envs: seq<Environment>): PassState
    decreases |envs|
  {
    if envs == [] then PassState(merges, [], Completed)
    else
      var st := pass(merges, envs[0]);
      if !st.end.Completed? then st
      else
        var rest := ServeWith(pass, st.merges, envs[1..]);
        rest.(calls := st.calls + rest.calls)
  }

  /**
   * Serving `first` and then `second` is serving `first` and, only if its
   * last pass completed, `second` on the table it left: a failed pass ends
   * the server, and no later pass runs.
   */
  lemma ServeConcat(pulls: map<nat, PullRequestRow>, merges: MergeTable, first: seq<Environment>, second: seq<Environment>)
    ensures var a := Serve(pulls, merges, first);
      Serve(pulls, merges, first + second) ==
        if !a.end.Completed? then a
        else
          var b := Serve(pulls, a.merges, second);
          b.(calls := a.calls + b.calls)
  {
    ServeWithConcat((table: MergeTable, env: Environment) => RunPass(pulls, table, env), merges, first, second);
  }

  lemma {:induction false} ServeWithConcat(pass: (MergeTable, Environment) -> PassState, merges: MergeTable,
                                           first: seq<Environment>, second: seq<Environment>)
    ensures var a := ServeWith(pass, merges, first);
      ServeWith(pass, merges, first + second) ==
        if !a.end.Completed? then a
        else
          var b := ServeWith(pass, a.merges, second);
          b.(calls := a.calls + b.calls)
    decreases |first|
  {
    if first == [] {
      assert first + second == second;
    } else {
      var st := pass(merges, first[0]);
      var all := first + second;
      assert all[0] == first[0] && all[1..] == first[1..] + second;
      if st.end.Completed? {
        var a', r := ServeWith(pass, st.merges, first[1..]), ServeWith(pass, st.merges, first[1..] + second);
        assert ServeWith(pass, merges, first) == a'.(calls := st.calls + a'.calls);
        assert ServeWith(pass, merges, all) == r.(calls := st.calls + r.calls);
        ServeWithConcat(pass, st.merges, first[1..], second);
        if a'.end.Completed? {
          var b := ServeWith(pass, a'.merges, second);
          assert st.calls + (a'.calls + b.calls) == (st.calls + a'.calls) + b.calls;
        }
      }
    }
  }

  /** `queue_server`, run for the passes in `envs` or until one fails. */
  method QueueServer(db: Database, envs: seq<Environment>) returns (calls: seq<Github.MergeRequest>, end: PassEnd)
    requires db.Valid()
    modifies db`merges
    ensures db.Valid()
    ensures PassState(db.merges, calls, end) == Serve(old(db.pulls), old(db.merges), envs)
  {
    calls, end := [], Completed;
    var p := 0;
    while p < |envs| && end.Completed?
      invariant 0 <= p <= |envs|
      invariant db.Valid() && db.pulls == old(db.pulls)
      invariant var rest := Serve(db.pulls, db.merges, envs[p..]);
        end.Completed? ==> Serve(old(db.pulls), old(db.merges), envs) == rest.(calls := calls + rest.calls)
      invariant !end.Completed? ==> Serve(old(db.pulls), old(db.merges), envs) == PassState(db.merges, calls, end)
      decreases |envs| - p, end.Completed?
    {
      ghost var before := db.merges;
      ghost var sofar := calls;
      var more, passEnd := HandleMergeQueue(db, envs[p]);
      assert envs[p..][1..] == envs[p + 1..];
      calls := calls + more;
      end := passEnd;
      p := p + 1;
    }
    if end.Completed? {
      assert envs[p..] == [];
    }
  }
}
