/**
 * The state store: the `pull_requests` and `merges` tables, held as maps
 * keyed by their primary keys and updated in place by the bot's handlers
 * and by the merge scheduler.
 */
module Store {
  import opened Wrappers
  import opened Model
  import Merges

  /** A `pull_requests` row; `number` is an SQLite `INTEGER`, the rest as in the schema. */
  datatype PullRequestRow = PullRequestRow(
    id: nat,
    number: int,
    repository: string,
    status: PullRequestStatus,
    mergeCommitId: Option<string>,
    headCommitId: string,
    headRef: string,
    baseRef: string,
    assignee: Option<string>,
    approvedBy: Option<string>,
    priority: int,
    tryTest: bool,
    rollup: bool,
    squash: bool,
    delegate: Option<string>)

  /** Why the store refused a write. */
  datatype StoreError =
    | UniqueViolation       // the primary key is taken
    | ForeignKeyViolation   // a merge row for a pull request that is not stored
    | NotNullViolation      // a NOT NULL column left empty
    | Unavailable           // the database could not be reached or written

  class Database {
    var pulls: map<nat, PullRequestRow>
    var merges: Merges.MergeTable

    /** Rows sit under their own `id`, and every merge row belongs to a stored pull request. */
    ghost predicate Valid()
      reads this
    {
      && (forall id | id in pulls :: pulls[id].id == id)
      && Merges.BelongsTo(merges, pulls.Keys)
    }

    constructor ()
      ensures Valid() && pulls == map[] && merges == map[]
    {
      pulls := map[];
      merges := map[];
    }
  }
}
