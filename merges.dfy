/**
 * The `merges` entity: one queue row per pull request, keyed by
 * `pull_request_id`, whose status is stored as an integer.
 */
module Merges {
  import opened Wrappers
  import Model

  datatype MergeStatus = Waiting | Started | Failed {
    /** The `num_value` of each variant. */
    function NumValue(): int {
      match this
      case Waiting => 0
      case Started => 1
      case Failed => 2
    }
  }

  function FromNumValue(v: int): (r: Option<MergeStatus>)
    ensures r.Some? ==> r.value.NumValue() == v
    ensures r.None? <==> forall s: MergeStatus :: s.NumValue() != v
  {
    if v == 0 then Some(Waiting)
    else if v == 1 then Some(Started)
    else if v == 2 then Some(Failed)
    else None
  }

  /** A row of the table. */
  datatype MergeRow = MergeRow(pullRequestId: nat, status: MergeStatus)

  /**
   * The table itself: `pull_request_id` is the primary key, so the table is a
   * map from that key to the row's status.
   */
  type MergeTable = map<nat, MergeStatus>

  /** The rows related to one pull request, as a join on `pull_request_id` returns them. */
  function Related(table: MergeTable, pullRequestId: nat): (rows: seq<MergeRow>)
    ensures |rows| <= 1
    ensures rows == [] <==> pullRequestId !in table
    ensures forall k :: 0 <= k < |rows| ==>
      rows[k].pullRequestId == pullRequestId && rows[k].status == table[pullRequestId]
  {
    if pullRequestId in table then [MergeRow(pullRequestId, table[pullRequestId])] else []
  }

  /** The belongs-to relation: every row's key is the `id` of a stored pull request. */
  predicate BelongsTo(table: MergeTable, pullRequestIds: set<nat>) {
    table.Keys <= pullRequestIds
  }

  /** The entity's codes and the `MergeStatus` table of src/model.rs agree code by code. */
  lemma CodesAgreeWithModel(v: int)
    ensures FromNumValue(v) == Some(Waiting) <==> Model.MergeStatusFromSql(v) == Some(Model.MergeStatus.Waiting)
    ensures FromNumValue(v) == Some(Started) <==> Model.MergeStatusFromSql(v) == Some(Model.MergeStatus.Started)
    ensures FromNumValue(v) == Some(Failed) <==> Model.MergeStatusFromSql(v) == Some(Model.MergeStatus.Failed)
    ensures FromNumValue(v).None? <==> Model.MergeStatusFromSql(v).None?
  {
  }

  lemma NumValueRoundTrip(s: MergeStatus)
    ensures FromNumValue(s.NumValue()) == Some(s)
  {
  }
}
