/**
 * The status enumerations of `src/model.rs` and their integer codes in the
 * SQL store. The `int_enum_sql!` macro gives each enum an integer table (its
 * `ToSql`/`FromSql` pair) and an equality that compares variants only.
 */
module Model {
  import opened Wrappers

  const PULL_REQUEST_STATUS_PENDING: int := 0
  const PULL_REQUEST_STATUS_APPROVED: int := 1
  const PULL_REQUEST_STATUS_REJECTED: int := 2
  const PULL_REQUEST_STATUS_MERGED: int := 3
  const PULL_REQUEST_STATUS_CLOSED: int := 4

  const TEST_STATUS_WAITING: int := 0
  const TEST_STATUS_IN_PROGRESS: int := 1
  const TEST_STATUS_SUCCEEDED: int := 2
  const TEST_STATUS_FAILED: int := 3

  const MERGE_STATUS_WAITING: int := 0
  const MERGE_STATUS_STARTED: int := 1
  const MERGE_STATUS_FAILED: int := 2

  const CHECK_SUITE_STATUS_REQUESTED: int := 0
  const CHECK_SUITE_STATUS_PENDING: int := 1
  const CHECK_SUITE_STATUS_QUEUED: int := 2
  const CHECK_SUITE_STATUS_IN_PROGRESS: int := 3
  const CHECK_SUITE_STATUS_COMPLETED: int := 4

  datatype PullRequestStatus = Pending | Approved | Rejected | Merged | Closed {
    function ToSql(): int {
      match this
      case Pending => PULL_REQUEST_STATUS_PENDING
      case Approved => PULL_REQUEST_STATUS_APPROVED
      case Rejected => PULL_REQUEST_STATUS_REJECTED
      case Merged => PULL_REQUEST_STATUS_MERGED
      case Closed => PULL_REQUEST_STATUS_CLOSED
    }
  }

  /** Decoding a stored code; a code outside the table has no status. */
  function PullRequestStatusFromSql(v: int): (r: Option<PullRequestStatus>)
    ensures r.Some? ==> r.value.ToSql() == v
    ensures r.None? <==> forall s: PullRequestStatus :: s.ToSql() != v
  {
    if v == PULL_REQUEST_STATUS_PENDING then Some(PullRequestStatus.Pending)
    else if v == PULL_REQUEST_STATUS_APPROVED then Some(Approved)
    else if v == PULL_REQUEST_STATUS_REJECTED then Some(Rejected)
    else if v == PULL_REQUEST_STATUS_MERGED then Some(Merged)
    else if v == PULL_REQUEST_STATUS_CLOSED then Some(Closed)
    else None
  }

  datatype TestStatus = Waiting | InProgress | Succeeded | Failed {
    /** Declaration position, what `core::mem::discriminant` distinguishes. */
    function Discriminant(): nat {
      match this
      case Waiting => 0
      case InProgress => 1
      case Succeeded => 2
      case Failed => 3
    }

    /** The macro's `PartialEq`: same variant. */
    predicate Eq(other: TestStatus) {
      Discriminant() == other.Discriminant()
    }

    function ToSql(): int {
      match this
      case Waiting => TEST_STATUS_WAITING
      case InProgress => TEST_STATUS_IN_PROGRESS
      case Succeeded => TEST_STATUS_SUCCEEDED
      case Failed => TEST_STATUS_FAILED
    }
  }

  function TestStatusFromSql(v: int): (r: Option<TestStatus>)
    ensures r.Some? ==> r.value.ToSql() == v
    ensures r.None? <==> forall s: TestStatus :: s.ToSql() != v
  {
    if v == TEST_STATUS_WAITING then Some(TestStatus.Waiting)
    else if v == TEST_STATUS_IN_PROGRESS then Some(TestStatus.InProgress)
    else if v == TEST_STATUS_SUCCEEDED then Some(Succeeded)
    else if v == TEST_STATUS_FAILED then Some(TestStatus.Failed)
    else None
  }

  datatype MergeStatus = Waiting | Started | Failed {
    function Discriminant(): nat {
      match this
      case Waiting => 0
      case Started => 1
      case Failed => 2
    }

    predicate Eq(other: MergeStatus) {
      Discriminant() == other.Discriminant()
    }

    function ToSql(): int {
      match this
      case Waiting => MERGE_STATUS_WAITING
      case Started => MERGE_STATUS_STARTED
      case Failed => MERGE_STATUS_FAILED
    }
  }

  function MergeStatusFromSql(v: int): (r: Option<MergeStatus>)
    ensures r.Some? ==> r.value.ToSql() == v
    ensures r.None? <==> forall s: MergeStatus :: s.ToSql() != v
  {
    if v == MERGE_STATUS_WAITING then Some(MergeStatus.Waiting)
    else if v == MERGE_STATUS_STARTED then Some(Started)
    else if v == MERGE_STATUS_FAILED then Some(MergeStatus.Failed)
    else None
  }

  datatype CheckSuiteStatus = Requested | Pending | Queued | InProgress | Completed {
    function Discriminant(): nat {
      match this
      case Requested => 0
      case Pending => 1
      case Queued => 2
      case InProgress => 3
      case Completed => 4
    }

    predicate Eq(other: CheckSuiteStatus) {
      Discriminant() == other.Discriminant()
    }

    function ToSql(): int {
      match this
      case Requested => CHECK_SUITE_STATUS_REQUESTED
      case Pending => CHECK_SUITE_STATUS_PENDING
      case Queued => CHECK_SUITE_STATUS_QUEUED
      case InProgress => CHECK_SUITE_STATUS_IN_PROGRESS
      case Completed => CHECK_SUITE_STATUS_COMPLETED
    }
  }

  function CheckSuiteStatusFromSql(v: int): (r: Option<CheckSuiteStatus>)
    ensures r.Some? ==> r.value.ToSql() == v
    ensures r.None? <==> forall s: CheckSuiteStatus :: s.ToSql() != v
  {
    if v == CHECK_SUITE_STATUS_REQUESTED then Some(Requested)
    else if v == CHECK_SUITE_STATUS_PENDING then Some(CheckSuiteStatus.Pending)
    else if v == CHECK_SUITE_STATUS_QUEUED then Some(Queued)
    else if v == CHECK_SUITE_STATUS_IN_PROGRESS then Some(CheckSuiteStatus.InProgress)
    else if v == CHECK_SUITE_STATUS_COMPLETED then Some(Completed)
    else None
  }

  /** Every status survives a trip through its integer code, and distinct statuses get distinct codes. */
  lemma CodesRoundTrip()
    ensures forall s: PullRequestStatus :: PullRequestStatusFromSql(s.ToSql()) == Some(s)
    ensures forall s: TestStatus :: TestStatusFromSql(s.ToSql()) == Some(s)
    ensures forall s: MergeStatus :: MergeStatusFromSql(s.ToSql()) == Some(s)
    ensures forall s: CheckSuiteStatus :: CheckSuiteStatusFromSql(s.ToSql()) == Some(s)
    ensures forall s: PullRequestStatus, t: PullRequestStatus :: s.ToSql() == t.ToSql() ==> s == t
    ensures forall s: MergeStatus, t: MergeStatus :: s.ToSql() == t.ToSql() ==> s == t
  {
  }

  /** The variant-only equality is equality: reflexive, symmetric, and true exactly for the same variant. */
  lemma EqIsSameVariant()
    ensures forall a: TestStatus, b: TestStatus :: a.Eq(b) <==> a == b
    ensures forall a: MergeStatus, b: MergeStatus :: a.Eq(b) <==> a == b
    ensures forall a: CheckSuiteStatus, b: CheckSuiteStatus :: a.Eq(b) <==> a == b
  {
  }
}
