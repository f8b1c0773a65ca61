/**
 * The action handlers: the writes to the `pull_requests` table, and what the
 * `ping`, `set_assignee`, `remove_assignee` and `approve_pull` handlers ask of
 * GitHub and of the store. A GitHub call's answer is an input; a handler's
 * effect is the list of requests it sends and whether it panics.
 */
module Actions {
  import opened Wrappers
  import opened Text
  import opened Github
  import Model
  import Store
  import Merges
  import Queue
  import Command

  // ---------------------------------------------------------------------------
  // Writes to the pull_requests table

  /**
   * The row `save_pull_to_db` inserts for a pull request opened in `repo`;
   * `None` when a label is missing, which the NOT NULL `head_ref` or
   * `base_ref` column refuses.
   */
  function NewRow(pr: PullRequest, repo: Repository): (r: Option<Store.PullRequestRow>)
    ensures r.None? <==> pr.head.refLabel.None? || pr.base.refLabel.None?
    ensures r.Some? ==>
      && r.value.id == pr.id && r.value.repository == repo.fullName
      && r.value.status == Model.PullRequestStatus.Pending
      && r.value.mergeCommitId == pr.mergeCommitSha && r.value.headCommitId == pr.head.sha
      && Some(r.value.headRef) == pr.head.refLabel && Some(r.value.baseRef) == pr.base.refLabel
      && (pr.assignee.Some? <==> r.value.assignee.Some?)
      && (pr.assignee.Some? ==> r.value.assignee.value == pr.assignee.value.login)
    ensures r.Some? ==>
      && r.value.number == 0 && r.value.approvedBy.None? && r.value.priority == 0
      && !r.value.tryTest && !r.value.rollup && !r.value.squash && r.value.delegate.None?
  {
    match (pr.head.refLabel, pr.base.refLabel)
    case (Some(headRef), Some(baseRef)) =>
      var assignee := match pr.assignee case Some(u) => Some(u.login) case None => None;
      Some(Store.PullRequestRow(
        pr.id, 0, repo.fullName, Model.PullRequestStatus.Pending, pr.mergeCommitSha,
        pr.head.sha, headRef, baseRef, assignee, None, 0, false, false, false, None))
    case _ => None
  }

  /** The insert of `save_pull_to_db`: NOT NULL is checked before the primary key. */
  function InsertPull(pulls: map<nat, Store.PullRequestRow>, pr: PullRequest, repo: Repository)
    : (r: Result<map<nat, Store.PullRequestRow>, Store.StoreError>)
    ensures r.Ok? <==> NewRow(pr, repo).Some? && pr.id !in pulls
    ensures r.Err? ==> (r.error == Store.NotNullViolation <==> NewRow(pr, repo).None?)
    ensures r.Err? && NewRow(pr, repo).Some? ==> r.error == Store.UniqueViolation
    ensures r.Ok? ==> r.value.Keys == pulls.Keys + {pr.id} && r.value[pr.id] == NewRow(pr, repo).value
    ensures r.Ok? ==> forall id :: id in pulls ==> r.value[id] == pulls[id]
  {
    match NewRow(pr, repo)
    case None => Err(Store.NotNullViolation)
    case Some(row) => if pr.id in pulls then Err(Store.UniqueViolation) else Ok(pulls[pr.id := row])
  }

  /** A second delivery of the same opened pull request is refused. */
  lemma InsertPullTwiceFails(pulls: map<nat, Store.PullRequestRow>, pr: PullRequest, repo: Repository)
    requires InsertPull(pulls, pr, repo).Ok?
    ensures InsertPull(InsertPull(pulls, pr, repo).value, pr, repo) == Err(Store.UniqueViolation)
  {
  }

  /** `save_pull_to_db` on the store. */
  method SavePullToDb(db: Store.Database, pr: PullRequest, repo: Repository) returns (r: Result<(), Store.StoreError>)
    requires db.Valid()
    modifies db`pulls
    ensures db.Valid()
    ensures match InsertPull(old(db.pulls), pr, repo)
      case Ok(p) => r == Ok(()) && db.pulls == p
      case Err(e) => r == Err(e) && db.pulls == old(db.pulls)
  {
    var row := NewRow(pr, repo);
    if row.None? {
      return Err(Store.NotNullViolation);
    }
    if pr.id in db.pulls {
      return Err(Store.UniqueViolation);
    }
    db.pulls := db.pulls[pr.id := row.value];
    r := Ok(());
  }

  /** `update pull_requests set status = ?1 where id = ?2`: no row matched is no change. */
  function WithStatus(pulls: map<nat, Store.PullRequestRow>, id: nat, status: Model.PullRequestStatus)
    : (r: map<nat, Store.PullRequestRow>)
    ensures r.Keys == pulls.Keys
    ensures id in pulls ==> r[id] == pulls[id].(status := status)
    ensures forall other :: other in pulls && other != id ==> r[other] == pulls[other]
  {
    if id in pulls then pulls[id := pulls[id].(status := status)] else pulls
  }

  /** Setting a status twice is setting it once; the last write wins. */
  lemma WithStatusOverwrites(pulls: map<nat, Store.PullRequestRow>, id: nat, s1: Model.PullRequestStatus, s2: Model.PullRequestStatus)
    ensures WithStatus(WithStatus(pulls, id, s1), id, s2) == WithStatus(pulls, id, s2)
  {
  }

  /** `set_pull_request_status`: `Ok` whether or not a row matched. */
  method SetPullRequestStatus(db: Store.Database, id: nat, status: Model.PullRequestStatus) returns (r: Result<(), Store.StoreError>)
    requires db.Valid()
    modifies db`pulls
    ensures db.Valid()
    ensures r == Ok(()) && db.pulls == WithStatus(old(db.pulls), id, status)
  {
    if id in db.pulls {
      db.pulls := db.pulls[id := db.pulls[id].(status := status)];
    }
    r := Ok(());
  }

  /** `set_pull_request_approved`: status `Approved` and the approver, on that row only. */
  function WithApproval(pulls: map<nat, Store.PullRequestRow>, id: nat, approvedBy: string)
    : (r: map<nat, Store.PullRequestRow>)
    ensures r.Keys == pulls.Keys
    ensures id in pulls ==> r[id] == pulls[id].(status := Model.PullRequestStatus.Approved, approvedBy := Some(approvedBy))
    ensures forall other :: other in pulls && other != id ==> r[other] == pulls[other]
  {
    if id in pulls then
      pulls[id := pulls[id].(status := Model.PullRequestStatus.Approved, approvedBy := Some(approvedBy))]
    else pulls
  }

  /** An approval is the `Approved` status plus the approver: it includes the status write. */
  lemma ApprovalSetsStatus(pulls: map<nat, Store.PullRequestRow>, id: nat, approvedBy: string)
    ensures WithApproval(pulls, id, approvedBy) == WithStatus(WithApproval(pulls, id, approvedBy), id, Model.PullRequestStatus.Approved)
    ensures id in pulls ==> WithApproval(pulls, id, approvedBy)[id].approvedBy == Some(approvedBy)
  {
  }

  method SetPullRequestApproved(db: Store.Database, id: nat, approvedBy: string) returns (r: Result<(), Store.StoreError>)
    requires db.Valid()
    modifies db`pulls
    ensures db.Valid()
    ensures r == Ok(()) && db.pulls == WithApproval(old(db.pulls), id, approvedBy)
  {
    if id in db.pulls {
      db.pulls := db.pulls[id := db.pulls[id].(status := Model.PullRequestStatus.Approved, approvedBy := Some(approvedBy))];
    }
    r := Ok(());
  }

  // ---------------------------------------------------------------------------
  // What a handler does

  /** The GitHub requests a handler sent, in order, and whether it panicked. */
  datatype Effect = Effect(requests: seq<Request>, panicked: bool)

  /** The `[actions.ping]` table of the configuration file, as far as it is read. */
  datatype PingConfig = PingConfig(message: Option<string>)
  datatype ActionsConfig = ActionsConfig(ping: Option<PingConfig>)

  const PING_MESSAGE_COMMENTER_PATTERN: string := "{{COMMENTER}}"
  /** "Hi @{{COMMENTER}}! Yes, I'm still alive!" */
  const DEFAULT_PING_MESSAGE: string := "Hi @" + PING_MESSAGE_COMMENTER_PATTERN + "! Yes, I'm still alive!"

  /** The configured ping message when all three levels are present, else the default. */
  function PingMessage(actions: Option<ActionsConfig>): string {
    match actions
    case Some(ActionsConfig(Some(PingConfig(Some(message))))) => message
    case _ => DEFAULT_PING_MESSAGE
  }

  lemma PingMessageChoice(actions: Option<ActionsConfig>)
    ensures actions.Some? && actions.value.ping.Some? && actions.value.ping.value.message.Some?
      ==> PingMessage(actions) == actions.value.ping.value.message.value
    ensures actions.None? || actions.value.ping.None? || actions.value.ping.value.message.None?
      ==> PingMessage(actions) == DEFAULT_PING_MESSAGE
  {
  }

  /** The ping reply: every `{{COMMENTER}}` replaced by the login. */
  function PingReply(message: string, login: string): string {
    Replace(message, PING_MESSAGE_COMMENTER_PATTERN, login)
  }

  /** The default reply greets the login. */
  lemma DefaultPingReply(login: string)
    ensures PingReply(DEFAULT_PING_MESSAGE, login) == "Hi @" + login + "! Yes, I'm still alive!"
  {
    ReplaceFramed("Hi @", "! Yes, I'm still alive!", PING_MESSAGE_COMMENTER_PATTERN, login);
  }

  /** A configured message without the placeholder is sent as it is. */
  lemma PlainPingMessage(message: string, login: string)
    requires !Contains(message, PING_MESSAGE_COMMENTER_PATTERN)
    ensures PingReply(message, login) == message
  {
    ReplaceAbsent(message, PING_MESSAGE_COMMENTER_PATTERN, login);
  }

  /**
   * `ping`: a reply to the issue greeting its author; panics without a
   * repository owner, and when the reply cannot be posted.
   */
  function Ping(ic: IssueCommentPayload, actions: Option<ActionsConfig>, posted: bool): (r: Effect)
    ensures ic.repository.owner.None? ==> r == Effect([], true)
    ensures ic.repository.owner.Some? ==> r.panicked == !posted && |r.requests| == 1
  {
    match ic.repository.owner
    case None => Effect([], true)
    case Some(owner) =>
      var reply := PingReply(PingMessage(actions), ic.issue.user.login);
      Effect([CreateIssueComment(owner.login, ic.repository.name, ic.issue.number, reply)], !posted)
  }

  /**
   * The placeholder's first occurrence in a configured message becomes the
   * login, and the rest of the message is scanned on from after it.
   */
  lemma PingReplyNamesLogin(before: string, after: string, login: string)
    requires '{' !in before
    ensures PingReply(before + PING_MESSAGE_COMMENTER_PATTERN + after, login)
      == before + login + PingReply(after, login)
  {
    ReplaceAfterFree(before, after, PING_MESSAGE_COMMENTER_PATTERN, login);
  }

  /**
   * Whatever the configured message, the one reply goes to the pinged issue
   * with the placeholder filled by the issue author's login; the comment and
   * its commenter are not read. With no message configured, it is the
   * default greeting.
   */
  lemma PingGreetsIssueAuthor(ic: IssueCommentPayload, actions: Option<ActionsConfig>, comment: Comment, posted: bool)
    requires ic.repository.owner.Some?
    ensures Ping(ic, actions, posted).requests == [CreateIssueComment(
      ic.repository.owner.value.login, ic.repository.name, ic.issue.number,
      PingReply(PingMessage(actions), ic.issue.user.login))]
    ensures Ping(ic.(comment := comment), actions, posted) == Ping(ic, actions, posted)
    ensures actions.None? ==> Ping(ic, actions, posted).requests == [CreateIssueComment(
      ic.repository.owner.value.login, ic.repository.name, ic.issue.number,
      "Hi @" + ic.issue.user.login + "! Yes, I'm still alive!")]
  {
    DefaultPingReply(ic.issue.user.login);
  }

  /**
   * `set_assignee`: assigns the named user, or the issue's author when none is
   * named; a failed request is only logged.
   */
  function SetAssignee(ic: IssueCommentPayload, assignee: Option<string>): (r: Effect)
    ensures ic.repository.owner.None? ==> r == Effect([], true)
  {
    match ic.repository.owner
    case None => Effect([], true)
    case Some(owner) =>
      Effect([AddAssignee(owner.login, ic.repository.name, ic.issue.number, assignee.GetOr(ic.issue.user.login))], false)
  }

  /** Who is assigned: the named user, else the issue's author, never the comment's author. */
  lemma SetAssigneeTarget(ic: IssueCommentPayload, assignee: Option<string>, comment: Comment)
    requires ic.repository.owner.Some?
    ensures var r := SetAssignee(ic, assignee);
      !r.panicked && |r.requests| == 1 && r.requests[0].AddAssignee?
      && r.requests[0].issue == ic.issue.number
      && (assignee.Some? ==> r.requests[0].assignee == assignee.value)
      && (assignee.None? ==> r.requests[0].assignee == ic.issue.user.login)
    ensures SetAssignee(ic.(comment := comment), assignee) == SetAssignee(ic, assignee)
  {
  }

  /** Some user in `users` has this login. */
  predicate HasLogin(users: seq<User>, login: string) {
    exists i :: 0 <= i < |users| && users[i].login == login
  }

  /** `remove_assignee` as a function: delete only an assignment the listing shows. */
  function RemoveAssigneeSpec(ic: IssueCommentPayload, listing: Option<seq<User>>): Effect {
    match ic.repository.owner
    case None => Effect([], true)
    case Some(owner) =>
      var login, repo, issue := ic.issue.user.login, ic.repository.name, ic.issue.number;
      var list := ListAssignees(owner.login, repo, issue);
      if listing.Some? && HasLogin(listing.value, login) then
        Effect([list, DeleteAssignee(owner.login, repo, issue, login)], false)
      else Effect([list], false)
  }

  /**
   * `remove_assignee`: list the assignees (`listing` is `None` when that
   * fails), then delete the issue author's assignment if it is among them.
   */
  method RemoveAssignee(ic: IssueCommentPayload, listing: Option<seq<User>>) returns (r: Effect)
    ensures r == RemoveAssigneeSpec(ic, listing)
  {
    if ic.repository.owner.None? {
      return Effect([], true);
    }
    var owner, repo := ic.repository.owner.value.login, ic.repository.name;
    var commenter, issueNumber := ic.issue.user.login, ic.issue.number;
    var requests := [ListAssignees(owner, repo, issueNumber)];
    var shouldDeleteAssignee := false;
    if listing.Some? {
      var assignees := listing.value;
      for k := 0 to |assignees|
        invariant shouldDeleteAssignee <==> exists i :: 0 <= i < k && assignees[i].login == commenter
      {
        if assignees[k].login == commenter {
          shouldDeleteAssignee := true;
        }
      }
    }
    if shouldDeleteAssignee {
      requests := requests + [DeleteAssignee(owner, repo, issueNumber, commenter)];
    }
    r := Effect(requests, false);
  }

  /** A deletion is requested exactly when the listing succeeded and shows the issue's author. */
  lemma RemoveOnlyIfAssigned(ic: IssueCommentPayload, listing: Option<seq<User>>)
    requires ic.repository.owner.Some?
    ensures var r := RemoveAssigneeSpec(ic, listing);
      (exists j :: 0 <= j < |r.requests| && r.requests[j].DeleteAssignee?)
      <==> listing.Some? && HasLogin(listing.value, ic.issue.user.login)
    ensures var r := RemoveAssigneeSpec(ic, listing);
      forall j :: 0 <= j < |r.requests| && r.requests[j].DeleteAssignee? ==> r.requests[j].assignee == ic.issue.user.login
  {
    var r := RemoveAssigneeSpec(ic, listing);
    if listing.Some? && HasLogin(listing.value, ic.issue.user.login) {
      assert r.requests[1].DeleteAssignee?;
    }
  }

  // ---------------------------------------------------------------------------
  // approve_pull

  /** The confirmation `approve_pull` posts, around the commit id and the issue author's login. */
  const CONFIRMATION_HEAD: string := "\n:pushpin: Commit "
  const CONFIRMATION_MIDDLE: string := " has been approved by `"
  // Two literals, so that each is checked for `@` on its own.
  const CONFIRMATION_TAIL: string := "`\n\nIt is now in the queue" + " for this repository."

  function ApprovalComment(commitId: string, commenter: string): string {
    CONFIRMATION_HEAD + commitId + CONFIRMATION_MIDDLE + commenter + CONFIRMATION_TAIL
  }

  predicate NoAt(s: string) {
    '@' !in s
  }

  lemma ConfirmationMentionsNobody()
    ensures NoAt(CONFIRMATION_HEAD) && NoAt(CONFIRMATION_MIDDLE) && NoAt(CONFIRMATION_TAIL)
  {
  }

  /** The confirmation mentions nobody, so the bot reads no command in its own comment. */
  lemma ApprovalCommentIsInert(botName: string, commitId: string, commenter: string)
    requires NoAt(commitId) && NoAt(commenter)
    ensures Command.Parse(botName, ApprovalComment(commitId, commenter)) == []
  {
    ConfirmationMentionsNobody();
    var c := ApprovalComment(commitId, commenter);
    assert NoAt(c);
    FindNone(c, Command.Mention(botName));
    Command.MentionFreeInputYieldsNothing(botName, c);
  }

  /** What `approve_pull` does: its effect and the merge table after it. */
  datatype Approval = Approval(effect: Effect, merges: Merges.MergeTable)

  /**
   * `approve_pull`: look up the issue's pull request (`lookup`), queue it,
   * and post the confirmation whether or not queueing worked.
   */
  function ApproveSpec(
    pulls: map<nat, Store.PullRequestRow>, merges: Merges.MergeTable, ic: IssueCommentPayload,
    lookup: Result<Option<PullRequest>, ApiError>, connected: bool): Approval
  {
    match ic.repository.owner
    case None => Approval(Effect([], true), merges)
    case Some(owner) =>
      var repo, issue := ic.repository.name, ic.issue.number;
      var get := GetPullRequestFromIssue(owner.login, repo, issue);
      match lookup
      case Ok(Some(pr)) =>
        var after := match Queue.Enqueue(pulls, merges, pr.id, connected) case Ok(m) => m case Err(_) => merges;
        var confirm := CreateIssueComment(owner.login, repo, issue, ApprovalComment(pr.head.sha, ic.issue.user.login));
        Approval(Effect([get, confirm], false), after)
      case _ => Approval(Effect([get], false), merges)
  }

  /** `approve_pull` on the store; the pull request's own row is never written. */
  method ApprovePull(db: Store.Database, ic: IssueCommentPayload, lookup: Result<Option<PullRequest>, ApiError>, connected: bool)
    returns (effect: Effect)
    requires db.Valid()
    modifies db`merges
    ensures db.Valid() && db.pulls == old(db.pulls)
    ensures Approval(effect, db.merges) == ApproveSpec(old(db.pulls), old(db.merges), ic, lookup, connected)
  {
    if ic.repository.owner.None? {
      return Effect([], true);
    }
    var owner, repo := ic.repository.owner.value.login, ic.repository.name;
    var commenter, issueNumber := ic.issue.user.login, ic.issue.number;
    var requests := [GetPullRequestFromIssue(owner, repo, issueNumber)];
    if lookup.Err? || lookup.value.None? {
      return Effect(requests, false);
    }
    var pr := lookup.value.value;
    var enqueued := Queue.EnqueueMerge(db, pr.id, connected);
    var body := ApprovalComment(pr.head.sha, commenter);
    requests := requests + [CreateIssueComment(owner, repo, issueNumber, body)];
    effect := Effect(requests, false);
  }

  /**
   * When the pull request is found, the confirmation is posted whether the
   * queue took it or not, and the row is queued exactly when the store accepts it.
   */
  lemma ApproveConfirmsRegardless(
    pulls: map<nat, Store.PullRequestRow>, merges: Merges.MergeTable, ic: IssueCommentPayload,
    pr: PullRequest, connected: bool)
    requires ic.repository.owner.Some?
    ensures var a := ApproveSpec(pulls, merges, ic, Ok(Some(pr)), connected);
      !a.effect.panicked && |a.effect.requests| == 2
      && a.effect.requests[1] == CreateIssueComment(ic.repository.owner.value.login, ic.repository.name,
        ic.issue.number, ApprovalComment(pr.head.sha, ic.issue.user.login))
      && (a.merges != merges <==> Queue.Enqueue(pulls, merges, pr.id, connected).Ok?)
      && (Queue.Enqueue(pulls, merges, pr.id, connected).Ok? ==> a.merges == merges[pr.id := Merges.Waiting])
  {
    var r := Queue.Enqueue(pulls, merges, pr.id, connected);
    if r.Ok? {
      assert pr.id in r.value && pr.id !in merges;
    }
  }

  /** Without a pull request for the issue nothing is queued and nothing is posted. */
  lemma ApproveWithoutPullDoesNothing(
    pulls: map<nat, Store.PullRequestRow>, merges: Merges.MergeTable, ic: IssueCommentPayload,
    lookup: Result<Option<PullRequest>, ApiError>, connected: bool)
    requires lookup.Err? || lookup.value.None?
    ensures var a := ApproveSpec(pulls, merges, ic, lookup, connected);
      a.merges == merges
      && forall j :: 0 <= j < |a.effect.requests| ==> !a.effect.requests[j].CreateIssueComment?
  {
  }

  /**
   * A pull request stored by `save_pull_to_db` and queued by `approve_pull`
   * has no approver, since nothing on that path sets one; so every later pass
   * of the scheduler stops at the `approved_by` unwrap.
   */
  lemma SavedThenApprovedStallsQueue(
    pulls: map<nat, Store.PullRequestRow>, merges: Merges.MergeTable, ic: IssueCommentPayload,
    pr: PullRequest, repo: Repository, env: Queue.Environment)
    requires Merges.BelongsTo(merges, pulls.Keys)
    requires ic.repository.owner.Some? && InsertPull(pulls, pr, repo).Ok?
    requires Queue.Enqueue(InsertPull(pulls, pr, repo).value, merges, pr.id, true).Ok?
    ensures var saved := InsertPull(pulls, pr, repo).value;
      var queued := ApproveSpec(saved, merges, ic, Ok(Some(pr)), true).merges;
      !Queue.RunPass(saved, queued, env).end.Completed?
  {
    var saved := InsertPull(pulls, pr, repo).value;
    var queued := ApproveSpec(saved, merges, ic, Ok(Some(pr)), true).merges;
    assert queued == Queue.Enqueue(saved, merges, pr.id, true).value;
    Queue.QueuedWithoutApproverNeverCompletes(saved, queued, env, pr.id);
  }
}
