/**
 * The webhook payloads and GitHub calls the bot deals with, reduced to the
 * fields it reads. Every GitHub request is network I/O: the model records the
 * request made and takes its outcome as an input.
 */
module Github {
  import opened Wrappers

  datatype User = User(login: string)

  datatype Repository = Repository(name: string, fullName: string, owner: Option<User>)

  /** The issue a comment was left on; `user` is the issue's author. */
  datatype Issue = Issue(number: nat, user: User)

  datatype IssueCommentAction = Created | Deleted | Edited

  datatype Comment = Comment(body: Option<string>, user: User)

  datatype IssueCommentPayload = IssueCommentPayload(
    action: IssueCommentAction, issue: Issue, comment: Comment, repository: Repository)

  /** `head` or `base` of a pull request; `refLabel` is the payload's `label` ("owner:branch"). */
  datatype Branch = Branch(refLabel: Option<string>, sha: string)

  datatype PullRequest = PullRequest(
    id: nat, number: nat, head: Branch, base: Branch,
    mergeCommitSha: Option<string>, assignee: Option<User>)

  /** The `pull_request` event; its `action` deserialises only from "opened". */
  datatype PullRequestPayload = PullRequestPayload(
    number: nat, pullRequest: PullRequest, repository: Repository)

  /** Whatever a failed GitHub request reports. */
  datatype ApiError = ApiError

  datatype MergeRequest = MergeRequest(
    owner: string, repo: string, number: nat, headRef: string, approver: string)

  /** The GitHub requests the core issues. */
  datatype Request =
    | CreateIssueComment(owner: string, repo: string, issue: nat, body: string)
    | AddAssignee(owner: string, repo: string, issue: nat, assignee: string)
    | ListAssignees(owner: string, repo: string, issue: nat)
    | DeleteAssignee(owner: string, repo: string, issue: nat, assignee: string)
    | GetPullRequestFromIssue(owner: string, repo: string, issue: nat)
    | MergePull(merge: MergeRequest)
}
