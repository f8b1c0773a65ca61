/**
 * The webhook handler `post_github`: which delivery is dropped, which one
 * panics, and which handler each parsed command goes to, in order.
 */
module Routes {
  import opened Wrappers
  import opened Text
  import opened Github
  import opened Command
  import Comments
  import Actions
  import Store

  const GITHUB_EVENT_KEY: string := "X-GitHub-Event"
  const GITHUB_EVENT_ISSUE_COMMENT: string := "issue_comment"
  const GITHUB_EVENT_PULL_REQUEST: string := "pull_request"

  /** `HeaderValue::to_str` accepts tab and the printable ASCII range only. */
  predicate IsVisibleAscii(c: char) {
    c == '\t' || (' ' <= c && c <= '~')
  }

  predicate IsVisibleText(s: string) {
    forall k :: 0 <= k < |s| ==> IsVisibleAscii(s[k])
  }

  /** Both event names pass `to_str`. */
  lemma EventNamesVisible()
    ensures IsVisibleText(GITHUB_EVENT_ISSUE_COMMENT) && IsVisibleText(GITHUB_EVENT_PULL_REQUEST)
  {
    var names := [GITHUB_EVENT_ISSUE_COMMENT, GITHUB_EVENT_PULL_REQUEST];
    forall n, k | n in names && 0 <= k < |n| ensures 'a' <= n[k] <= 'z' || n[k] == '_' {
    }
  }

  /**
   * What `serde_json::from_str` makes of the body as each payload type;
   * `None` where it fails. The `pull_request` payload decodes only for the
   * action "opened".
   */
  datatype Bodies = Bodies(asIssueComment: Option<IssueCommentPayload>, asPullRequest: Option<PullRequestPayload>)

  /** The handler calls a delivery leads to. */
  datatype Intent =
    | PingIntent
    | SetAssigneeIntent(user: Option<string>)
    | RemoveAssigneeIntent
    | SavePullIntent(pr: PullRequest, repo: Repository)

  /** A delivery is dropped, makes the handler panic, or goes to the handlers listed. */
  datatype Handling = Dropped | Panics | Dispatched(intents: seq<Intent>)

  /**
   * The handler call for one command; the approve arm is commented out, so
   * `Approve` goes nowhere. A claim's users are passed on joined by commas.
   */
  function CommandIntents(c: Command): (r: seq<Intent>)
    ensures |r| <= 1
    ensures r == [] <==> c == Approve
  {
    match c
    case Ping => [PingIntent]
    case Assign(users) =>
      var user := match users case Some(us) => Some(Join(us, ',')) case None => None;
      [SetAssigneeIntent(user)]
    case RemoveAssignment => [RemoveAssigneeIntent]
    case Approve => []
  }

  /** The loop over the parsed commands: one dispatch per command, in order. */
  function Dispatch(commands: seq<Command>): seq<Intent> {
    if commands == [] then []
    else Dispatch(commands[..|commands| - 1]) + CommandIntents(commands[|commands| - 1])
  }

  /** Dispatching a comment's commands is dispatching each part in turn. */
  lemma {:induction false} DispatchConcat(a: seq<Command>, b: seq<Command>)
    ensures Dispatch(a + b) == Dispatch(a) + Dispatch(b)
    decreases |b|
  {
    if b == [] {
      assert a + b == a;
    } else {
      var init := b[..|b| - 1];
      assert (a + b)[..|a + b| - 1] == a + init;
      assert (a + b)[|a + b| - 1] == b[|b| - 1];
      DispatchConcat(a, init);
    }
  }

  /** `post_github` for the `X-GitHub-Event` value `event`, the decoded bodies and the app's login. */
  function PostGithub(event: Option<string>, bodies: Bodies, appUser: string): Handling {
    match event
    case None => Dropped
    case Some(name) =>
      if !IsVisibleText(name) then Panics
      else if name == GITHUB_EVENT_ISSUE_COMMENT then
        match bodies.asIssueComment
        case None => Panics
        case Some(ic) =>
          match ic.comment.body
          case None => Dispatched([])
          case Some(body) => Dispatched(Dispatch(Parse(appUser, body)))
      else if name == GITHUB_EVENT_PULL_REQUEST then
        match bodies.asPullRequest
        case None => Panics
        case Some(p) => Dispatched([SavePullIntent(p.pullRequest, p.repository)])
      else Dropped
  }

  /** Without the event header, or with an unknown event, nothing happens. */
  lemma UnknownDeliveriesDropped(event: Option<string>, bodies: Bodies, appUser: string)
    requires event.None?
      || (IsVisibleText(event.value) && event.value != GITHUB_EVENT_ISSUE_COMMENT && event.value != GITHUB_EVENT_PULL_REQUEST)
    ensures PostGithub(event, bodies, appUser) == Dropped
  {
  }

  /**
   * Decoding the delivery panics exactly when the header value is refused by
   * `to_str` or the body does not decode as the named event. The `unwrap` on
   * saving a pull request (`SavePull`) and the handlers the commands reach
   * panic on their own, after dispatch.
   */
  lemma PanicsExactly(event: Option<string>, bodies: Bodies, appUser: string)
    ensures PostGithub(event, bodies, appUser) == Panics <==>
      event.Some? && (
        !IsVisibleText(event.value)
        || (event.value == GITHUB_EVENT_ISSUE_COMMENT && bodies.asIssueComment.None?)
        || (event.value == GITHUB_EVENT_PULL_REQUEST && bodies.asPullRequest.None?))
  {
    assert GITHUB_EVENT_ISSUE_COMMENT != GITHUB_EVENT_PULL_REQUEST by {
      assert GITHUB_EVENT_ISSUE_COMMENT[0] != GITHUB_EVENT_PULL_REQUEST[0];
    }
  }

  /** A comment without a body dispatches nothing. */
  lemma BodilessCommentDispatchesNothing(bodies: Bodies, appUser: string)
    requires bodies.asIssueComment.Some? && bodies.asIssueComment.value.comment.body.None?
    ensures PostGithub(Some(GITHUB_EVENT_ISSUE_COMMENT), bodies, appUser) == Dispatched([])
  {
  }

  /**
   * A comment's commands only ever reach `set_assignee`, with the claim word
   * itself as the user: the parser makes no `Ping` and no
   * `RemoveAssignment`, and `Approve` is not dispatched.
   */
  lemma CommentsOnlyAssign(appUser: string, body: string)
    ensures var intents := Dispatch(Parse(appUser, body));
      forall j :: 0 <= j < |intents| ==>
        intents[j] == SetAssigneeIntent(Some("c")) || intents[j] == SetAssigneeIntent(Some("claim"))
  {
    ParseShape(appUser, body);
    OnlyClaimIntents(Parse(appUser, body));
  }

  lemma {:induction false} OnlyClaimIntents(commands: seq<Command>)
    requires AllParsable(commands)
    ensures var intents := Dispatch(commands);
      forall j :: 0 <= j < |intents| ==>
        intents[j] == SetAssigneeIntent(Some("c")) || intents[j] == SetAssigneeIntent(Some("claim"))
    decreases |commands|
  {
    if commands != [] {
      var init, last := commands[..|commands| - 1], commands[|commands| - 1];
      assert last in commands;
      assert AllParsable(init) by {
        forall c | c in init ensures IsParsable(c) {
          assert c in commands;
        }
      }
      OnlyClaimIntents(init);
      JoinSplit("c", ',');
      JoinSplit("claim", ',');
      assert Dispatch(commands) == Dispatch(init) + CommandIntents(last);
    }
  }

  /** "@bot r+" reaches no handler: the approval is parsed and then dropped. */
  lemma ApprovalCommentNotDispatched(bodies: Bodies, botName: string)
    requires IsWord(botName)
    requires bodies.asIssueComment.Some? && bodies.asIssueComment.value.comment.body == Some(Mention(botName) + " r+")
    ensures PostGithub(Some(GITHUB_EVENT_ISSUE_COMMENT), bodies, botName) == Dispatched([])
  {
    CommentWithBodyIsParsed(bodies, botName, Mention(botName) + " r+");
    Comments.MentionApproves(botName);
    assert Dispatch([Approve]) == Dispatch([]) + CommandIntents(Approve);
  }

  /** A comment with a body is parsed for the app's login and its commands dispatched. */
  lemma CommentWithBodyIsParsed(bodies: Bodies, appUser: string, body: string)
    requires bodies.asIssueComment.Some? && bodies.asIssueComment.value.comment.body == Some(body)
    ensures PostGithub(Some(GITHUB_EVENT_ISSUE_COMMENT), bodies, appUser)
      == Dispatched(Dispatch(Parse(appUser, body)))
  {
    EventNamesVisible();
  }

  /**
   * "@bot claim next" assigns the user named "claim", not the commenter and
   * not `next`: the claim reads its own word as the user.
   */
  lemma ClaimAssignsUserNamedClaim(ic: IssueCommentPayload, botName: string, next: string)
    requires IsWord(botName) && IsWord(next) && '@' !in next
    requires !IsApproveWord(next) && !IsClaimWord(next)
    requires ic.comment.body == Some(Mention(botName) + " claim " + next)
    requires ic.repository.owner.Some?
    ensures PostGithub(Some(GITHUB_EVENT_ISSUE_COMMENT), Bodies(Some(ic), None), botName)
      == Dispatched([SetAssigneeIntent(Some("claim"))])
    ensures Actions.SetAssignee(ic, Some("claim")).requests == [AddAssignee(
      ic.repository.owner.value.login, ic.repository.name, ic.issue.number, "claim")]
  {
    var body := Mention(botName) + " claim " + next;
    CommentWithBodyIsParsed(Bodies(Some(ic), None), botName, body);
    assert forall k :: 0 <= k < |next| ==> next[k] != '@' by {
      forall k | 0 <= k < |next| ensures next[k] != '@' {
        assert next[k] in next;
      }
    }
    Comments.MentionClaimsItself(botName, next);
    var claim := Assign(Some(["claim"]));
    assert Join(["claim"], ',') == "claim";
    assert Dispatch([claim]) == Dispatch([]) + CommandIntents(claim);
  }

  /** What the store step of a `pull_request` delivery leaves: the new table, or the panic of its `unwrap`. */
  datatype StoreStep = Stored(pulls: map<nat, Store.PullRequestRow>) | StorePanics

  /** `save_pull_to_db(...).await.unwrap()` on the table `pulls`. */
  function SavePull(pulls: map<nat, Store.PullRequestRow>, pr: PullRequest, repo: Repository): StoreStep {
    match Actions.InsertPull(pulls, pr, repo)
    case Ok(table) => Stored(table)
    case Err(_) => StorePanics
  }

  /**
   * A `pull_request` delivery is handed to `save_pull_to_db`. The `unwrap`
   * panics exactly when the pull request is already stored or lacks its head
   * or base label; otherwise the table gains exactly the new row.
   */
  lemma PullRequestDeliveryStores(pulls: map<nat, Store.PullRequestRow>, p: PullRequestPayload, appUser: string)
    ensures PostGithub(Some(GITHUB_EVENT_PULL_REQUEST), Bodies(None, Some(p)), appUser)
      == Dispatched([SavePullIntent(p.pullRequest, p.repository)])
    ensures var pr := p.pullRequest;
      (SavePull(pulls, pr, p.repository) == StorePanics
       <==> pr.id in pulls || pr.head.refLabel.None? || pr.base.refLabel.None?)
    ensures var pr, step := p.pullRequest, SavePull(pulls, p.pullRequest, p.repository);
      step.Stored? ==>
        && step.pulls.Keys == pulls.Keys + {pr.id}
        && step.pulls[pr.id] == Actions.NewRow(pr, p.repository).value
        && forall id :: id in pulls ==> step.pulls[id] == pulls[id]
  {
    assert GITHUB_EVENT_PULL_REQUEST != GITHUB_EVENT_ISSUE_COMMENT by {
      assert GITHUB_EVENT_ISSUE_COMMENT[0] != GITHUB_EVENT_PULL_REQUEST[0];
    }
  }
}
