# yad-rs merge bot, modelled in Dafny

yad-rs is a GitHub bot that reads commands from pull request comments and keeps
a merge queue in SQLite. This project models its core:

- the comment parser (`parse_command`);
- the webhook dispatcher (`post_github`);
- the actions it triggers:
  - `ping`, `set_assignee` and `remove_assignee`;
  - `approve_pull`, which queues a merge and posts a confirmation;
  - `save_pull_to_db` and the two status updates;
- the merge queue (`enqueue_merge`, `handle_merge_queue`, `queue_server`);
- the status enumerations, with their integer codes, and the `merges` entity.

Modules:

- `Text`: the `str` operations the parser relies on. These are `find`, `replace`, `lines`, `split_whitespace`, `split`/`join` and `trim_start`, with Rust's semantics.
- `Command`: `parse_command`. `Parse` is the specification function. `ParseCommand` is the method with the source's nested loops.
- `Comments`: facts about whole comments. They cover how lines combine, mentions, quoting, and the quirks of the prefix deletion.
- `Model` and `Merges`: the status enums, their integer tables and the `merges` row.
- `Store`: the `pull_requests` and `merges` tables as maps inside a `Database` class whose handlers update them in place. `Valid` holds when rows sit under their own key and every merge row belongs to a stored pull request.
- `Github`: the payload fields the core reads, and the requests it sends.
- `Queue`: the enqueue, one pass of the scheduler, and the server loop.
  - A pass is a function of the tables and an `Environment`.
  - The `Environment` says whether the read fails, which store writes fail, and which merges GitHub accepts.
  - `HandleMergeQueue` is proved equal to that function.
- `Actions`: the handlers. Each store write is a method on `Database` and each GitHub decision is a function.
- `Routes`: `post_github`. It decides which deliveries are dropped, which panic, and which handlers are called, in order.

Behaviours the proofs bring out:

- **Approval never reaches the queue.** The dispatcher's `Approve` arm is commented out, so an approval comment starts nothing.
- **Approved pull requests stall the queue.** Only `approve_pull` enqueues, but nothing ever sets `approved_by`, and `handle_merge_queue` unwraps it. So a pull request saved by the webhook and then approved makes the next pass panic.
- **A claim assigns a user named after the claim word.** The parser sets a claim's `users` to the claim word itself, because `skip(i).next()` is the word at `i`. So "@bot claim" assigns the user `claim`.
- **The parser never yields `Ping` or `RemoveAssignment`.** A comment can only reach `set_assignee`.
- **Failed merges are retried on every pass.** A merge GitHub refuses is left `Failed`, and the pass does not look at a row's status.

Where the source text and its description disagree, the model follows the code:

- The comment in `set_assignee` says the commenter is assigned by default. The code reads `ic.issue.user`, which is the issue's author, and so does the model. The same holds for `ping` and `remove_assignee`.
- `routes.rs` matches `Command::Assign { user }`, but `command.rs` defines `users: Option<Vec<String>>`. The model keeps the parser's shape and hands `set_assignee` the users joined back with commas. That is the original word, as `Text.JoinSplit` shows.
- `ToSql`/`FromSql` are commented out in `src/model.rs`. The integer tables are modelled from the constants and the variant-to-value lists given to `int_enum_sql!`. `PullRequestStatus` uses the constants at lines 60-64.

## Model

| member | source | states |
|---|---|---|
| Text.Find | src/command.rs:22 | `str::find`: the result is an occurrence, and no earlier position holds one; `None` exactly when there is no occurrence |
| Text.FindNone | src/command.rs:21-22 | a pattern whose first character never appears in the text is not found |
| Text.TrimStart | src/command.rs:21 | `trim_start` keeps a suffix that starts with a non-whitespace character, and drops only whitespace |
| Text.ReplaceAbsent | src/command.rs:24 | `replace` of a pattern that does not occur leaves the text unchanged |
| Text.ReplaceEmptyByEmpty | src/command.rs:23-24 | replacing the empty prefix by "" leaves the line as it was |
| Text.ReplaceAfterFree | src/actions.rs:43 | an occurrence of the pattern preceded by text without its first character is replaced, and replacement resumes right after it |
| Text.ReplaceFramed | src/actions.rs:43 | replacing a pattern whose first character occurs nowhere else substitutes exactly one occurrence |
| Text.Lines | src/command.rs:19 | `lines` yields at most one line per character, and at least one for non-empty text |
| Text.LinesCons | src/command.rs:19 | a line without `\n` or a trailing `\r`, followed by `\n`, is the first of the lines |
| Text.LinesConsCrLf | src/command.rs:19 | a first line followed by `\r\n` is the first of the lines, without its `\r` |
| Text.LineIsSlice | src/command.rs:19 | every line is a slice of the input |
| Text.Words | src/command.rs:36 | `split_whitespace` yields at most one word per character |
| Text.WordsAreWords | src/command.rs:36 | every piece from `split_whitespace` is non-empty and holds no whitespace |
| Text.WordsCons | src/command.rs:36 | a word followed by whitespace or the end is the first piece |
| Text.Split | src/command.rs:49 | `split` always yields at least one piece |
| Text.SepIndex | src/command.rs:49 | the cut `split` makes is at a separator, or at the end of the text |
| Text.JoinSplit | src/command.rs:49 | joining the pieces of `split` with the separator gives back the original text |
| Text.SplitFirst | src/queue.rs:39 | the first piece is a separator-free prefix; there is one piece exactly when the separator is absent; the rest is the split after the first separator |
| Text.SplitCons | src/queue.rs:39 | a separator-free head followed by the separator is the first piece |
| Text.SplitSecondFree | src/queue.rs:39-40 | with two pieces or more, the second piece holds no separator |
| Text.SplitSecondPrefix | src/queue.rs:39-40 | with two pieces or more, the text starts with the first piece, the separator and the second piece |
| Command.RetainedLineAt | src/command.rs:18-32 | line `k` of a comment contributes nothing when it does not mention the bot or is quoted; the whole line when it starts with the mention; the line from the mention on when the text before the mention does not recur there |
| Command.ParseCommand | src/command.rs:15-56 | the nested loops push exactly the commands of `Parse`, line by line and word by word |
| Command.PushLineCommands | src/command.rs:35-53 | the inner loop appends the commands of the line's words, in order, to what was collected before |
| Command.ClaimWordUsers | src/command.rs:46-50 | a claim word split on commas is the word itself |
| Command.WordCommandsShape | src/command.rs:37-52 | one word yields at most one command, which is `Approve` or a claim naming its own word |
| Command.WordsCommandsShape | src/command.rs:37-53 | a line's first `n` words yield at most `n` commands, all of those shapes |
| Command.LineCommandsShape | src/command.rs:36-53 | a retained line yields at most one command per word |
| Command.LinesCommandsShape | src/command.rs:35-54 | the first `n` lines yield at most their word total of commands, all parsable |
| Command.LinesCommandsStep | src/command.rs:35-54 | the same bound and shapes for a non-empty prefix of the lines, by adding the last line's commands |
| Command.ParseShape | src/command.rs:15-56 | the parser yields only `Approve` and claims whose users are the claim word; never `Ping`, `RemoveAssignment` or `users: None` |
| Command.NonCandidateLineYieldsNothing | src/command.rs:21-30 | a line that does not mention the bot, or that is quoted, yields no command |
| Command.BlankLinesYieldNothing | src/command.rs:35-54 | empty retained lines yield no command |
| Command.MentionFreeInputYieldsNothing | src/command.rs:15-56 | a comment that never mentions the bot, the empty one included, yields no command |
| Command.MentionAtStartKeepsLine | src/command.rs:22-24 | with the mention at the start of the line, the line is kept whole |
| Command.RetainedTextAfterPrefix | src/command.rs:22-24 | the text before the mention is deleted everywhere on the line; the line from the mention on is kept whole only when that text does not recur |
| Comments.WordsCommandsPrepend | src/command.rs:37-53 | a word put in front of a line contributes its commands first |
| Comments.LinesCommandsPrepend | src/command.rs:35-54 | a line put in front contributes its commands first |
| Comments.ParseSingleLine | src/command.rs:15-56 | a one-line comment yields the commands of its retained text |
| Comments.ParseOneLine | src/command.rs:15-56 | a line without `\n`, the empty one included, yields the commands of its retained text |
| Comments.RetainedLinesCons | src/command.rs:18-32 | the first line's retained text comes first |
| Comments.ParseCons | src/command.rs:15-56 | a comment's commands are those of its retained first line followed by the rest |
| Comments.ParseConcat | src/command.rs:15-56 | the commands of two lines joined by `\n` are the first line's followed by the second's |
| Comments.ParseLeadingMention | src/command.rs:15-56 | a single line starting with the mention is parsed whole |
| Comments.MentionIsWord | src/command.rs:16 | the mention of a word-shaped bot name is one word |
| Comments.ApproveLine | src/command.rs:38-44 | the words "mention r+" yield exactly `Approve`; the mention itself is skipped |
| Comments.MentionApproves | src/command.rs:15-56 | "@bot r+" parses to exactly one `Approve` |
| Comments.ClaimLine | src/command.rs:46-51 | "mention claim next" yields a single claim for the user `claim` |
| Comments.MentionClaimsItself | src/command.rs:15-56 | "@bot claim next" parses to a claim for the user `claim`, not for `next` |
| Comments.NotQuoted | src/command.rs:21 | a line whose first non-blank character is not `>` is not quoted |
| Comments.FindAfter | src/command.rs:22 | the mention is found right after an `@`-free prefix |
| Comments.RetainedTextAfter | src/command.rs:22-24 | with text before the mention, the retained text is the rest with that text deleted |
| Comments.ParseMentionAfter | src/command.rs:15-56 | a line with text before the mention yields the commands of the rest with that text deleted |
| Comments.MentionThenR | src/command.rs:42 | "r" without the plus is no command |
| Comments.PrefixDeletedAfterMention | src/command.rs:23-24 | "+ @bot r+ " yields nothing: deleting the prefix "+ " also turns "r+ " into "r" |
| Comments.MentionAfterTextApproves | src/command.rs:15-56 | text longer than the mention, then "@bot r+", yields `Approve` |
| Comments.SecondLineApproves | src/command.rs:62-68 | the parser's own test comment shape: a first line without a mention, then text and "@bot r+", yields exactly `Approve` |
| Comments.QuotedMentionIgnored | src/command.rs:21 | a quoted line that mentions the bot yields nothing |
| Model.PullRequestStatusFromSql | src/model.rs:60-64 | a decoded code is the code of the status it names; an unknown code decodes to nothing |
| Model.TestStatusFromSql | src/model.rs:66-78 | the same for `TestStatus` |
| Model.MergeStatusFromSql | src/model.rs:107-117 | the same for `MergeStatus` |
| Model.CheckSuiteStatusFromSql | src/model.rs:124-138 | the same for `CheckSuiteStatus` |
| Model.CodesRoundTrip | src/model.rs:60-138 | every status decodes back from its code, and distinct statuses get distinct codes |
| Model.EqIsSameVariant | src/model.rs:52-56 | the macro's discriminant equality holds exactly for equal statuses |
| Merges.FromNumValue | entity/src/merges.rs:5-14 | a decoded `num_value` is the value of its variant; other values decode to nothing |
| Merges.Related | entity/src/merges.rs:16-48 | a pull request has at most one merge row, present exactly when its id is a key, carrying that key's status |
| Merges.CodesAgreeWithModel | entity/src/merges.rs:5-14 | the entity's codes and `MergeStatus` in src/model.rs decode each integer to the same variant |
| Merges.NumValueRoundTrip | entity/src/merges.rs:5-14 | every variant decodes back from its `num_value` |
| Store.Database.constructor | src/db.rs:10-46 | a fresh store is empty and valid |
| Queue.Enqueue | src/queue.rs:99-107 | the insert succeeds exactly when the store is reachable, the id is not queued and the pull request is stored. Otherwise it fails with `Unavailable`, `UniqueViolation` or `ForeignKeyViolation`, in that order. On success the new row is `Waiting` and the others are kept |
| Queue.EnqueueTwiceFails | src/queue.rs:99-107 | a second enqueue of the same id fails with a unique violation |
| Queue.EnqueueKeepsBelongsTo | src/queue.rs:99-107 | enqueueing keeps every merge row attached to a stored pull request |
| Queue.EnqueueMerge | src/queue.rs:99-107 | the store method returns `Enqueue`'s verdict, takes its table on success and keeps the table on failure |
| Queue.Least | src/queue.rs:29-32 | the smallest id of a non-empty set |
| Queue.SortedIds | src/queue.rs:29-32 | the stored ids, each once, strictly ascending: the order `find_with_related` returns rows in |
| Queue.SnapshotLists | src/queue.rs:29-34 | the fetch lists every stored pull request once, in ascending id order, with its merge rows |
| Queue.AsU64 | src/queue.rs:60 | `as u64` is the identity on non-negative numbers below 2^64 and adds 2^64 to a negative 64-bit number |
| Queue.SplitRepositoryNone | src/queue.rs:39-40 | the second `unwrap` panics exactly when the repository name has no `/` |
| Queue.SplitRepositoryParts | src/queue.rs:39-40 | owner and repo are `/`-free and "owner/repo" is a prefix of the name |
| Queue.SplitRepositoryOfFullName | src/queue.rs:39-40 | a full name "owner/repo", with anything after a further `/`, splits back into owner and repo |
| Queue.MergeRequestForFields | src/queue.rs:39-60 | the request is refused exactly for a name without `/`, then for a missing approver; otherwise it carries the approver, head ref, wrapped number and repository |
| Queue.HandleMergeQueue | src/queue.rs:26-74 | one pass on the store equals `RunPass` on the old tables: the same merge requests, the same end and the same new merge table. `pull_requests` is unchanged and the store stays valid |
| Queue.MergeAll | src/queue.rs:34-71 | the loop over the fetched rows equals `Pass` and only removes merge keys |
| Queue.MergeOne | src/queue.rs:35-70 | one loop iteration equals `Visit`: it skips rows without exactly one merge; otherwise it marks `Started`, calls merge, then deletes or marks `Failed`, and it stops at the first failing write |
| Queue.PassStops | src/queue.rs:56-68 | after a failing write or a panic, later pull requests are not visited |
| Queue.VisitFrame | src/queue.rs:35-70 | a visit touches only its own row; a completed visit sent exactly that pull request's request and deleted the row if merged, else left it `Failed` |
| Queue.VisitMarksStarted | src/queue.rs:51-70 | the row is marked `Started` before the merge call. A failing `Started` write sends no request and leaves the table as it was. A failing `Failed` write or delete after the call leaves the request sent and the row `Started`. Each failure happens exactly under its own condition |
| Queue.PassUntouched | src/queue.rs:34-71 | a pass only removes rows, and rows of pull requests not yet visited are unchanged |
| Queue.VisitUntouched | src/queue.rs:35-70 | one visit keeps the table within the original keys and leaves every other original row as it was |
| Queue.Queued | src/queue.rs:35-37 | the visited ids that have a merge row, in visiting order |
| Queue.PassSettles | src/queue.rs:34-71 | after a completed partial pass, every queued row visited so far is deleted or `Failed`, as GitHub decided |
| Queue.PassRequests | src/queue.rs:34-71 | a completed partial pass sent one request per queued pull request visited, in order |
| Queue.QueuedAscending | src/queue.rs:29-37 | the queued ids keep the ascending order of the fetch |
| Queue.CompletedPassSettles | src/queue.rs:26-74 | a completed pass settles every queued row and adds none |
| Queue.CompletedPass | src/queue.rs:26-74 | after a completed pass the table holds exactly the rows GitHub refused, all `Failed`; every queued pull request had a well-formed request |
| Queue.SettledTable | src/queue.rs:63-69 | a table in which every queued row is settled is the table of refused rows, all `Failed` |
| Queue.CompletedPassRequests | src/queue.rs:26-74 | a completed pass sent exactly one merge request per queued pull request, in ascending id order |
| Queue.QueuedWithoutApproverNeverCompletes | src/queue.rs:43 | no pass over a table that queues a pull request without an approver completes |
| Queue.VisitIgnoresStatus | src/queue.rs:35-70 | a visit does not depend on the row's status |
| Queue.PassIgnoresStatus | src/queue.rs:34-71 | a pass over rows that differ only in status sends the same requests and ends the same way |
| Queue.StatusNeverConsulted | src/queue.rs:26-74 | two tables with the same keys give the same requests and the same end, whatever the statuses |
| Queue.FailedMergesRetried | src/queue.rs:20-66 | the next pass sends a request again for every pull request GitHub refused, in ascending id order |
| Queue.QueueServer | src/queue.rs:15-24 | the server's loop equals `Serve`: passes in turn until one does not complete; the store stays valid |
| Queue.ServeConcat | src/queue.rs:15-24 | serving `first` then `second` is serving `first` and then, only when its last pass completed, serving `second` on the table it left; a failed pass ends the server and no later pass runs |
| Actions.NewRow | src/actions.rs:126-153 | a missing head or base label gives no row. Otherwise the row holds the id, full name, `Pending`, the shas, the labels and the assignee's login, with `number` 0, no approver, priority 0, flags false and no delegate |
| Actions.InsertPull | src/actions.rs:115-160 | the insert succeeds exactly when both labels are present and the id is new. A missing label fails `NOT NULL` before the key is checked. On success exactly the new row is added |
| Actions.InsertPullTwiceFails | src/actions.rs:126-132 | inserting the same pull request twice fails on the primary key |
| Actions.SavePullToDb | src/actions.rs:115-160 | the store method returns `InsertPull`'s verdict and takes its table on success |
| Actions.WithStatus | src/actions.rs:173-176 | the update changes the status of that id only and adds no row |
| Actions.WithStatusOverwrites | src/actions.rs:162-186 | the last status written wins |
| Actions.SetPullRequestStatus | src/actions.rs:162-186 | the method always succeeds, even for an id that is not stored, and updates the table as `WithStatus` |
| Actions.WithApproval | src/actions.rs:199-204 | the update sets `Approved` and the approver on that id only |
| Actions.ApprovalSetsStatus | src/actions.rs:199-210 | an approval is also a status update to `Approved`, and records the approver |
| Actions.SetPullRequestApproved | src/actions.rs:188-217 | the method always succeeds and updates the table as `WithApproval` |
| Actions.PingMessageChoice | src/actions.rs:23-32 | the configured message is used when every level is present; otherwise the default |
| Actions.DefaultPingReply | src/actions.rs:16-43 | the default reply is "Hi @<login>! Yes, I'm still alive!" |
| Actions.PlainPingMessage | src/actions.rs:43 | a message without the placeholder is posted as it is |
| Actions.Ping | src/actions.rs:18-50 | without an owner it panics and sends nothing; otherwise it posts one comment and panics exactly when posting fails |
| Actions.PingGreetsIssueAuthor | src/actions.rs:21-44 | for any configured message, the one reply goes to the pinged issue with `{{COMMENTER}}` replaced by the issue author's login, does not depend on the comment or its author, and with no message configured is the default greeting |
| Actions.PingReplyNamesLogin | src/actions.rs:43 | in a configured message the first `{{COMMENTER}}` becomes the login and the text before it is kept as is |
| Actions.SetAssignee | src/actions.rs:52-53 | without an owner it panics and sends nothing |
| Actions.SetAssigneeTarget | src/actions.rs:52-76 | exactly one assignment is sent: to the named user, otherwise to the issue's author. The comment's author is never read, and a failure is only logged |
| Actions.RemoveAssignee | src/actions.rs:78-113 | the method's loop over the listing sends what `RemoveAssigneeSpec` says |
| Actions.RemoveOnlyIfAssigned | src/actions.rs:89-112 | a deletion is sent exactly when the listing succeeded and shows the issue's author, and only for that login |
| Actions.ConfirmationMentionsNobody | src/actions.rs:261-266 | the fixed parts of the confirmation contain no `@` |
| Actions.ApprovalCommentIsInert | src/actions.rs:261-266 | with `@`-free commit id and commenter, the confirmation parses to no command, so the bot does not answer itself |
| Actions.ApprovePull | src/actions.rs:219-279 | the handler's store effect and requests are `ApproveSpec`'s. Only the merge table changes, and the store stays valid |
| Actions.ApproveConfirmsRegardless | src/actions.rs:251-278 | once the pull request is found, the confirmation is posted whether or not the enqueue succeeded. The table changes exactly when the enqueue succeeds, and then gains a `Waiting` row |
| Actions.ApproveWithoutPullDoesNothing | src/actions.rs:228-249 | when the lookup fails or finds nothing, the queue is unchanged and no comment is posted |
| Actions.SavedThenApprovedStallsQueue | src/actions.rs:147-251 | a pull request saved by the webhook and then approved reaches the queue without an approver, so no later pass completes |
| Routes.EventNamesVisible | src/routes.rs:50-68 | both event names pass `to_str` |
| Routes.CommandIntents | src/routes.rs:87-93 | each command reaches at most one handler, and `Approve` reaches none |
| Routes.DispatchConcat | src/routes.rs:86-94 | the dispatch of two command lists is the dispatch of the first followed by the second's |
| Routes.UnknownDeliveriesDropped | src/routes.rs:60-78 | without the event header, or with an unknown event, nothing is dispatched and nothing panics |
| Routes.PanicsExactly | src/routes.rs:68-74 | decoding the delivery panics exactly when the header value is refused by `to_str` or the body does not decode as the named event (the save `unwrap` and the dispatched handlers panic separately, see `Routes.PullRequestDeliveryStores` and the `Actions` rows) |
| Routes.BodilessCommentDispatchesNothing | src/routes.rs:83 | a comment without a body dispatches nothing |
| Routes.CommentWithBodyIsParsed | src/routes.rs:83-94 | a comment's body is parsed for the app's login, and its commands are dispatched in order |
| Routes.CommentsOnlyAssign | src/routes.rs:84-94 | every handler call made for a comment is `set_assignee` with the user "c" or "claim" |
| Routes.OnlyClaimIntents | src/routes.rs:86-94 | parsable commands dispatch only to `set_assignee` with their claim word |
| Routes.ApprovalCommentNotDispatched | src/routes.rs:88 | "@bot r+" reaches no handler |
| Routes.ClaimAssignsUserNamedClaim | src/routes.rs:84-90 | "@bot claim next" dispatches one `set_assignee` for the user "claim", and that call assigns "claim" |
| Routes.PullRequestDeliveryStores | src/routes.rs:97-98 | an opened pull request is handed to `save_pull_to_db`, and the `unwrap` panics exactly when the pull request is already stored or lacks its head or base label; otherwise the table gains exactly the new row |

## Left out

- HTTP, JWT signing, the `GithubClient`, `get_config`, logging and the TLS setup are left out. Each GitHub call's outcome is an input: `posted`, `listing`, `lookup` or `acceptedMerges`. Logging is dropped because it changes no state.
- Opening a database connection (`open().await.unwrap()` in src/actions.rs:120-124, 167-171 and 193-197) is not modelled. The store is always reachable in those handlers. `get_db` failure is modelled only in the queue, as `connected` or `readFails`.
- The SQL layer is not modelled byte for byte. The tables are maps, `INSERT` is checked for `NOT NULL` and then the primary key, and `UPDATE` of a missing id changes nothing. The `unique (id, repository)` constraint is implied by the primary key.
- JSON decoding is an input (`Bodies`), and the `HeaderMap` lookup is an `Option` of the header's text.
- Queue.QueueServer: it runs for a given finite sequence of passes, not forever. The five-second sleep between passes is left out.
- Queue.MergeOne: the inner `for merge in merges` runs once, because the loop is entered only when there is exactly one merge row.
- Concurrency is not modelled. While a pass runs, webhooks that write the same tables are not interleaved with it.
- `Test` and `CheckSuite` rows (src/model.rs:100-105, 140-144) are not stored by any core operation. Only their status codes are modelled.
- Unicode: strings are sequences of code points. `split_whitespace` uses Rust's `White_Space` set, and no normalisation is done.
- Routes.PostGithub: a `pull_request` delivery whose action is not "opened" is folded into "the body does not decode", as serde refuses it.
