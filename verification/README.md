# Telekube: a verified model

Telekube is a Telegram bot for operating Kubernetes clusters. This project models its small state
machines and algorithms in Dafny and proves what they keep over every input, run and interleaving.

Three kinds of files:

- Code that works step by step is written as classes and methods with loops, each proved against a
  specification (`ApprovalManager`, `AuditLogger`, `RateLimiter`, `AlertCache`, `SplitMessage`,
  `AccessRules`, `FlatPermissions`, `ClusterClients`, `ArgoWatcher`, `BriefingScheduler`).
- Code that runs concurrently is also written as a machine of atomic steps, a run being any sequence of
  steps (`ApprovalProtocol`, `AuditPipeline`, `AlertProtocol`, `ClusterProtocol`). Lemmas in the same
  files show that the methods are the uninterrupted runs of the machines.
- `ApprovalQuorum`, `SplitProperties`, `BuiltinRoles` and the later parts of the other files hold the theorems.

Times are integer instants; the approval model counts seconds, the rate limiter and the scheduler
nanoseconds. Clock readings, tick times, database outcomes, the outcome of creating a client and the
lists fetched from ArgoCD are inputs of each call or step.

## Findings

Properties the code does not have, each with the exact condition under which it does, or a bound:

- The message-id write-back after a submission rewrites the row from the submitter's copy without the
  lock. If it lands on an approved row, it reopens the request, and Decide can return executeNow twice
  (`LateWriteBackExecutesTwice`). An execution in the model is such a return; the bot's handler answers it
  with a text. In every run there is one for a request that is approved, plus one if it has been reopened,
  which happens at most once (`ExecutionsCounted`). Executions match approvals throughout a run exactly when
  no write-back lands on an approved row (`ExecutionsMatchIff`), and approved, rejected and cancelled rows
  last exactly when none lands on any of them (`OutcomesLastIff`).
- An expiry is not final: a decision read and checked before the deadline overwrites one that lands before
  its write (`DecisionOverwritesExpiry`). A resolved row is final exactly when no write-back is to come and
  the lock holder neither will write it nor would pass its checks now (`FinalIff`).
- The alert watchers release the lock between test and mark. A mute that falls in between is lost: an alert
  about to be marked is still sent (`LostMute`). `MuteHonouredIff` says exactly when a mute holds, and
  `ProgramMuteIff` that with the program's one-hour mutes nothing else can break one.
- `SplitMessage` says its parts fit the limit. They fit a budget, for all texts with lines of at most n
  bytes, exactly when it is at least the limit plus four and at least n plus nine (`PartsFitIff`), so never
  the limit itself; without fences the parts of a text fit a budget of at least the limit exactly when its
  lines do (`PlainTextFitsIff`); a line is never cut (`LinesAreNotCut`). The log viewer's messages fit Telegram's
  4096 bytes exactly as long as no line is longer than 4087 (`LogPartsFitIff`).
- The rules and the permissions of a built-in role agree on all requests exactly if the role is not super-admin
  (`RolesAgreeIff`), which allows everything by its rule and lists the permissions of admin. A user who is
  assigned a built-in role through the bot gets the flat role and a binding to a role that no code stores. While
  it is not stored, the user is allowed exactly the role's permissions, and storing it would change no decision
  exactly if the role is not super-admin (`AssignedRoleIff`).
- Authorisation does not fail safe. If a user's bindings, or one of their roles, cannot be read, deny rules
  are silently lost (`UnloadedRoleGrants`). Failed reads allow what full reads refuse exactly if they lose
  every matching deny while a matching grant or the flat permission is left (`FailedReadsGrantIff`). Deny
  rules come from the stored roles, which the bot itself never writes.
- The scheduler sends at most one briefing a day exactly when no tick is handled more than a minute and
  a nanosecond after the time it carries (`OncePerDayIff`).
- A schedule that is no time of day is accepted and never fires (`DueSometimeIff`).

## Hypotheses that are needed

These inputs do not occur in the program; they show what its results depend on.

- Each cluster's events come from one goroutine. Two producers of one key could both send
  (`TwoProducersSendTwice`).
- Mutes last one hour and the cooldown five minutes, so alerts of a key are the full cooldown apart
  (`ProgramSpacingIff`). A gap is kept by every run exactly when neither the cooldown nor the shortest mute
  is shorter (`SpacingIff`).
- All mutes last equally long, so muting again never shortens one. A later mute replaces an earlier one even
  if it ends sooner: if later mutes last at least d, a mute holds in every continuation exactly when it lasts
  at most d and no producer was caught (`MuteSilencesIff`).
- The permissions of the program have three parts without wildcards (`FlatIsPlain`, `TextsArePlain`). Flat and
  structured form agree on all requests exactly when no permission of a list has more than three parts or a
  wildcard among three (`FormsAgreeIff`).

## Model

Rows marked as corollaries follow from the order-free decision that Authorize is proved against.

| member | source | states |
|---|---|---|
| ApprovalRequests.ApprovalCount | internal/entity/approval_request.go:54-62 | the loop counts the entries with an approval |
| ApprovalRequests.HasRejection | internal/entity/approval_request.go:65-72 | true exactly if some entry rejects |
| ApprovalRequests.TallyCountsUsers | internal/entity/approval_request.go:54-62 | with one entry per user, counting entries is counting distinct users |
| ApprovalRequests.RecordInPlace | internal/module/approval/module.go:160-178 | the in-place loop with its early exit overwrites the user's first entry or appends one |
| ApprovalRequests.RecordPlaces | internal/module/approval/module.go:160-178 | the new entry, with comment and time, stands at the user's old place or at the end, and no other entry changes |
| ApprovalRequests.RecordUpdatesBallot | internal/module/approval/module.go:160-178 | recording keeps one entry per user and is a map update on each user's latest vote |
| ApprovalRequests.VoteKeepsConsistent | internal/module/approval/module.go:179-189 | one vote by a non-requester keeps votes and status consistent and asks for execution exactly if the row becomes approved |
| ApprovalManager.MatchingRule | internal/module/approval/module.go:94-110 | none exactly if disabled or no rule covers the action and cluster, otherwise the first covering rule |
| ApprovalManager.CoversIff | internal/module/approval/module.go:98-107 | a rule covers its action on the clusters it names, or on all if it names a star |
| ApprovalManager.Manager.RequiresApproval | internal/module/approval/module.go:94-110 | the nested loops return that first rule |
| ApprovalManager.Manager.constructor | internal/module/approval/module.go:73-90 | a missing expiry becomes 30 minutes |
| ApprovalManager.Manager.Submit | internal/module/approval/module.go:113-136 | succeeds with the first covering rule's quorum, the configured deadline and empty resolution columns, and refuses without change if no rule covers, the id exists or the write fails |
| ApprovalManager.Manager.Decide | internal/module/approval/module.go:140-201 | has the result and table of the specification that the next two rows spell out |
| ApprovalManager.DecideSucceedsIff | internal/module/approval/module.go:144-158 | recorded exactly if read and written, pending, by the deadline and not by the requester; otherwise nothing changes, and each refusal has its error |
| ApprovalManager.DecideRecords | internal/module/approval/module.go:160-201 | the row gets the user's entry, is rejected exactly if an entry rejects, approved exactly if none does and the quorum is reached, and is stamped with the call's time and user exactly if resolved |
| ApprovalManager.Manager.Cancel | internal/module/approval/module.go:204-224 | succeeds exactly for the requester of a pending request, which becomes cancelled at the call's time by that user; otherwise nothing changes, and each refusal has its error |
| ApprovalManager.ApprovalRepo.Create | internal/storage/sqlite/rbac_repo.go:192-207 | the id is unique, the resolution columns start empty |
| ApprovalManager.ApprovalRepo.GetByID | internal/storage/sqlite/rbac_repo.go:209-220 | the stored row or not found |
| ApprovalManager.ApprovalRepo.Update | internal/storage/sqlite/rbac_repo.go:222-236 | five columns of the row are overwritten, its others and all other rows keep their values, an unknown id changes nothing |
| ApprovalManager.ApprovalRepo.ExpireOld | internal/storage/sqlite/rbac_repo.go:264-275 | exactly the pending rows past due become expired at that time, every other row stays, and the number of changed rows is returned |
| ApprovalProtocol.SubmitIsStep | internal/module/approval/module.go:113-136 | the submission step of the machine has the effect of Submit |
| ApprovalProtocol.DecideIsRun | internal/module/approval/module.go:140-201 | read, check and write without interference have the effect of Decide |
| ApprovalProtocol.CancelIsRun | internal/module/approval/module.go:204-224 | read, check and write without interference have the effect of Cancel |
| ApprovalProtocol.FailedWriteIsRun | internal/module/approval/module.go:191-193 | a call whose write fails changes nothing and gives the lock back |
| ApprovalProtocol.ExpiryIsStep | internal/storage/sqlite/rbac_repo.go:264-275 | the worker's step expires exactly the pending rows past due |
| ApprovalProtocol.WriteBackWrites | internal/module/approval/checker.go:73-78 | the write-back stores the message id together with the submitter's status, entries and resolution |
| ApprovalProtocol.QuorumAsConfigured | internal/module/approval/module.go:113-136 | in every reachable state each row's quorum is that of the first rule covering its action and cluster, and its deadline the configured time after its creation |
| ApprovalProtocol.ExecutionsCounted | internal/module/approval/module.go:140-224 | in every run, without exception, Decide has returned executeNow for a request once if it is approved and once more if it was reopened, which happens at most once |
| ApprovalProtocol.ExecutionsMatchIff | internal/module/approval/checker.go:73-78 | executions match approvals after every step of a run if and only if no message-id write-back lands on an approved row |
| ApprovalProtocol.EveryExecutionBacked | internal/module/approval/module.go:154-189 | in every run each execution has, when it is asked for, exactly the distinct approvers that the configuration requires, without the requester and without a rejection |
| ApprovalProtocol.ExecutionNeedsQuorum | internal/module/approval/module.go:154-189 | the row of an executed request still shows that quorum unless it was reopened |
| ApprovalProtocol.OutcomesLastIff | internal/module/approval/module.go:140-224 | approved, rejected and cancelled rows never change in a run if and only if no message-id write-back lands on one |
| ApprovalProtocol.FinalIff | internal/storage/sqlite/rbac_repo.go:222-275 | an expired, approved, rejected or cancelled row never changes again if and only if no write-back is to come and the lock holder neither will write it nor would pass its checks now |
| ApprovalProtocol.OutcomesInTime | internal/module/approval/module.go:150-152 | in every reachable state approvals and rejections came by the deadline and expiries after it |
| ApprovalProtocol.OutcomesMatchVotes | internal/module/approval/module.go:154-189 | in every reachable state the votes of a row explain its status |
| ApprovalProtocol.LateWriteBackExecutesTwice | internal/module/approval/checker.go:73-78 | a run in which a late write-back leads to two executions of one request |
| ApprovalProtocol.DecisionOverwritesExpiry | internal/storage/sqlite/rbac_repo.go:264-275 | an expiry between a decision's check and its write is overwritten |
| ApprovalQuorum.DecidedIsDecide | internal/module/approval/module.go:140-201 | the one-row decision is the manager's Decide on that row |
| ApprovalQuorum.ListRefinesPoll | internal/module/approval/module.go:154-189 | over every history of decisions the entry list decides like a poll of each user's latest vote |
| ApprovalQuorum.QuorumCompletes | internal/module/approval/module.go:148-190 | with timely approvals exactly the call that brings the last missing distinct approver executes |
| AuditLogger.Logger.Log | internal/audit/logger.go:52-61 | accepted exactly if the buffer has room, dropped otherwise |
| AuditLogger.Logger.WriteBatch | internal/audit/logger.go:130-143 | every entry of the batch is attempted once, in order |
| AuditLogger.Logger.Flush | internal/audit/logger.go:69-83 | the channel is emptied into the repository in order |
| AuditLogger.Logger.WorkerTurn | internal/audit/logger.go:100-127 | one turn of the worker keeps the sequence of written, batched and waiting entries |
| AuditLogger.Logger.Close | internal/audit/logger.go:86-90 | everything batched and waiting is written, in order |
| AuditPipeline.EveryEntryAccounted | internal/audit/logger.go:52-143 | in every interleaving each submitted copy is dropped, waiting, batched, held by a flush or attempted |
| AuditPipeline.DroppedOnlyWhenFull | internal/audit/logger.go:52-61 | over a run the dropped entries are exactly those logged while 1000 entries were waiting |
| AuditPipeline.AcceptanceOrder | internal/audit/logger.go:92-143 | when only Close flushes, accepted entries are attempted in acceptance order and the batch stays at most 100 before shutdown |
| AuditPipeline.CloseDelivers | internal/audit/logger.go:86-128 | once Close has returned and no Log came after, every accepted entry was attempted once or is held by a running flush |
| AuditPipeline.CloseDeliversInOrder | internal/audit/logger.go:86-128 | when only Close flushes, the accepted entries have then been attempted in order |
| AuditPipeline.ClosingShrinks | internal/audit/logger.go:113-126 | after Close is called each step of the worker or of Close shrinks a measure and no flush enlarges it |
| AuditPipeline.ClosingNeverStuck | internal/audit/logger.go:86-128 | until Close returns, the worker or Close can take a step |
| AuditPipeline.CloseTerminates | internal/audit/logger.go:86-128 | under every schedule without Log the number of those steps is bounded |
| AuditPipeline.CloseReturns | internal/audit/logger.go:86-128 | from every state after the call of Close, fewer steps of the worker and Close than the measure bring Close to its return |
| AuditPipeline.CloseCompletes | internal/audit/logger.go:86-90 | Close can be called in every reachable state and then comes to its end |
| AuditPipeline.FlushAlone | internal/audit/logger.go:69-83 | an uninterrupted flush of the machine has the effect of Flush |
| AuditPipeline.FlushCallAlone | internal/audit/logger.go:69-83 | a call of Flush that meets nothing else empties the channel into the repository |
| AuditPipeline.LogAlone | internal/audit/logger.go:52-61 | Log adds the entry while fewer than 1000 wait and drops it otherwise |
| AuditPipeline.EntryTurnAlone | internal/audit/logger.go:102-107 | a received entry joins the batch, which is written exactly when it reaches 100 |
| AuditPipeline.TickTurnAlone | internal/audit/logger.go:108-112 | a tick writes the batch |
| AuditPipeline.DoneTurnAlone | internal/audit/logger.go:113-126 | at shutdown the worker writes its batch and what is waiting, and stops |
| AuditPipeline.WriteBatchAlone | internal/audit/logger.go:130-143 | uninterrupted writing of the machine has the effect of writeBatch |
| RateLimiter.Limiter.RateLimit | internal/bot/middleware/ratelimit.go:11-16 | a limit below one becomes 30 |
| RateLimiter.CompactInPlace | internal/bot/middleware/ratelimit.go:57-65 | compaction inside the array being read leaves the times after the cutoff, in order |
| RateLimiter.Limiter.Allow | internal/bot/middleware/ratelimit.go:47-75 | reply and new windows as specified, with backing arrays compacted, appended to or replaced and never shared between users |
| RateLimiter.StoredAfterCall | internal/bot/middleware/ratelimit.go:65-74 | a call stores the user's live times and the new one if allowed, and other users keep theirs |
| RateLimiter.PrunedAgreesWithFull | internal/bot/middleware/ratelimit.go:57-73 | the pruned list and the full history agree for every cutoff a later call can use |
| RateLimiter.AllowedIffWindowNotFull | internal/bot/middleware/ratelimit.go:47-75 | allowed exactly if fewer than the limit of the user's allowed calls lie in the last minute |
| RateLimiter.NoWindowExceedsLimit | internal/bot/middleware/ratelimit.go:10-32 | no minute ending anywhere holds more allowed calls of a user than the limit |
| RateLimiter.StoredIsBounded | internal/bot/middleware/ratelimit.go:65-74 | a stored list never exceeds the limit |
| AlertCache.Cache.Check | internal/module/watcher/pod_watcher.go:191-197 | send exactly if there is no entry or it has cooled down |
| AlertCache.Cache.Alert | internal/module/watcher/pod_watcher.go:188-201 | check and mark: the key is marked exactly if the alert is sent |
| AlertCache.Cache.MuteAlert | internal/module/watcher/pod_watcher.go:264-268 | the entry cools down exactly when the duration has passed, and other entries stay |
| AlertCache.Cache.Cleanup | internal/module/watcher/pod_watcher.go:300-307 | deleting while ranging, in any order, leaves exactly the entries within the cooldown |
| AlertProtocol.SweepIsPrunes | internal/module/watcher/node_watcher.go:293-300 | a sweep is one deletion step for each key |
| AlertProtocol.AlertIsRun | internal/module/watcher/node_watcher.go:154-167 | look, compare and mark without interference have the effect of Alert |
| AlertProtocol.CleanupUnobservable | internal/module/watcher/pod_watcher.go:292-310 | in every interleaving deletions change neither which alerts are sent nor when |
| AlertProtocol.AlertsAreSpaced | internal/module/watcher/pod_watcher.go:188-201 | with one producer per key, alerts of a key are a cooldown apart, or the shortest mute if shorter, wherever mutes and deletions fall |
| AlertProtocol.SpacingIff | internal/module/watcher/pod_watcher.go:188-268 | a gap between alerts of a key is kept by all runs with one producer per key if and only if neither the cooldown nor the shortest mute is shorter |
| AlertProtocol.ProgramSpacingIff | internal/module/watcher/module.go:198-211 | with mutes of an hour and a cooldown of five minutes, exactly the gaps up to the cooldown are kept |
| AlertProtocol.TwoProducersSendTwice | internal/module/watcher/pod_watcher.go:191-201 | without one producer per key, two could send the alert at the same instant |
| AlertProtocol.MuteHonouredIff | internal/module/watcher/pod_watcher.go:191-201 | a mute silences its key for its whole duration, in every continuation whose later mutes reach as far, if and only if no producer in flight may still mark before |
| AlertProtocol.MuteSilencesIff | internal/module/watcher/pod_watcher.go:264-268 | if later mutes of the key last at least d, a mute silences it in every continuation if and only if it lasts at most d and no producer in flight may still mark before its end |
| AlertProtocol.MuteHonouredWhenIdle | internal/module/watcher/pod_watcher.go:264-268 | with nothing in flight a mute holds unless a later one ends earlier, and against all later mutes of at least d exactly if it lasts at most d |
| AlertProtocol.ProgramMuteIff | internal/module/watcher/module.go:198-211 | muting again for an hour never shortens a mute of an hour |
| AlertProtocol.LostMute | internal/module/watcher/pod_watcher.go:191-201 | in a reachable state with an alert about to be marked a mute is not honoured |
| Delimited.SplitOfJoin | internal/rbac/defaults.go:170-181 | splitting undoes joining |
| Delimited.JoinOfSplit | pkg/telegram/format.go:113 | joining undoes splitting |
| SplitMessage.Split | pkg/telegram/format.go:104-155 | the byte-building loop yields the rendered chunks, and a short text is left alone |
| SplitProperties.ChunksCarryLines | pkg/telegram/format.go:117-152 | the chunks hold the lines of the text, all, once, in order, and a block is reopened exactly after a chunk that was closed |
| SplitProperties.PartsLineByLine | pkg/telegram/format.go:128-152 | each part is the lines it received, without empty ones at its start unless it reopens a block, between a fence and a blank line in front and a fence behind where a block was cut |
| SplitProperties.PartsAreNotEmpty | pkg/telegram/format.go:150-152 | no empty part is sent, and only an empty last part is left out |
| TextLines.AsciiFenceIff | pkg/telegram/format.go:118-119 | an ASCII line is a fence exactly if three backticks follow nothing but white space |
| SplitProperties.ContentKept | pkg/telegram/format.go:101-155 | without the insertions the parts hold the non-empty lines of the text, in order |
| SplitProperties.FencesBalanced | pkg/telegram/format.go:101-155 | every part but the last has an even number of fences, the last the parity of the text |
| SplitProperties.PartLength | pkg/telegram/format.go:121-144 | each part is at most the limit or the longest line plus nine bytes, and four more only after a cut behind an opening fence |
| SplitProperties.NoNeedlessCut | pkg/telegram/format.go:128 | a part ends only where the next line would have taken it over the limit |
| SplitProperties.LinesAreNotCut | pkg/telegram/format.go:141-144 | some part is at least as long as each line |
| SplitProperties.PartsFitIff | pkg/telegram/format.go:121-144 | the parts of all texts with lines of at most n bytes fit a budget if and only if it covers the limit plus four and n plus nine |
| SplitProperties.LogPartsFitIff | internal/module/kubernetes/logs.go:196 | with the log viewer's limit every part fits 4096 bytes if and only if no line may exceed 4087 |
| SplitProperties.PlainTextFitsIff | pkg/telegram/format.go:117-152 | the parts of a text without fences fit a budget of at least the limit if and only if its lines do |
| AccessRules.Engine.constructor | internal/rbac/engine.go:67-98 | the permission maps hold exactly the permissions of the role definitions |
| AccessRules.Engine.Authorize | internal/rbac/engine.go:122-162 | the loops decide as the declarative reading: super admin, else deny, else allow, else the flat permission |
| AccessRules.OrderIrrelevant | internal/rbac/engine.go:133-152 | corollary: order and repetition of bindings and rules do not matter |
| AccessRules.DeadBindingIgnored | internal/rbac/engine.go:134-140 | corollary: an expired binding or one to an unknown role has no effect |
| AccessRules.AddedBindingIff | internal/rbac/engine.go:119-155 | corollary: with one more binding a request is allowed exactly if it brings no matching deny and either the request was allowed before or it is granted now and denied by nothing |
| AccessRules.GrantsOnlyAdd | internal/rbac/engine.go:133-155 | corollary: a further binding without deny rules never takes a permission away |
| AccessRules.FlatPermissionIsListed | internal/rbac/engine.go:101-117 | held exactly by super admins and by users whose stored role, or the default role if none is stored, is defined with the permission |
| AccessRules.ReadFailureIsPassedOn | internal/rbac/engine.go:169-176 | only a missing role falls back to the default; any other failure is the answer |
| AccessRules.RoleOfUser | internal/rbac/engine.go:164-178 | admin for super admins, the stored role, or the default role |
| AccessRules.MatchesIff | internal/entity/role.go:17-33 | each of the five lists must have the request's value or a star |
| AccessRules.OtherClusterUnaffected | internal/entity/role.go:17-33 | rules for other clusters change no decision |
| AccessRules.CountsUntilExpiry | internal/entity/role.go:56-62 | a binding counts up to and including its expiry, and for ever without one |
| AccessRules.FailedReadsGrantIff | internal/rbac/engine.go:128-161 | corollary: failed reads allow what full reads refuse if and only if they lose every matching deny and a matching grant or the flat permission is left |
| AccessRules.UnloadedRoleGrants | internal/rbac/engine.go:137-141 | a request that a role denies is allowed when that role cannot be loaded |
| FlatPermissions.SplitPerm | internal/rbac/defaults.go:170-181 | the loop returns the parts between dots |
| FlatPermissions.FlatPermsToRules | internal/rbac/defaults.go:151-168 | one rule for each permission of three parts, in order |
| FlatPermissions.RulesInOrder | internal/rbac/defaults.go:151-168 | each further permission adds its one rule at the end, for all clusters and namespaces, or none if it has not three parts |
| FlatPermissions.ThreeParts | internal/rbac/engine.go:160 | three parts are recovered from the flat form exactly when there are three |
| FlatPermissions.PlainMatchesItself | internal/entity/role.go:17-33 | the rule of a permission without wildcards matches exactly the request it spells |
| FlatPermissions.FormsAgreeIff | internal/rbac/defaults.go:149-168 | flat and structured form agree on all requests if and only if every permission is plain |
| FlatPermissions.BoundRoleAddsPermissions | internal/rbac/engine.go:127-162 | a bound role made of plain permissions allows what the list names and falls back otherwise |
| FlatPermissions.FlatIsPlain | internal/rbac/defaults.go:11-55 | three words without dot or wildcard make a plain permission, and its parts are the words |
| BuiltinRoles.TextsArePlain | internal/rbac/defaults.go:11-55 | every list of the program's permission constants is plain |
| BuiltinRoles.ListedRoleAgrees | internal/rbac/defaults.go:100-146 | a role converted from any such list has rules and permissions that agree on all requests |
| BuiltinRoles.RolesAgreeIff | internal/rbac/defaults.go:61-147 | a built-in role's rules and permissions agree on all requests if and only if it is not super-admin |
| BuiltinRoles.AssignedRoleIff | internal/module/rbacmod/module.go:371-386 | an assigned built-in role allows exactly its permissions while its rules are not stored, and storing them changes no decision if and only if it is not super-admin |
| BuiltinRoles.ViewersOnlyRead | internal/rbac/defaults.go:63-76 | viewers and users without a stored role are allowed only to list, get, view and read logs and events |
| ClusterClients.Manager.GetOrCreateClients | internal/cluster/manager.go:155-195 | result and entry of one call, with both failures |
| ClusterProtocol.AtMostOneCreation | internal/cluster/manager.go:168-194 | in every interleaving a cluster's clients are created at most once |
| ClusterProtocol.AllCallsAgree | internal/cluster/manager.go:155-194 | all successful calls for a cluster return the same clients, never nil |
| ClusterProtocol.ClientsAreStable | internal/cluster/manager.go:192-194 | clients once set never change |
| ClusterProtocol.FailureIsRetryable | internal/cluster/manager.go:180-194 | a failed creation changes no clients and releases the lock, and the next call creates them |
| ClusterProtocol.CallIsRun | internal/cluster/manager.go:155-195 | a call that meets no other one has the effect of GetOrCreateClients from any sound state, so missing clients can be created whatever failed before |
| ArgoWatcher.Watcher.SeedInitialState | internal/module/watcher/argocd_watcher.go:80-99 | the first list becomes the state without notices |
| ArgoWatcher.Watcher.Poll | internal/module/watcher/argocd_watcher.go:102-144 | the state becomes the list keyed by name, notices follow the list and then the deletions, and replaying all notices since the seed gives the tracked names |
| ArgoWatcher.NoticesExact | internal/module/watcher/argocd_watcher.go:115-135 | for distinct names, new exactly for added names and changed exactly for reportable differences, each once |
| ArgoWatcher.NoticesReported | internal/module/watcher/argocd_watcher.go:115-135 | new exactly for added names, changed exactly for kept names whose health or sync status differs while the flag for it is set |
| ArgoWatcher.ChangesAnnounced | cmd/telekube/main.go:280-281 | with both flags set every change of either status is announced |
| ArgoWatcher.NextNotice | internal/module/watcher/argocd_watcher.go:112-135 | also with repeated names, notices come in the order of the list, each from the last earlier entry of its name or the old state |
| ArgoWatcher.DeletionsExact | internal/module/watcher/argocd_watcher.go:137-143 | deleted exactly for stored applications whose name the list lacks, as stored, each once |
| ArgoWatcher.LastIsKept | internal/module/watcher/argocd_watcher.go:92-94 | of several entries with one name the last is kept |
| ArgoWatcher.ReplayPoll | internal/module/watcher/argocd_watcher.go:137-143 | the notices of a poll turn the old tracked names into the new ones |
| BriefingScheduler.Run | internal/module/briefing/scheduler.go:77-98 | the loop fires as the specification of the history says |
| BriefingScheduler.DueIsInWindow | internal/module/briefing/scheduler.go:86-91 | due exactly in the minute that starts at the day's scheduled time |
| BriefingScheduler.DueIffLocalMinute | internal/module/briefing/scheduler.go:81-89 | due exactly if the clock of the zone shows the scheduled hour and minute |
| BriefingScheduler.DueSometimeIff | internal/module/briefing/scheduler.go:86-89 | a schedule is ever due if and only if it is a time of day |
| BriefingScheduler.OncePerDayIff | internal/module/briefing/scheduler.go:91-96 | at most one briefing a local day for all tick sequences if and only if ticks are handled within a minute and a nanosecond |
| BriefingScheduler.ExactlyOneOnFullDay | internal/module/briefing/scheduler.go:77-98 | exactly one briefing on a day covered by ticks at most a minute apart |

## Left out

- Telegram handlers, keyboards, message texts, emoji and escaping helpers: they only format.
- Kubernetes, Helm, Redis and Postgres calls, SQL text, JSON and migrations; the SQLite statements are modelled by their effect on the table.
- Several bot processes on one database: the mutex is per process, and the model has one.
- The request fields no code of the workflow compares (resource, namespace, details, names, chat).
- Truncation of stored approval times to seconds: the model's approval clock counts seconds.
- Database writes that fail after taking effect: a failed write changes nothing.
- Write errors of audit entries: an entry counts as attempted whether or not the write succeeds.
- The second clock reading of Decide in the machine: there it equals the first; Manager.Decide takes both.
- RateLimiter.Append: the new capacity of a full slice is doubled, where the language's runtime chooses it.
- AlertCache.Cache.Cleanup: takes one clock reading for a whole sweep, where the code reads the clock at each key; the machine's deletion steps allow time to pass between keys.
- AccessRules.Engine.Authorize: takes one clock reading for all bindings and one snapshot of the roles.
- Slice growth in the built-in role lists, which share a backing array after append.
- The text of the cron schedule: hour and minute are inputs. Daylight-saving changes: the zone's offset is fixed.
- Health checks and the status they write, leader election, the module registry, configuration.
- Which pod and node conditions raise an alert.
- The approver roles of a rule: they are configured, and no decision of the program consults them.
- ApprovalProtocol.OutcomesInTime: speaks of the clock reading the call compared; the code stamps a second, later one, which can pass the deadline by the time between the two.
