# Verification of the sfinx backend's stateful services

This project models the parts of the sfinx backend whose guarantees span several calls or a whole run,
and proves those guarantees.

| file | what it models |
|---|---|
| `PromptTemplate.dfy`, `PromptLimits.dfy` | `PromptService.compile`: global regular-expression replacement, folded over the variables |
| `RefreshTokens.dfy` | `AuthService`: issuing, redeeming, revoking and purging refresh tokens under a clock |
| `LanguageCache.dfy` | `ProgrammingLanguageService` behind the `Cacheable` and `CacheInvalidate` decorators |
| `Interviews.dfy` | interview start, code snapshots, chat, the user's end, the delayed timeout job, the evaluation |
| `Judge0Polling.dfy` | the polling loop and verdict of `executeCodeSync` |
| `Votes.dfy` | votes and the counters stored with their targets |
| `Comments.dfy` | comments on solutions and problems: replies, soft deletion, and the stored counts |
| `Discussions.dfy` | comments on posts: replies, hard deletion of whole threads, and the stored counts |
| `GoogleAccounts.dfy` | Google sign-in: finding, linking or creating an account; the username search |
| `TimeSeries.dfy` | gap filling of daily series |
| `Leaderboard.dfy` | leaderboard pages and point rank queries over one sorted set |
| `ProviderCosts.dfy` | provider cost summaries and currency conversion |
| `JudgeEvents.dfy` | storing a verdict, updating progress, emitting events, under redelivery and failure |
| `Decimal.dfy`, `Wrappers.dfy` | decimal text of integers; the optional value |

Each stateful service appears twice. A pure function (`Step`, or one function per operation) says what an
operation does to the tables and what it replies; a class with the service's fields performs the operation
statement by statement, and its methods are proved to do what the function says. Theorems about runs are
lemmas about sequences of operations: `After(..., k)` is the state after the first `k` of them.

## What the main results say

* **Prompts.** With safe values, the fold is simultaneous substitution, in any order of the variables.
  `Safe` is a test on the value alone: no `$` pattern, no complete `{{ name }}` in it, and no end that later text
  could complete to one. `PromptLimits.ValueIsSafeIff` proves that this is exact: a value is safe if and only if
  the fold agrees with simultaneous substitution in every template and record. `TextIsClosedIff` says the same of
  the text between placeholders, so JSON in a template is harmless. An interview transcript that contains
  `{{judgeZeroResults}}` or `$&` is not harmless. Writing each dollar of a value twice is the exact cure for dollars
  (`DoublingCuresDollars`); nothing that is done to the value alone closes an open placeholder.
* **Tokens.** A refresh succeeds exactly when its token was issued earlier, not redeemed since, has not reached the
  second in which its signature expires, and its user may act; `LogoutSucceedsIff` is the same for logout, error by
  error. Signatures expire no later than rows do, so the expiry test on the row never decides, and purging rows
  changes the outcome of no call. Every token goes back to a registration or a login with the password
  (`TokensDescend`).
* **Languages.** The cached service refines the uncached one, table and replies, except for lookups by slug, which
  promise only id, slug and name. `SlugExactIff` says exactly when such a lookup gives the live row: when its entry
  was filled from the row as it is now. Only an update that leaves the name and a reorder that lists the language
  change a row and keep its entry (`OnlyTheseLag`); without one since the fill the lookup is exact.
  `OtherColumnsMayLag` and `ReorderMayLag` are runs in which either one makes it lag.
* **Interviews.** Under every interleaving an interview ends once, and has its evaluation exactly when the
  step after the end did not fail (`EvaluatedIff`); an automatic end judges the last code written. An ACTIVE interview has its timeout job exactly when the job was not lost: by a
  start that failed before the queue took it, by a delivery that failed, or by an end of the user that removed it and
  then failed to save. `OverdueCompletedIff`: draining the queue completes an overdue interview if and only if its job
  was not lost. Only a later end by the user recovers one whose job was (`OnlyTheUserEndsJobless`).
* **Verdicts.** Under redelivery and failure no event goes out twice. `AnnouncedIff` and `SolvedIff` say which events
  go out and which problems end up SOLVED: a verdict that arrives before its progress row, or whose delivery fails
  between save and progress update, solves nothing, and redelivery does not repair it (`EarlyVerdictIsLost`).
* **Counters.** Vote counters are exact after every run, however stale the reads. The counts of comments and replies
  are not. On solutions, deleting a comment again takes it off again; on problems, nothing is ever taken off.
  `Comments.CountExactIff` gives the exact condition for either: no comment of the group was deleted twice, or none at
  all. On posts, where whole threads go, the counts are off by the updates that failed after an insert or a deletion,
  and by nothing else (`Discussions.CountsDrift`).
* **Threads.** The breadth-first search of a deletion finds exactly the thread of a comment, and the deletion is refused
  exactly when a comment on another post replies into it (`DeleteSucceedsIff`). Replies form a forest exactly when no
  comment was sent as a reply to the id it was about to get (`Comments.ForestIff`); such a comment is stored as its own
  parent (`OwnParent`).

Where code and comments disagree, the model follows the code: `delete` of a language is a hard delete although its
comment announces a soft one, and `create`, `update` and `delete` of a language invalidate no list cache although
their comments say so; the timeout processor rethrows to have the job tried again, but nothing gives the job a second
attempt.

## Model

| member | source | states |
|---|---|---|
| PromptTemplate.MatchAtIsRegexMatch | src/modules/ai/prompt.service.ts:155 | the computed match at a position is the match of the regular expression `\{\{\s*key\s*\}\}`: both directions, with its length |
| PromptTemplate.HoleMatches | src/modules/ai/prompt.service.ts:155 | a placeholder is matched, in full, by the expression of its own key and by that of no other key |
| PromptTemplate.ReplaceFillsHoles | src/modules/ai/prompt.service.ts:154-155 | one global replace fills all placeholders of its key and changes nothing else, braces in the surrounding text included |
| PromptTemplate.CompileIsSubstitution | src/modules/ai/prompt.service.ts:152-158 | with safe values the sequential fold equals simultaneous substitution; unknown placeholders stay verbatim |
| PromptTemplate.CompileExpands | src/modules/ai/prompt.service.ts:152-158 | the same when each entry puts in its value by patterns, as long as the values put in leave no placeholder open |
| PromptTemplate.CompileIgnoresOrder | src/modules/ai/prompt.service.ts:153 | with safe values the order of the record's entries does not matter |
| PromptTemplate.RenderParse | src/modules/ai/prompt.service.ts:151 | splitting any text into placeholders and the text between them, and rendering it, gives the text back |
| PromptLimits.ParseRender | src/modules/ai/prompt.service.ts:151 | splitting finds exactly the placeholders, and the text between them, that a template was made from |
| PromptTemplate.CompileTemplate | src/modules/ai/prompt.service.ts:59-65 | the same for a template given as text |
| PromptLimits.ValueIsSafeIff | src/modules/ai/prompt.service.ts:152-158 | a value is safe if and only if the fold agrees with simultaneous substitution in every template and every record of otherwise safe values |
| PromptLimits.TextIsClosedIff | src/modules/ai/prompt.service.ts:152-158 | a text leaves no placeholder open if and only if the fold agrees with simultaneous substitution in every template that contains it, for every record of safe values |
| PromptLimits.InertIff | src/modules/ai/prompt.service.ts:155 | the values without a `$` pattern are exactly those that are inserted as they are, wherever they stand |
| PromptLimits.PatternsPutIn | src/modules/ai/prompt.service.ts:155 | between two texts `$$` puts in one dollar, `$&` the placeholder, a dollar with a backtick the text before it, and a dollar with a quote the text after it |
| PromptLimits.DoublingCuresDollars | src/modules/ai/prompt.service.ts:152-158 | a value handed over with its dollars doubled agrees with simultaneous substitution in every template and record if and only if it leaves no placeholder open |
| PromptLimits.MatchedPatternRestores | src/modules/ai/prompt.service.ts:155 | the value `$&` puts every placeholder back: the template comes out as it went in |
| PromptLimits.PlainValuesAreSafe | src/modules/ai/prompt.service.ts:152-158 | values without `$`, without two opening braces in a row and without one at the end are safe |
| RefreshTokens.RefreshSucceedsIff | src/modules/auth/auth.service.ts:178-238 | refresh succeeds exactly when the run issued the token, did not redeem it since, and its signature, in whole seconds, has not expired, for a user who may act; otherwise it has one error outcome and changes nothing |
| RefreshTokens.LogoutSucceedsIff | src/modules/auth/auth.service.ts:241-264 | logout revokes exactly a token issued, unexpired and not redeemed; a redeemed one is Unauthorized, an expired or foreign one is the JWT error itself |
| RefreshTokens.VerifiesIff | src/modules/auth/auth.service.ts:187-194 | a token verifies exactly when the run issued it and the second of its expiry is still ahead |
| RefreshTokens.LiveTokenHasItsRow | src/modules/auth/auth.service.ts:214-216 | the row of an unexpired token is there and unrevoked exactly when it was not redeemed, and is never past its due time: this test decides nothing |
| RefreshTokens.RowHistory | src/modules/auth/auth.service.ts:323-333 | the row of an issued token keeps its user and due time and is revoked exactly when redeemed, with the clock of that, and its signature keeps its expiry; it is only ever purged once redeemed or expired |
| RefreshTokens.RedeemedAtMostOnce | src/modules/auth/auth.service.ts:200-264 | refresh and logout counted together, a token is redeemed at most once in a run, also after its row is gone |
| RefreshTokens.FamiliesHaveOneLiveToken | src/modules/auth/auth.service.ts:223-231 | of the tokens that descend from one login or registration at most one is unrevoked, at every point of every run |
| RefreshTokens.LoginSucceedsIff | src/modules/auth/auth.service.ts:70-174 | a login issues a token exactly to a user who exists, is active, not banned, has a password and gave it; a registration exactly with a new user, the role and the mail; refusals change nothing |
| RefreshTokens.TokensDescend | src/modules/auth/auth.service.ts:146-231 | every token of every run descends, for one and the same user, from a registration of that user or from a login with the password |
| RefreshTokens.StampsTellHistory | src/modules/auth/auth.service.ts:169-224 | last activity is the clock of the user's last login or refresh, last login that of the last login; neither is set before the first |
| RefreshTokens.CleanupIsInvisible | src/modules/auth/auth.service.ts:747-758 | every call, logout included, has the outcome it has on the same run without cleanups |
| RefreshTokens.CleanupLeaves | src/modules/auth/auth.service.ts:748-753 | of the tokens of the run a cleanup leaves exactly those not redeemed and not past their due time |
| RefreshTokens.AuthService.GenerateAuthResponse | src/modules/auth/auth.service.ts:296-341 | signs a token that expires a lifetime from now, in whole seconds, and inserts its unrevoked row, due a lifetime from now |
| RefreshTokens.AuthService.RegisterUser | src/modules/auth/auth.service.ts:69-126 | a new active user and its first token; or a conflict, a missing user role, or a failed mail, which leave nothing behind |
| RefreshTokens.AuthService.LoginUser | src/modules/auth/auth.service.ts:129-175 | unknown, banned, inactive, password-less users and wrong passwords are refused; otherwise the login times are set and a token issued |
| RefreshTokens.AuthService.RefreshAccessToken | src/modules/auth/auth.service.ts:178-238 | performs the refresh step in place |
| RefreshTokens.AuthService.LogoutUser | src/modules/auth/auth.service.ts:241-264 | performs the logout step in place; a string that does not verify raises the JWT error |
| RefreshTokens.AuthService.CleanupExpiredTokens | src/modules/auth/auth.service.ts:748-753 | deletes exactly the rows that are revoked or past their due time |
| LanguageCache.KeysApart | src/common/constants/cache.constant.ts:65-71 | the two key functions are injective, their ranges disjoint, and the static key is in neither |
| LanguageCache.StepRefines | src/common/decorators/cacheable.decorator.ts:76-160 | from a coherent cache every operation leaves a coherent cache, the table the uncached service would leave, and an agreeing reply |
| LanguageCache.MutateStepKeeps | src/common/decorators/cacheable.decorator.ts:224-283 | mutators that load their row through the cache and drop keys afterwards write what the uncached service writes |
| LanguageCache.CachedRefinesPlain | src/modules/programming-language/programming-language.service.ts:90-357 | over any run of reads, mutators and entry expiry, table and replies are those of the uncached service; lookups by slug agree on NotFound, id, slug and name |
| LanguageCache.SlugThenIdIsLive | src/modules/ai-interviews/interview-timeout-queue/interview-timeout.service.ts:126-155 | after a lookup by slug and any operations in between, a lookup by the id it gave yields the live row of that id, or NotFound once it is deleted; the id owned the slug at the first lookup |
| LanguageCache.FilledAt | src/common/decorators/cacheable.decorator.ts:76-160 | the step that filled the entry still cached: a lookup by that slug which missed |
| LanguageCache.SlugExactIff | src/modules/programming-language/programming-language.service.ts:112-128 | at every point of every run a lookup by slug replies as the uncached service does exactly when nothing is cached for the slug or the row in the entry is what it was at the fill |
| LanguageCache.OnlyTheseLag | src/modules/programming-language/programming-language.service.ts:191-357 | a step that keeps a slug entry changes the row only by an update that leaves the name, or a reorder that lists the language |
| LanguageCache.TheseKeepTheEntry | src/modules/programming-language/programming-language.service.ts:191-357 | those two never drop the slug entry, whatever they change |
| LanguageCache.ExactUntilLeftBehind | src/modules/programming-language/programming-language.service.ts:112-128 | without such a step since the fill the lookup by slug is exact |
| LanguageCache.OtherColumnsMayLag | src/modules/programming-language/programming-language.service.ts:202-246 | whatever two rows agree on id, name and slug, a run with one update leaves one cached under the slug and the other live |
| LanguageCache.ReorderMayLag | src/modules/programming-language/programming-language.service.ts:339-357 | a run with one reorder: the lookup by slug gives the row with its old position, the lookup by id with its new one |
| LanguageCache.CreateIsReadBack | src/modules/programming-language/programming-language.service.ts:134-185 | creation is refused exactly when another language has the name or its slug; otherwise the new row is found by id and by slug, with the columns as given, active unless told otherwise, and listed one after the last when no position is given |
| LanguageCache.UpdateIsReadBack | src/modules/programming-language/programming-language.service.ts:191-246 | an update is refused exactly when another language has the new name or its slug; otherwise given fields are read back as given, the others as they were, and the slug follows the name |
| LanguageCache.ReorderMeans | src/modules/programming-language/programming-language.service.ts:346-348 | each listed language gets the last position it is listed at; everything else stays |
| LanguageCache.MutatorsDrop | src/common/decorators/cacheable.decorator.ts:224-283 | a mutator drops the entry of the old slug exactly on a rename, a deletion or a change of the flag, its own by-id entry unless it refuses, and no other |
| LanguageCache.NextOrder | src/modules/programming-language/programming-language.service.ts:168-171 | the next position is one above the greatest, and 1 in an empty table |
| LanguageCache.ProgrammingLanguageService.FindLanguageById | src/modules/programming-language/programming-language.service.ts:90-106 | performs the cached lookup by id |
| LanguageCache.ProgrammingLanguageService.FindLanguageBySlug | src/modules/programming-language/programming-language.service.ts:112-128 | performs the cached lookup by slug |
| LanguageCache.ProgrammingLanguageService.CreateLanguage | src/modules/programming-language/programming-language.service.ts:134-185 | performs create: duplicate names and slugs are refused |
| LanguageCache.ProgrammingLanguageService.UpdateLanguage | src/modules/programming-language/programming-language.service.ts:191-246 | performs update: a rename checks name and slug and drops the old slug's entry |
| LanguageCache.ProgrammingLanguageService.DeleteLanguage | src/modules/programming-language/programming-language.service.ts:252-278 | performs delete: a row in use is refused, otherwise it and both entries go |
| LanguageCache.ProgrammingLanguageService.SetLanguageActive | src/modules/programming-language/programming-language.service.ts:284-334 | performs activate and deactivate |
| LanguageCache.ProgrammingLanguageService.ReorderLanguages | src/modules/programming-language/programming-language.service.ts:339-357 | performs reorder: the loop sets each listed row's index and drops its by-id entry |
| Interviews.EndedOnce | src/modules/ai-interviews/services/ai-interview.service.ts:306-316 | under every interleaving of user ends, timers and repeated deliveries an interview goes from ACTIVE to COMPLETED once |
| Interviews.EvaluatedAtMostOnce | src/modules/ai-interviews/services/ai-interview.service.ts:377-389 | at most one evaluation row per interview, and only for a COMPLETED one |
| Interviews.FinishCountsIff | src/modules/ai-interviews/services/ai-interview.service.ts:377-392 | what follows an end, by user or timer, saves the evaluation unless it fails, exactly once per end |
| Interviews.EvaluatedIff | src/modules/ai-interviews/services/ai-interview.service.ts:377-389 | an interview has its evaluation exactly when such a step saved it |
| Interviews.FailedEvaluationIsFinal | src/modules/ai-interviews/interview-timeout-queue/interview-timeout.service.ts:112-217 | a COMPLETED interview whose evaluation failed never gets one |
| Interviews.ActiveHasItsJob | src/modules/ai-interviews/interview-timeout-queue/interview-timeout.service.ts:66-102 | the job of an ACTIVE interview waits or runs, due when its mode's duration has passed since the start, exactly when no start, delivery or end of the user lost it by a failure |
| Interviews.ScheduledAtStart | src/modules/ai-interviews/services/ai-interview.service.ts:100-109 | every interview was started, and its scheduled end is 30, 45 or 60 minutes after its start, as its mode says, or is missing when the start failed |
| Interviews.FailedIffDeliveryFailed | src/modules/ai-interviews/interview-timeout-queue/interview-timeout.processor.ts:12-29 | while an interview is ACTIVE the queue holds its job as failed exactly when a delivery of it failed and no end of the user has removed it since |
| Interviews.OnlyTheUserEndsJobless | src/modules/ai-interviews/services/ai-interview.service.ts:291-316 | an ACTIVE interview whose job was lost is COMPLETED later exactly when its user ended it in between, and stays ACTIVE otherwise |
| Interviews.OverdueCompletedIff | src/modules/ai-interviews/interview-timeout-queue/interview-timeout.service.ts:104-143 | once an interview's time is up, draining the queue leaves it COMPLETED exactly when it already was or its job was not lost |
| Interviews.UnsavedEndStrands | src/modules/ai-interviews/services/ai-interview.service.ts:310-316 | an end of the user that removes the job and fails to save leaves an interview that no drain completes |
| Interviews.AutoEndJudgesLastWrite | src/modules/ai-interviews/interview-timeout-queue/interview-timeout.service.ts:119-159 | an automatic end judges the last code that snapshot or chat wrote while ACTIVE, and nothing when it is empty, absent or in an unknown language |
| Interviews.CodeIsLastWrite | src/modules/ai-interviews/services/ai-chat.service.ts:165-197 | the stored code is the last one that snapshot, or chat with code in it, wrote while ACTIVE |
| Interviews.NoWriteAfterEnd | src/modules/ai-interviews/services/ai-interview.service.ts:272-286 | the code of a COMPLETED interview is never written again |
| Interviews.UserEndSucceedsIff | src/modules/ai-interviews/services/ai-interview.service.ts:291-333 | the owner's end of an interview succeeds exactly when it is ACTIVE, its job, if any, can be removed and the save succeeds; it judges what the request carries and leaves no job; a failed save leaves it ACTIVE without its job |
| Interviews.RequestsAnswered | src/modules/ai-interviews/services/ai-interview.service.ts:263-311 | strangers find nothing, an interview that is over takes no code and is not ended again, a locked job stops an end; refusals change nothing |
| Interviews.DeliveryMeans | src/modules/ai-interviews/interview-timeout-queue/interview-timeout.service.ts:104-143 | a delivery does nothing before its time, ends an ACTIVE interview, and is done with the job of any other; one that fails moves the job to the failed ones |
| Interviews.StepOnView | src/modules/ai-interviews/services/ai-interview.service.ts:291-392 | a step ends an interview at most from ACTIVE, never reopens it, and never adds to the endings and evaluations of a completed one |
| Interviews.InterviewServices.ScheduleTimeout | src/modules/ai-interviews/interview-timeout-queue/interview-timeout.service.ts:66-89 | adds the job and returns its due time |
| Interviews.InterviewServices.CancelTimeout | src/modules/ai-interviews/interview-timeout-queue/interview-timeout.service.ts:91-102 | removes the job, if there is one; removing a locked job throws and removes nothing |
| Interviews.InterviewServices.StartInterview | src/modules/ai-interviews/services/ai-interview.service.ts:76-112 | an ACTIVE interview with its job and scheduled end, or the part of it that was done when the queue or the second save failed |
| Interviews.InterviewServices.StoreCodeSnapshot | src/modules/ai-interviews/services/ai-interview.service.ts:263-289 | overwrites code and language of an ACTIVE interview of the user |
| Interviews.InterviewServices.SendMessage | src/modules/ai-interviews/services/ai-chat.service.ts:160-197 | overwrites code and language when the message carries code and the interview is ACTIVE |
| Interviews.InterviewServices.EndInterview | src/modules/ai-interviews/services/ai-interview.service.ts:291-316 | the user's end up to the saved status, or up to a save that throws after the job is gone |
| Interviews.InterviewServices.AutoEndInterview | src/modules/ai-interviews/interview-timeout-queue/interview-timeout.service.ts:104-143 | the automatic end up to the saved status |
| Interviews.InterviewServices.SaveEvaluation | src/modules/ai-interviews/interview-timeout-queue/interview-timeout.service.ts:201-217 | the evaluation row, or the failure that replaces it |
| Judge0Polling.TakeBatch | src/modules/ai-interviews/services/ai-interview.service.ts:203-210 | one round keeps pending exactly the tokens answered with status 1 or 2, moves the others to results and keeps the partition; no result has status 1 or 2 |
| Judge0Polling.Poll | src/modules/ai-interviews/services/ai-interview.service.ts:199-215 | finished and pending tokens partition all tokens; 1 to 60 rounds; it stops early only when nothing is pending; every pending token was last answered with status 1 or 2 |
| Judge0Polling.SumUp | src/modules/ai-interviews/services/ai-interview.service.ts:217-256 | counts, verdict, average runtime and memory rounded, and the first three failures with their texts |
| Judge0Polling.NotPassedInOrder | src/modules/ai-interviews/services/ai-interview.service.ts:218-236 | the failures keep their order |
| Judge0Polling.TotalsAdd | src/modules/ai-interviews/services/ai-interview.service.ts:238-239 | the totals, in milliseconds and kilobytes, add up over any split of the results |
| Judge0Polling.ExecuteCodeSync | src/modules/ai-interviews/interview-timeout-queue/interview-timeout.service.ts:220-325 | the finished and pending tokens, none finished with status 1 or 2, the summary of the finished ones, ACCEPTED exactly when nothing is pending and every result has status 3, REJECTED exactly when none has |
| Judge0Polling.RoundedMean | src/modules/ai-interviews/interview-timeout-queue/interview-timeout.service.ts:321-322 | the mean to the nearest unit, and nothing when that is 0 or there are no results |
| Judge0Polling.AcceptedIffEveryTokenPassed | src/modules/ai-interviews/interview-timeout-queue/interview-timeout.service.ts:310-320 | as many passed results as tokens means that every single token has a result with status 3 |
| Votes.StepMovesOneVote | src/modules/comments-base/base-votes.service.ts:38-88 | every vote, set vote or unvote, with a stale read too, changes one user's vote on one target and moves that target's counters by exactly it |
| Votes.CountersAlwaysAgree | src/modules/comments-base/base-votes.service.ts:134-160 | after every run the stored up, down and score counts equal the counts over the vote rows |
| Votes.OneVotePerUser | src/modules/comments-base/base-votes.service.ts:134-160 | with one row for a target and user, as the keys of the tables demand, up and down counts together are the number of distinct voters |
| Votes.VoteTellsHistory | src/modules/comments-base/base-votes.service.ts:38-102 | after every run a user's vote is what the last vote or unvote of the user on the target left |
| Votes.ThrowsIff | src/modules/comments-base/base-votes.service.ts:51-86 | a call throws exactly when it saves for a missing target, or a second row for a pair, and then changes nothing |
| Votes.VoteTogglesIff | src/modules/comments-base/base-votes.service.ts:51-72 | a vote toggles or switches exactly when its read is right about whether the stored vote has the requested type, and its save makes no second row for the pair |
| Votes.VoteTwice | src/modules/comments-base/base-comments.service.ts:198-228 | two equal fresh votes in a row restore the state, or leave the user without a vote |
| Votes.VoteIsSetIff | src/modules/problems/comments/services/problem-comments.service.ts:98-139 | on a problem's comment the user is left with the requested vote exactly when it was stored, or the read did not show it and the save makes no second row |
| Votes.VotesService.UpdateVoteCounts | src/modules/comments-base/base-votes.service.ts:134-160 | overwrites the three counters with the counts over the rows |
| Votes.VotesService.CastVote | src/modules/comments-base/base-comments.service.ts:198-228 | performs the transaction of a vote in place, for tables keyed by the pair and for one with an id of its own |
| Votes.VotesService.SaveVote | src/modules/discuss/entities/post-comment-vote.entity.ts:15-19 | an upsert by the pair, but where rows have an id of their own a second row for a pair is refused |
| Votes.VotesService.SetCommentVote | src/modules/problems/comments/services/problem-comments.service.ts:98-139 | sets the vote in place, and changes nothing when the read shows it set |
| Votes.VotesService.RemoveVote | src/modules/comments-base/base-comments.service.ts:230-238 | performs the transaction of an unvote in place |
| Comments.CountDrift | src/modules/solutions/services/solution-comments.service.ts:108-205 | reply count of a comment and comment count of a solution are the comments created minus, on solutions, the successful delete calls; live comments are those created minus those deleted for the first time |
| Comments.CountExactIff | src/modules/problems/comments/services/problem-comments.service.ts:261-282 | a count is right exactly when, on solutions, no comment of its group was deleted twice, and, on problems, where this override takes nothing off, none was deleted |
| Comments.ReplyCountCanGoNegative | src/modules/comments-base/base-comments.service.ts:181-195 | two deletions of one reply leave a count of -1 |
| Comments.DeletedIffCalled | src/modules/comments-base/base-comments.service.ts:181-183 | a comment is marked deleted exactly when a delete call on it succeeded |
| Comments.AlwaysRooted | src/modules/comments-base/base-comments.service.ts:98-108 | after every run each parent exists and has no greater id than its replies |
| Comments.ForestIff | src/modules/comments-base/base-comments.service.ts:98-108 | after every run no comment is its own parent exactly when no comment on a solution named the id it was about to get as its parent |
| Comments.OwnParent | src/database/migrations/1767250000000-UpdateSolutionCommentsSchema.ts:39-45 | a first comment sent as a reply to comment 1 is stored as its own parent |
| Comments.CreateSucceedsIff | src/modules/comments-base/base-comments.service.ts:90-119 | a comment is created exactly when its container is there and its parent, if given, is too or, on a solution, is the comment itself; the new row is as sent |
| Comments.DeleteSucceedsIff | src/modules/comments-base/base-comments.service.ts:170-183 | author and admin may delete a comment, nobody else, and no other comment is marked |
| Comments.Ancestry | src/modules/comments-base/base-comments.service.ts:98-103 | walking up from any comment ends without repeats, at a root or at a comment that is its own parent; in a forest, at a root |
| Comments.CommentsService.CreateComment | src/modules/comments-base/base-comments.service.ts:90-119 | performs creation in place; for problems the parent is looked up first |
| Comments.CommentsService.DeleteComment | src/modules/comments-base/base-comments.service.ts:165-196 | performs deletion in place, with the overrides for solutions and problems |
| Discussions.CollectThread | src/modules/discuss/services/discuss-comment.service.ts:237-257 | the breadth-first search terminates with exactly the comments of the post from which walking up leads to the deleted one |
| Discussions.CountsDrift | src/modules/discuss/services/discuss-comment.service.ts:120-280 | after every run the comment count of a post and the reply count of a comment are the numbers of rows, plus the updates that failed after a deletion, minus those that failed after a creation |
| Discussions.CountsExactWhenAllRan | src/modules/discuss/services/discuss-comment.service.ts:120-280 | when no such update failed all counts are exact, whatever threads were deleted |
| Discussions.DeleteSucceedsIff | src/modules/discuss/services/discuss-comment.service.ts:219-260 | author or admin can delete a comment exactly when no comment on another post replies into its thread; then the thread goes and nothing else |
| Discussions.CreateSucceedsIff | src/modules/discuss/services/discuss-comment.service.ts:120-135 | a comment is created exactly when its post is there and its parent, if given, is too or is the comment itself |
| Discussions.AlwaysRooted | src/database/migrations/1770295961631-SyncAfterDiscussMerge.ts:66-69 | after every run, deletions included, each comment's post and parent exist, and no parent has a greater id |
| Discussions.DiscussCommentService.CreatePostComment | src/modules/discuss/services/discuss-comment.service.ts:120-146 | performs creation in place, up to an update that fails |
| Discussions.DiscussCommentService.DeleteComment | src/modules/discuss/services/discuss-comment.service.ts:219-280 | performs the deletion of a thread in place, up to an update that fails |
| GoogleAccounts.TakenPrefixIsShort | src/modules/auth/services/google-oauth.service.ts:193-200 | no more of the candidate names can be taken in a row than there are users |
| GoogleAccounts.FirstFree | src/modules/auth/services/google-oauth.service.ts:187-200 | there is a free candidate, the first one is found, and its index is at most the number of users |
| GoogleAccounts.CallbackKeeps | src/modules/auth/services/google-oauth.service.ts:131-179 | every outcome keeps emails, usernames and Google ids unique, replaces no Google id, signs in an active account with the given Google id, touches no other account, and changes nothing when it rejects |
| GoogleAccounts.CallbackSucceedsIff | src/modules/auth/services/google-oauth.service.ts:131-171 | a callback signs in exactly when the account with the Google id, else the unlinked account with the email, may act, or there is neither and the user role exists |
| GoogleAccounts.CallbackRefusesIff | src/modules/auth/services/google-oauth.service.ts:135-171 | each refusal has its condition: role missing, email linked to another Google account, account banned, account inactive |
| GoogleAccounts.AccountAfterCallback | src/modules/auth/services/google-oauth.service.ts:142-225 | linking keeps password, standing and a set avatar and takes the rest from Google; a new account has the local part of the email, or its first free numbered form, as username |
| GoogleAccounts.RegisterKeeps | src/modules/auth/auth.service.ts:73-112 | registration keeps the same uniqueness and changes nothing when it refuses |
| GoogleAccounts.RegisterSucceedsIff | src/modules/auth/auth.service.ts:73-112 | it succeeds exactly with a free email, a free username and the role, and inserts the user as sent |
| GoogleAccounts.RunsKeep | src/modules/auth/services/google-oauth.service.ts:131-179 | the same over every run |
| GoogleAccounts.SameGoogleSameUser | src/modules/auth/services/google-oauth.service.ts:131-134 | one Google account always signs in to the same user |
| GoogleAccounts.GoogleOAuthService.FreeUsername | src/modules/auth/services/google-oauth.service.ts:187-200 | the search terminates within one more probe than there are users, with the first free name |
| GoogleAccounts.GoogleOAuthService.CreateGoogleUser | src/modules/auth/services/google-oauth.service.ts:185-225 | inserts the user under the free name, or nothing when the role is missing |
| GoogleAccounts.GoogleOAuthService.HandleGoogleCallback | src/modules/auth/services/google-oauth.service.ts:119-180 | performs the callback in place, with rollback |
| TimeSeries.FillMissingDates | src/modules/admin/services/platform-statistics.service.ts:550-591 | consecutive days from the day of `from`, floor((to - from) / day) + 1 of them, each with its row's value or 0, in cents for a decimal series |
| TimeSeries.LastRowWins | src/modules/admin/services/platform-statistics.service.ts:559-569 | a day's value is that of its last row |
| TimeSeries.LastDayFilled | src/modules/admin/services/platform-statistics.service.ts:577-588 | the last day is that of `to`, or the one before exactly when `to` has the earlier time of day |
| TimeSeries.FillingConserves | src/modules/admin/services/platform-statistics.service.ts:550-591 | the sum of the rows in the calendar range is conserved, but for that dropped day and, in a decimal series, half a cent a day |
| Leaderboard.GetContestRatingLeaderboard | src/modules/users/users.service.ts:303-383 | a page is the slice of the ranking at its positions, decoded and ranked, with the right page counts |
| Leaderboard.DecodeEntries | src/modules/users/users.service.ts:329-336 | decoding the flat reply gives back ids and scores |
| Leaderboard.PagesCoverRanking | src/modules/users/users.service.ts:303-383 | for any page size the pages together are the whole ranking, ranks 1 to total without gaps |
| Leaderboard.RanksAgree | src/modules/users/users.service.ts:458-482 | the leaderboard rank is the rank of profile and chart, for everybody on the leaderboard and nobody else |
| Decimal.ParsePrint | src/modules/users/users.service.ts:333 | parsing a printed id gives it back |
| ProviderCosts.ConvertedTotalDrift | src/modules/provider-costs/provider-costs.service.ts:140-152 | converted total and sum of n converted costs differ by at most 0.005 * (n + 1), and in USD not at all |
| ProviderCosts.RoundingError | src/modules/provider-costs/provider-costs.service.ts:180 | rounding gives whole cents and is off by at most 0.005, a half cent going up |
| ProviderCosts.GetSummary | src/modules/provider-costs/provider-costs.service.ts:118-162 | the total is the sum of the rows, and every provider has its cost and its conversion |
| JudgeEvents.EventsAlwaysOk | src/modules/submissions/submissions.service.ts:316-413 | after every run each event tells the truth about the tables, ACCEPTED directly follows JUDGED with that verdict, PROBLEM_SOLVED directly follows ACCEPTED |
| JudgeEvents.NothingIsAnnouncedTwice | src/modules/submissions/submissions.service.ts:352-413 | JUDGED and ACCEPTED at most once per submission, PROBLEM_SOLVED at most once per user and problem |
| JudgeEvents.AnnouncedIff | src/modules/submissions/submissions.service.ts:341-413 | after every run an event is out exactly when the delivery whose verdict is kept did not fail before it; PROBLEM_SOLVED exactly for the first verdict that solves the problem |
| JudgeEvents.SolvedIff | src/modules/submissions/services/user-progress.service.ts:320-374 | a problem is SOLVED exactly when a kept ACCEPTED verdict reached the progress row after a submission had created it |
| JudgeEvents.AttemptedUntilSolved | src/modules/submissions/services/user-progress.service.ts:351-370 | a progress row of the run that is not SOLVED is ATTEMPTED, whatever wrong answers came |
| JudgeEvents.ProgressMoves | src/modules/submissions/services/user-progress.service.ts:320-374 | ACCEPTED makes a row SOLVED, anything else makes NOT_STARTED ATTEMPTED and leaves the rest; no other row changes |
| JudgeEvents.EarlyVerdictIsLost | src/modules/submissions/submissions.service.ts:203-213 | a contest verdict that overtakes the progress row of its submission solves nothing, and redelivering it does not help |
| JudgeEvents.FirstVerdictIsKept | src/modules/submissions/submissions.service.ts:326-339 | the verdict kept is that of the first delivery that reached the save |
| JudgeEvents.SubmissionsService.UpdateProgressOnSubmit | src/modules/submissions/services/user-progress.service.ts:283-313 | creates the progress row as ATTEMPTED, and keeps the status of one that is there |
| JudgeEvents.SubmissionsService.UpdateProgressAfterJudge | src/modules/submissions/services/user-progress.service.ts:320-374 | reports newly solved exactly when an accepted submission moves the problem to SOLVED |
| JudgeEvents.SubmissionsService.UpdateSubmissionAfterJudge | src/modules/submissions/submissions.service.ts:307-417 | performs one delivery in place, up to the point where it throws |

## Left out

- Interleavings inside a step: the code takes no lock between token lookup and revocation, between interview status check and save, or between slug invalidation and commit; each is one atomic step here.
- Cache failures: every get, set and delete of the cache store succeeds; the code only logs a failed deletion, after which a by-id entry can be stale.
- Cryptography: a string verifies as a refresh token if the service signed it and its `exp` is ahead of the clock, both in whole seconds (section 4.1.4 of RFC 7519), as the jsonwebtoken package computes them from `expiresIn`; the package is not part of this model. An access token either verifies or does not; new jtis are assumed fresh, a password matches or not.
- Deleting users, problems, posts and interviews, with the cascades that follow.
- HTTP, mail, S3, Langfuse, LangChain and Judge0's own behaviour; their replies are inputs.
- The prompt cache (`getTemplate`, `warmCacheForConfig`): a single cache read with a fallback.
- Keys that are not identifiers: they would be read as regular expressions; all callers pass identifiers. A record's entries are given in their enumeration order.
- Interviews.InterviewServices.StartInterview: other requests do not run between the saving of a row and the adding of its job.
- Interviews: an evaluation's scores and transcript, which no later step reads; ABANDONED, which no code assigns.
- Judge0Polling.Poll: assumes, as Judge0 promises, one reply per requested token, and that a sleep of 500 ms lasts at least that.
- Votes.CountersAlwaysAgree: transactions are serialised, as the counts are read inside them.
- Votes: `votePost` and `unvotePost` of the discussion service, which move the counters by increments instead of recounting rows.
- Comments and Discussions: `updateComment`, pinning and reports, which touch neither counts nor parents; reads of the tree; notifications.
- Comments: insert or update and its counts are one transaction, as `@Transactional` makes them.
- GoogleAccounts: length limits of the columns, and the token issued at the end of a callback, which RefreshTokens models.
- TimeSeries.FillMissingDates: time zones other than UTC, daylight saving, and floating-point error in decimal series.
- Leaderboard.GetContestRatingLeaderboard: does not model names, avatars and contest counts, which are joined from the users table by id and would only add easy members, nor scores as numbers; page and limit are at least 1, as the query DTO demands.
- ProviderCosts: floating-point error; amounts are reals.
- JudgeEvents: best runtime and memory, attempt counters and notification texts.
