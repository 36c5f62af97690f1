# Verified models of the platform's protocols and rewrites

This project models the parts of the trading platform whose guarantees range over all inputs, all
interleavings or whole runs, and proves those guarantees in Dafny 4.11.

| module | what it models |
|---|---|
| `RuleNames`, `RuleLifecycle` | Temporary SSH rules: the name printer and parser, the ownership proof, and the commands `create`, `cleanup` and `reap` against a rule set that other actors change between any two calls. |
| `RetentionPolicy`, `RetentionApply` | Docker image retention: the policy, and the loop that recomputes it before every removal. |
| `OnboardingDigest`, `OnboardingProtocol` | Symbol onboarding: the deduplication keys, and any number of onboard, repair and delete requests interleaved with a queue and commits that may fail. |
| `ReleaseChecks` | The release evidence checker: the bounded pager and the polling rounds. |
| `Paging`, `History`, `TradeExport` | The run history merged from two tables, and the export loop that reads a trade list page by page. |
| `AliasBackdate`, `CacheMigration`, `DeploymentIdentity` | Three data migrations. |
| `EmaRestart` | Save, restart and load of the EMA strategy. |
| `LiveStream` | The reducer behind the live view. |
| `GitHub` | JSON values as Python reads them, and repository names, which two of the scripts share. |
| `Ordering`, `Sequences`, `Decimal`, `Wrappers` | Stable sorting, prefixes and suffixes of lists, decimal numerals, optional values and refusals. |

Where the program calls Azure, GitHub, Docker, a queue or a clock, the model has a `World` record: functions
of the number of the call that say what others changed before it, what it answers and whether it fails. A
contract that holds for every `World` holds for every interleaving. A class logs what it read and wrote, and
safety is a statement about the log (`Justified`). Results about success need a quiet world and say so in the
contract (`Undisturbed`, `Steady`, `Static`, `Settles`). Onboarding is a state machine instead, because its
requests run concurrently: a step is one awaited operation of one request.

What the proofs turned up:

* `OnboardingProtocol.DeleteRace`: a soft delete that commits between a request's un-hide and its commit finds
  the row unlocked if it was visible, so the request is answered 202 and the definition stays hidden.
  `AnsweredIsUnhidden` says exactly when: a delete step of the run hid the definition after the un-hide of the
  committing request had passed it, and nothing showed it again before the commit.
* `AliasBackdate.ReuseOverlaps`: the closed-sibling guard of the backdating update looks at the definition, not
  at the alias. An alias that one definition used in the past and another one uses now ends with overlapping
  windows. `KeysStayDisjointExactly` gives the exact condition.
* `CacheMigration.LastRowWins`: a touched definition can end without an open alias, namely if the migrated key
  was taken before and the alias that held it is closed, belongs to another definition, or gets closed by an
  earlier cache row of the same definition. `CacheMigration.ClosedKeyStrands` is such a table.
* `EmaRestart.ZeroRepeats`: a decision at timestamp 0 is saved as no decision, so after a restart that bar can
  be acted on again. `RestartsInvisibleExactly`: on a given sequence of bars, restarts are invisible wherever they
  are placed exactly if no decision made on those bars is at 0. `NeverRepeatsExactly`: under the same condition,
  and no other, the strategy never acts on a bar that is not newer than a decision it has made.
* `History.PagesCoverExactly`: every view of the run history, and not only the combined one, is limited to 100
  pages, so the rows of a history beyond 100 times the page size cannot be reached. The comment at
  backend/src/msai/api/backtests.py:446-448 recommends the single-table views for deeper paging; the limit in the
  code holds for them as well.
* The last refusal of the pager, "did not complete within ten pages", can never be reached.

## Model

| member | source | states |
|---|---|---|
| Decimal.ParsePositiveExact | scripts/nsg_rule_lifecycle.py:138-141 | A numeral is read as a positive number exactly if it is that number's printed form: no sign, no leading zero. |
| RuleNames.ParseNameExact | scripts/nsg_rule_lifecycle.py:138-141 | The name parser accepts exactly the names that `identity` prints, and returns the phase, run and attempt printed. |
| RuleNames.NamesDistinct | scripts/nsg_rule_lifecycle.py:116-125 | Different attempts never share a rule name. |
| RuleNames.IdentityExact | scripts/nsg_rule_lifecycle.py:116-125 | An identity is printed exactly for a well-formed repository, positive run and attempt and a description of at most 140 characters; name, description and the priorities 200, 201 and 202 of the three phases are written out. |
| RuleNames.ProducerAttemptExact | scripts/nsg_rule_lifecycle.py:236-240 | The producer-name match of `cleanup` agrees with the general parser for its phase and run. |
| RuleNames.SingleReports | scripts/nsg_rule_lifecycle.py:128-134 | A value is read exactly if it is reported singular with no plural, or as the only element of the plural with no singular. |
| RuleNames.CreatedRuleOwned | scripts/nsg_rule_lifecycle.py:137-162 | For every attempt within the description limit, `owner` applied to any report of the rule that `create` writes returns exactly that attempt. |
| RuleNames.OwnedShape | scripts/nsg_rule_lifecycle.py:137-162 | Conversely, a proved owner is named by the rule and by its description in the current or the legacy form, and the rule meets every demand of `owner`: priority, direction, access, protocol, no groups, ports, destination, and one IPv4 host as source. |
| RuleNames.OwnerExact | scripts/nsg_rule_lifecycle.py:137-162 | A rule is owned by an attempt exactly if name, current or legacy description, integer priority, direction, access, protocol, absent groups, ports, destination and one IPv4 /32 source are those of that attempt, over the fields as reported. |
| RuleNames.IPv4Exact | scripts/nsg_rule_lifecycle.py:155-161 | An address is accepted exactly if it prints four numbers up to 255. |
| RuleLifecycle.DeleteStepsJustified | scripts/nsg_rule_lifecycle.py:184-197 | The steps of `delete_proved` keep every delete in the log justified: the listing just before shows the same rule, owned by the attempt whose status was then read as completed or that is the caller's own. |
| RuleLifecycle.DeletedOwnerCompleted | scripts/nsg_rule_lifecycle.py:184-197 | Without an own cleanup, every deleted rule had a proved owner, and the answer read just before the delete was about that attempt and had the status text "completed". |
| RuleLifecycle.AttemptStatusExact | scripts/nsg_rule_lifecycle.py:165-181 | A status is accepted exactly if the answer has the positive run and attempt of the owner, the workflow path and one of the events of its phase, branch main and the repository twice; each of the six statuses is read from its own text. |
| RuleLifecycle.ConflictsCleared | scripts/nsg_rule_lifecycle.py:210-220 | Removing its conflicts leaves a rule set with neither a conflict nor the new name. |
| RuleLifecycle.CreatedExclusively | scripts/nsg_rule_lifecycle.py:210-225 | After conflicts are removed and the rule is added, the priority has exactly one inbound rule, the new one, and every rule outside the conflict set is still there. |
| RuleLifecycle.ConflictsExact | scripts/nsg_rule_lifecycle.py:210-210 | A rule conflicts exactly if it has the new name, or is inbound at the new priority. |
| RuleLifecycle.CreatedAlone | scripts/nsg_rule_lifecycle.py:210-225 | After a creation exactly one inbound rule has priority 200 (deploy), 201 (preflight) or 202 (smoke), the created one; no other rule has its name; every rule with another name and another priority or direction is still there. |
| RuleLifecycle.CleanupArgumentsExact | scripts/nsg_rule_lifecycle.py:228-241 | Cleanup arguments are accepted exactly if the identity can be printed, the producer is finished, the environment is that of this repository, run and attempt, and the rule is named for this phase and run and an attempt not later than the caller's. |
| RuleLifecycle.Session.List | scripts/nsg_rule_lifecycle.py:107-113 | A listing is complete, free of duplicate names and what the rule set is at that moment; otherwise it refuses. |
| RuleLifecycle.Session.ReadStatus | scripts/nsg_rule_lifecycle.py:165-181 | A status is logged only if run, attempt, workflow, event, branch and repository of the answer prove the owner. |
| RuleLifecycle.Session.ProveCurrent | scripts/nsg_rule_lifecycle.py:184-193 | The half of `delete_proved` before the delete: what it reads, what it refuses, and in a steady world exactly when it goes on. |
| RuleLifecycle.Session.RemoveAndVerify | scripts/nsg_rule_lifecycle.py:194-197 | The half that deletes and lists again: success rests on a complete listing without the name; without interference exactly that rule is gone. |
| RuleLifecycle.Session.DeleteProved | scripts/nsg_rule_lifecycle.py:184-197 | All interleavings: the log grows by delete steps, and success rests on a last complete listing without the name. Undisturbed: only this rule may disappear. Steady: success exactly if the owner's status can be proved and is completed or the caller's own. |
| RuleLifecycle.Session.Recover | scripts/nsg_rule_lifecycle.py:211-217 | One conflict: nothing is deleted, and it does not succeed, unless the first thing read is the status of a completed attempt. |
| RuleLifecycle.Session.RecoverAll | scripts/nsg_rule_lifecycle.py:211-217 | The conflict loop removes conflicts in order, each with a completed owner, and in a steady world succeeds exactly if all are recoverable. |
| RuleLifecycle.Session.Create | scripts/nsg_rule_lifecycle.py:200-225 | All interleavings: every delete is justified, and the only creation is the last write, right after a conflict-free listing. Undisturbed: success gives the old rules without the conflicts plus the new rule; a refusal added nothing and removed only rules of completed owners. Steady: success exactly if `CreateAllowed`. |
| RuleLifecycle.Session.Cleanup | scripts/nsg_rule_lifecycle.py:228-253 | All interleavings: only the producer's rule is ever deleted, and justifiably; success rests on accepted arguments and a last complete listing without the rule. Undisturbed: success means it is gone and nothing else changed. Steady: success exactly if the arguments are accepted and the rule is absent or deletable. |
| RuleLifecycle.Session.ReapLeaves | scripts/nsg_rule_lifecycle.py:256-269 | What `reap` leaves is exactly what is not provably owned by a completed attempt. |
| RuleLifecycle.Session.ReapAll | scripts/nsg_rule_lifecycle.py:259-269 | The loop of `reap`: justified deletes only; in a steady world the doomed rules among those reached are gone and it stops exactly at the first undecidable rule. |
| RuleLifecycle.Session.Reap | scripts/nsg_rule_lifecycle.py:256-269 | All interleavings: every delete is justified and a dry run deletes nothing. Steady: it leaves the rules that are not doomed, and the dry run leaves all of them. |
| RetentionPolicy.RepositoryOfTag | scripts/docker-image-retention.py:133-135 | The repository of `REPOSITORY:TAG` is REPOSITORY, whatever port or path it contains. |
| RetentionPolicy.RepositoryOfDigest | scripts/docker-image-retention.py:133-135 | Appending a digest does not change the repository. |
| RetentionPolicy.RepositoryPlain | scripts/docker-image-retention.py:133-135 | A reference without tag and digest is its own repository. |
| RetentionPolicy.GroupExact | scripts/docker-image-retention.py:193-196 | An image belongs to a group exactly if it has tags, every tag and digest is of a repository of this configured group, and none is of a repository of another one. |
| RetentionPolicy.CandidateExact | scripts/docker-image-retention.py:189-226 | A candidate is exactly an image with one tag whose id, tag and digests are not pinned, that no container uses, that is old enough, and of whose one group at least `keep_recent` members are newer, by time and then id. |
| RetentionPolicy.ReserveStable | scripts/docker-image-retention.py:222-226 | Removing a candidate never changes whether an image has `keep_recent` newer images in its group. |
| RetentionPolicy.CandidacyStable | scripts/docker-image-retention.py:182-228 | Removing a candidate leaves every other image's candidacy unchanged. |
| RetentionPolicy.CandidacyMonotone | scripts/docker-image-retention.py:182-228 | A later clock only adds candidates. |
| RetentionPolicy.RankCountsNewer | scripts/docker-image-retention.py:222-226 | An image's position in its sorted group is the number of newer members. |
| RetentionPolicy.ReserveExact | scripts/docker-image-retention.py:222-226 | The sorted prefix is exactly the set of members with fewer than `keep_recent` newer ones. |
| RetentionPolicy.NoReasonsExact | scripts/docker-image-retention.py:189-226 | An image ends without a reason exactly if it is a candidate. |
| RetentionPolicy.ReasonsExact | scripts/docker-image-retention.py:199-226 | Each of the nine recorded reasons is there exactly if what it says holds of the image's own fields; in particular 'protected-pin' exactly if its id, a tag or a digest is pinned. |
| RetentionPolicy.RecordOwnReasons | scripts/docker-image-retention.py:189-221 | The first loop records every image's own reasons under its id. |
| RetentionPolicy.RecordReserves | scripts/docker-image-retention.py:222-226 | The second loop adds the reserve reason to exactly the reserved images of all groups. |
| RetentionPolicy.Policy | scripts/docker-image-retention.py:182-228 | The recorded reasons mean what they say, and the reported candidates are exactly the ids of the removable images, over tags, digests, pins, containers, dates and groups; sorted and without repetition. |
| RetentionApply.StableNext | scripts/docker-image-retention.py:286-306 | After any set of candidates was removed, the others are still exactly the candidates and keep their reserve; removing one more keeps this. |
| RetentionApply.NextRemoval | scripts/docker-image-retention.py:286-306 | The next approved candidate is still one when the loop reaches it, on any later clock. |
| RetentionApply.JustifiedRemovable | scripts/docker-image-retention.py:289-306 | In a justified log every removal follows directly on an inventory in which the image is removable, by its own tags, digests and dates. |
| RetentionApply.Engine.Inspect | scripts/docker-image-retention.py:280-281 | An answered inventory yields exactly its candidates, and is logged. |
| RetentionApply.Engine.Consider | scripts/docker-image-retention.py:289-306 | One approved candidate after an undisturbed look: it is skipped exactly if the inventory taken now has no removable image of its id, and otherwise removed directly after that inventory, unless the removal fails. |
| RetentionApply.Engine.Attempt | scripts/docker-image-retention.py:288-306 | One turn of the loop: what it comes to is what it saw last, a changed configuration or unanswered inventory, other activity, an inventory without the image, a failed removal or a removal. |
| RetentionApply.Engine.ApplyAll | scripts/docker-image-retention.py:284-309 | Every interleaving: each removal is approved and directly follows a look that found the configuration unchanged and nothing under way, and an inventory; every approved candidate up to where the loop stopped was removed or skipped, the skipped ones because a later inventory no longer had them removable; the last event decides how it ends. Static engine: exactly the approved candidates are removed, none skipped, and each removed image leaves at least `keep_recent` newer ones of its group. |
| RetentionApply.Engine.Execute | scripts/docker-image-retention.py:251-313 | The whole run: with the lock held, Docker unavailable or a build under way it ends without an inventory; otherwise it reports exactly the removable images of its first inventory; without apply nothing else happens; with it, every removed image was removable in the inventory taken directly before, and what `ApplyAll` states holds for the reported candidates. Too little space in the end gives the status of disk pressure, unless a removal failed. |
| OnboardingDigest.CanonicalInjective | backend/src/msai/api/symbol_onboarding.py:196-199 | The text of a symbol entry determines its four fields. |
| OnboardingDigest.DedupKeyExact | backend/src/msai/api/symbol_onboarding.py:196-208 | The parts of an onboarding key, in order: namespace, watchlist, live flag, ceiling, and one line per symbol sorted by asset class and symbol. |
| OnboardingDigest.RepairKeyExact | backend/src/msai/api/symbol_onboarding.py:577-582 | The parts of a repair key, in order: namespace, watchlist, parent run, and the sorted symbols. |
| OnboardingDigest.SameKeyExact | backend/src/msai/api/symbol_onboarding.py:187-209 | Two well-formed requests have the same key exactly if they agree on everything but the order of their symbols. A cost ceiling counts by its text, so 10 and 10.00 are different. |
| OnboardingDigest.RepairKeyDiffers | backend/src/msai/api/symbol_onboarding.py:577-582 | A repair never has the key of an onboarding. |
| OnboardingDigest.SameRepairKeyExact | backend/src/msai/api/symbol_onboarding.py:577-582 | Two repairs have the same key exactly if they retry the same symbols, in any order, of the same run and watchlist. |
| OnboardingProtocol.InvKept | backend/src/msai/api/symbol_onboarding.py:212-337 | Every step of every request keeps the invariant: row locks, pending un-hides, commits, rows and answers. |
| OnboardingProtocol.RunInv | backend/src/msai/api/symbol_onboarding.py:212-337 | The invariant holds in every state of every run. |
| OnboardingProtocol.RunGrows | backend/src/msai/api/symbol_onboarding.py:317-337 | Along a run, answers, rows, enqueued jobs and commits are never taken back. |
| OnboardingProtocol.RowsFollowJobs | backend/src/msai/api/symbol_onboarding.py:274-319 | Every new row's run id was carried by a job enqueued under the row's key before the row appeared. |
| OnboardingProtocol.OneAccepted | backend/src/msai/api/symbol_onboarding.py:317-337 | Per key there is at most one 202 answer ever, and its run owns the key's only row. |
| OnboardingProtocol.AnswersNameRow | backend/src/msai/api/symbol_onboarding.py:245-300 | Every 200 or 202 answer names the run of the key's row. |
| OnboardingProtocol.AnsweredIsUnhidden | backend/src/msai/api/symbol_onboarding.py:426-462 | Before a 200 or 202 to an onboarding, a request of the same key committed the un-hide of exactly the same definitions, while the answered request was past its own un-hides. For every requested symbol and asset class, the databento definition of just these was hidden after that commit if and only if an earlier delete step of the run hid it after the committing request's un-hide had passed it, and it stayed hidden up to the commit. |
| OnboardingProtocol.AnswerFollowsCommit | backend/src/msai/api/symbol_onboarding.py:245-337 | The commit behind a 200 or 202 of any request is its own or that of a concurrent request with its key, never an old one. |
| OnboardingProtocol.RowArrived | backend/src/msai/api/symbol_onboarding.py:285-300 | A row that a request meets after the queue refused it was committed while it waited. |
| OnboardingProtocol.CommitShows | backend/src/msai/api/symbol_onboarding.py:253-258 | In every run, the commit of an onboarding, for a new or for an existing row, shows the databento definition of every symbol and asset class requested, except exactly those that a delete step hid again in this way. |
| OnboardingProtocol.HiddenWasHiddenAgain | backend/src/msai/api/symbol_onboarding.py:426-436 | What an active request has un-hidden and finds hidden, without holding it itself, was hidden by such a delete step. |
| OnboardingProtocol.HiddenAgainIsHidden | backend/src/msai/api/symbol_onboarding.py:426-436 | Conversely, what such a delete step hid never becomes part of the request's pending writes. |
| OnboardingProtocol.SameKeySameTargets | backend/src/msai/api/symbol_onboarding.py:426-439 | Only an onboarding of the same symbols has an onboarding's key. |
| OnboardingProtocol.StepEffects | backend/src/msai/api/symbol_onboarding.py:426-462 | Only a soft delete hides a definition; only a committing step of an onboarding shows one, the databento definition of a symbol and asset class that it requests; only committing steps add rows. |
| OnboardingProtocol.HidesPassedExact | backend/src/msai/api/symbol_onboarding.py:426-436 | When a delete counts as after the un-hide: the request is past the entry of that symbol and asset class, nobody holds the row, and it was visible. |
| OnboardingProtocol.AnswerCodes | backend/src/msai/api/symbol_onboarding.py:245-337 | Each answer code comes from its own step: 202 from the commit of a new row, 200 from an existing one, 409 from a refused queue without a row or a rejection, 503 from a failing queue. |
| OnboardingProtocol.RefusalLeavesTables | backend/src/msai/api/symbol_onboarding.py:268-305 | A step that ends a request with another answer changes neither flags nor rows. |
| OnboardingProtocol.RefusalLeavesNoTrace | backend/src/msai/api/symbol_onboarding.py:268-331 | A refused or failed request owns no row and no commit. |
| OnboardingProtocol.DeleteRace | backend/src/msai/api/symbol_onboarding.py:936-942 | A concrete run that answers 202 and leaves the named definition hidden. |
| ReleaseChecks.ValidRunExact | scripts/release_safety.py:96-110 | A run is accepted exactly if workflow, revision, branch, event, repositories, ids and creation time are right; it is then ordered by creation time and id. |
| ReleaseChecks.LatestExact | scripts/release_safety.py:134-138 | The maximum over a complete listing refuses unless every run is valid, and is the newest one. |
| ReleaseChecks.JobRefusalExact | scripts/release_safety.py:148-155 | The test on a required job name passes exactly if one job has it and that job succeeded for this revision, run and attempt. |
| ReleaseChecks.JobExact | scripts/release_safety.py:148-155 | Over the fields: exactly one job has the name, and its status is completed, its conclusion success, and revision, run and attempt are these. |
| ReleaseChecks.WaitingExact | scripts/release_safety.py:141-143 | A run is waited for exactly while its status is one of the five unfinished ones and it has no conclusion. |
| ReleaseChecks.GoodIdsExact | scripts/release_safety.py:87-90 | Rows are identified exactly if each has a positive integer id and no two share one. |
| ReleaseChecks.ProvenSays | scripts/release_safety.py:129-163 | A proof holds the same run and attempt three times, each time completed, successful and of this workflow, revision and repository; newest by creation time and id in both listings; and each required job once, successful for it. |
| ReleaseChecks.ArgumentsExact | scripts/release_safety.py:114-116 | The arguments are accepted exactly for OWNER/REPO, 40 lower-case hexadecimal digits and a wait of 0 to 1800 seconds. |
| ReleaseChecks.JobsRefusal | scripts/release_safety.py:148-155 | The loop over the required names passes exactly if all of them are proved. |
| ReleaseChecks.PartialBound | scripts/release_safety.py:93-93 | While the pager goes on, fewer than ten pages were read, so its last refusal is unreachable. |
| ReleaseChecks.JudgeNext | scripts/release_safety.py:77-92 | A page that completes the list makes the pages read complete; a page after which the pager goes on keeps all pages full and consistent. |
| ReleaseChecks.JudgeHonest | scripts/release_safety.py:77-92 | On a page of one unchanging list of fewer than 1000 identified rows the pager never refuses and stops exactly at the end. |
| ReleaseChecks.Inspector.Fetch | scripts/release_safety.py:119-124 | A read times out exactly if there is a wait and the deadline has passed; otherwise it returns the answer. |
| ReleaseChecks.Inspector.AllPages | scripts/release_safety.py:71-93 | Against arbitrary answers: success only with exactly the reported total, distinct positive ids and max(1, ceil(total/100)) pages, all logged; never the last refusal. Against an honest server: the whole list in order, unless time runs out. |
| ReleaseChecks.Inspector.CheckWorkflow | scripts/release_safety.py:129-163 | One workflow in one round: verified only with a proof whose reads are exactly this call's events and that says what `ProvenSays` states over the fields; evidence that is good throughout the round is verified, and a newest run that is still going is reported as pending, unless time runs out. |
| ReleaseChecks.Inspector.VerifyRun | scripts/release_safety.py:147-163 | Jobs, re-read and second listing, in this order, complete the proof of a run found completed/success. |
| ReleaseChecks.InspectRound | scripts/release_safety.py:127-164 | A round that verifies everything logs its start and then only the reads of its proofs; a round in which every workflow is proved or still running is not refused unless time runs out. |
| ReleaseChecks.CheckRelease | scripts/release_safety.py:113-170 | Success only with a proof for ci.yml with its three jobs and for auth-gate.yml with its two, written out and over the fields of the answers, all read within the one last round; at most ceil(wait/15) + 1 rounds. If workflows are proved or still running in the first rounds and all are proved in round n, the check succeeds unless time runs out; it does succeed if the reads and pauses up to that round fit into the wait, or if that round is the first and the wait is zero. |
| GitHub.RepositoryNameExact | scripts/release_safety.py:48-51 | A repository name is an owner, a slash and a name, both nonempty and of letters, digits, underscore, dot and hyphen. |
| ReleaseChecks.StaysInTime | scripts/release_safety.py:119-170 | Up to that round the clock, made of the time of at most 65 calls a round and at most 15 seconds a pause, stays ahead of the deadline. |
| ReleaseChecks.TraceNoRound | scripts/release_safety.py:127-164 | The reads of the proofs contain no start of another round. |
| Paging.PagesConcatenate | backend/src/msai/api/backtests.py:692-693 | Consecutive pages concatenate to a prefix of the list: nothing is repeated or skipped. |
| Paging.LastPage | backend/src/msai/api/backtests.py:692-693 | All pages up to one that is not full hold the whole list. |
| History.ListBacktests | backend/src/msai/api/backtests.py:449-695 | Answered exactly for pages 1 to 100 and sizes 1 to 100, in every view: the page is that slice of the full history, and the total is its length. For the combined view the history is the two full lists sorted together, though only a prefix of each is fetched. |
| History.MergeTakes | backend/src/msai/api/backtests.py:552-568 | Merging the first n rows of two sorted lists gives the same first n rows as merging the lists. |
| History.SortMerges | backend/src/msai/api/backtests.py:667-669 | The stable sort of two sorted lists is their merge. |
| History.HistoryExact | backend/src/msai/api/backtests.py:511-695 | The combined history has every row as often as its table, without smoke runs unless they were asked for and only them if they alone were; newest first, backtests before portfolio runs of the same time. |
| History.OneTableExact | backend/src/msai/api/backtests.py:449-560 | A view of one table has the rows of that table under the same filter, newest first. |
| History.PagesCover | backend/src/msai/api/backtests.py:692-695 | If a page is not full, the pages up to it are the whole history, every row once and in order. |
| History.PagesCoverExactly | backend/src/msai/api/backtests.py:449-450 | All pages that are served are the first 100 times size rows; they are the whole history exactly if it has no more rows than that. |
| TradeExport.GetTrades | backend/src/msai/api/backtests.py:804-891 | Page by page the trades by time and id, at most min(size, 500) to a page, with profit and commission exactly if there is accounting, the total and the accounting; absent backtests and parameters below 1 are refused. |
| TradeExport.ListingExact | backend/src/msai/api/backtests.py:849-858 | The list has every trade exactly once, in order, with the columns that are shown of it. |
| TradeExport.ExportAll | backend/src/msai/cli.py:2900-2931 | The loop ends; an export holds the pages as they were read, all under one accounting, up to the first page that was not full. Undisturbed: every trade once, in order, with its columns, after n / min(size, 500) + 1 pages. |
| AliasBackdate.Backdate | backend/alembic/versions/b6a7b8c9d0e1_backdate_time_invariant_aliases.py:98-131 | The in-place update moves the start of a row exactly if it is the first eligible one of its name and provider, over the columns: open, equity, fx or crypto, after the anchor, name not anchored yet, no closed window of the definition. Every other row stays. |
| AliasBackdate.MovesExact | backend/alembic/versions/b6a7b8c9d0e1_backdate_time_invariant_aliases.py:101-129 | The row ranked first is exactly the eligible one that starts first, ties by position. |
| AliasBackdate.OthersUntouched | backend/alembic/versions/b6a7b8c9d0e1_backdate_time_invariant_aliases.py:108-109 | Aliases of futures, options and unknown classes are never changed. |
| AliasBackdate.GroupMoves | backend/alembic/versions/b6a7b8c9d0e1_backdate_time_invariant_aliases.py:101-129 | Every eligible group has its earliest row moved to the anchor, and no other. |
| AliasBackdate.UniqueKeyKept | backend/alembic/versions/b6a7b8c9d0e1_backdate_time_invariant_aliases.py:98-131 | Alias, provider and start stay a unique key. |
| AliasBackdate.WindowsGrow | backend/alembic/versions/b6a7b8c9d0e1_backdate_time_invariant_aliases.py:124-129 | Only the start changes; no alias loses a day, and the days gained lie between the anchor and the old start of a moved open row. |
| AliasBackdate.DefinitionsStayDisjoint | backend/alembic/versions/b6a7b8c9d0e1_backdate_time_invariant_aliases.py:118-122 | Disjoint windows of each definition stay disjoint. |
| AliasBackdate.KeysStayDisjointExactly | backend/alembic/versions/b6a7b8c9d0e1_backdate_time_invariant_aliases.py:112-122 | The windows of each alias stay disjoint exactly if no moved alias was in use under another row between the anchor and its start. |
| AliasBackdate.ReuseOverlaps | backend/alembic/versions/b6a7b8c9d0e1_backdate_time_invariant_aliases.py:112-122 | A concrete table in which they do not. |
| AliasBackdate.Idempotent | backend/alembic/versions/b6a7b8c9d0e1_backdate_time_invariant_aliases.py:98-131 | A second update changes nothing. |
| CacheMigration.SplitLastExact | backend/alembic/versions/e2f3g4h5i6j7_drop_instrument_cache.py:153-159 | The canonical id is split at its last dot and nothing is lost; there is no split exactly if there is no dot. |
| CacheMigration.ParseExact | backend/alembic/versions/e2f3g4h5i6j7_drop_instrument_cache.py:151-198 | A cache row parses exactly if its id is symbol, dot and a known venue without a dot, and its class is one of four, written out; the routing venue is the nonempty exchange and otherwise the listing venue. |
| CacheMigration.ClassExact | backend/alembic/versions/e2f3g4h5i6j7_drop_instrument_cache.py:178-179 | The four asset classes of the cache and what they become, in any letter case and with white space around them. |
| CacheMigration.RowExact | backend/alembic/versions/e2f3g4h5i6j7_drop_instrument_cache.py:200-297 | All columns one row leaves: an existing definition takes the refresh time and hours that are given; a new one has symbol, class, both venues, hours or JSON null and refresh time of the row; other open aliases end today; the alias of the row is added unless its key is there. |
| CacheMigration.RowRefused | backend/alembic/versions/e2f3g4h5i6j7_drop_instrument_cache.py:266-280 | A row that parses is refused exactly if an alias that it has to close today starts later than today. |
| CacheMigration.Registry.Upgrade | backend/alembic/versions/e2f3g4h5i6j7_drop_instrument_cache.py:137-300 | The loop over all cache rows writes row by row what `RowExact` says, in their order; on a refusal the tables are as before and the cache is kept. |
| CacheMigration.Registry.Copy | backend/alembic/versions/e2f3g4h5i6j7_drop_instrument_cache.py:151-297 | The statements for one row leave every column as `RowExact` says, or refuse as the specification does. |
| CacheMigration.MigrationPreserves | backend/alembic/versions/e2f3g4h5i6j7_drop_instrument_cache.py:151-297 | Both unique keys, window order and references hold afterwards; no alias loses a day before today; stored trading hours never become null. |
| CacheMigration.SucceedsExactly | backend/alembic/versions/e2f3g4h5i6j7_drop_instrument_cache.py:151-297 | Without future-dated windows the migration succeeds exactly if every cache row parses. |
| CacheMigration.RowOpens | backend/alembic/versions/e2f3g4h5i6j7_drop_instrument_cache.py:266-297 | One row leaves its definition with open aliases of its own name only, and with one unless the key was taken and none was open. |
| CacheMigration.RowElsewhere | backend/alembic/versions/e2f3g4h5i6j7_drop_instrument_cache.py:266-297 | A row leaves the open aliases of other definitions alone. |
| CacheMigration.LastRowWins | backend/alembic/versions/e2f3g4h5i6j7_drop_instrument_cache.py:151-297 | After the migration the open aliases of a touched definition all carry the canonical id of its last cache row; whether there is one is decided exactly. |
| CacheMigration.ClosedKeyStrands | backend/alembic/versions/e2f3g4h5i6j7_drop_instrument_cache.py:266-297 | Concrete consistent tables whose migration succeeds and leaves a touched definition without any open alias. |
| EmaRestart.ReplayRestores | strategies/example/ema_cross.py:275-290 | Replaying a reading as often as it had inputs restores value and count from a cold indicator. |
| EmaRestart.RestartExact | strategies/example/ema_cross.py:199-291 | Save and load restore both indicators always, and the whole state exactly if the last decision was not at timestamp 0. |
| EmaRestart.LoadExact | strategies/example/ema_cross.py:242-291 | What any saved state is loaded as: a cold start unless the version is 3 and all entries parse; otherwise the saved readings and counts, and no last decision exactly for timestamp 0. |
| EmaRestart.ActionExact | strategies/example/ema_cross.py:134-165 | The action table: buy when flat, close and buy when short under a fast reading above the slow one, close when long under one below; and only if both indicators are warm and a stamped bar is newer than the last decision. |
| EmaRestart.EmaCross.OnBar | strategies/example/ema_cross.py:114-165 | The action on a bar by readings, position and stamps, and the new last decision, written out; the readings by the update rule of the indicator. |
| EmaRestart.EmaCross.OnLoad | strategies/example/ema_cross.py:242-291 | Loading replays the saved readings; an unreadable or incomplete state is a cold start. |
| EmaRestart.Play | strategies/example/ema_cross.py:114-291 | A whole run of bars and restarts makes the decisions of the specification. |
| EmaRestart.DecisionsIncrease | strategies/example/ema_cross.py:134-165 | Over every run of bars and restarts the timestamps of the decisions strictly increase, provided that no restart finds the last decision at 0. |
| EmaRestart.NoneAtZeroSafe | strategies/example/ema_cross.py:239-291 | In particular if no decision is at 0. |
| EmaRestart.DecisionsAreBars | strategies/example/ema_cross.py:134-165 | In particular, bars none of which is stamped 0 lead to no decision at 0. |
| EmaRestart.RestartsInvisible | strategies/example/ema_cross.py:199-291 | If no decision of the run without its restarts is at 0, the run with them reaches the same readings and makes the same decisions. |
| EmaRestart.RestartsInvisibleExactly | strategies/example/ema_cross.py:199-291 | For every sequence of bars: restarts are invisible at every point, wherever they are placed, exactly if no decision on those bars is at 0. |
| EmaRestart.ZeroForgotten | strategies/example/ema_cross.py:239-291 | A restart directly after a decision at 0 changes the state. |
| EmaRestart.ActsAtZero | strategies/example/ema_cross.py:134-165 | From any warm state without a key and with different periods there are a bar at 0 and a position that the strategy acts on. |
| EmaRestart.NeverRepeatsExactly | strategies/example/ema_cross.py:134-165 | For every sequence of bars and every placement of restarts: no bar that is not newer than a decision made is acted on, exactly if no decision on those bars is at 0. |
| EmaRestart.ZeroRepeats | strategies/example/ema_cross.py:239-291 | A concrete run that acts twice on a bar at timestamp 0. |
| DeploymentIdentity.DetectCollisions | backend/alembic/versions/c1d2e3f4a5b6_live_deployments_stable_identity.py:190-265 | No collision is reported exactly if all signatures differ; otherwise each shared signature is reported with all its rows. |
| DeploymentIdentity.FilledExact | backend/alembic/versions/c1d2e3f4a5b6_live_deployments_stable_identity.py:297-356 | Every column filled in: slug, trader id, stream and qualified name with their prefixes, account, config key by key, instruments sorted and joined, start and stop times, and the signature of just these. |
| DeploymentIdentity.JoinExact | backend/alembic/versions/c1d2e3f4a5b6_live_deployments_stable_identity.py:167-167 | Joining puts one comma between any two parts. |
| DeploymentIdentity.LiveDeployments.Backfill | backend/alembic/versions/c1d2e3f4a5b6_live_deployments_stable_identity.py:268-356 | The per-row updates fill in every column of every row as `FilledExact` says, from its own data, and only its own row. |
| DeploymentIdentity.LiveDeployments.Upgrade | backend/alembic/versions/c1d2e3f4a5b6_live_deployments_stable_identity.py:422-447 | If detection returns, the backfilled signatures are pairwise distinct and complete; if it refuses, nothing was changed. |
| DeploymentIdentity.NormalizedExact | backend/alembic/versions/c1d2e3f4a5b6_live_deployments_stable_identity.py:119-141 | Two configs normalize to the same one exactly if every key has the same effective value. |
| DeploymentIdentity.DefaultSpelledOut | backend/alembic/versions/c1d2e3f4a5b6_live_deployments_stable_identity.py:119-141 | Spelling out a defaulted key changes nothing. |
| DeploymentIdentity.InstrumentOrderIrrelevant | backend/alembic/versions/c1d2e3f4a5b6_live_deployments_stable_identity.py:144-187 | Reordering the instruments does not change the signature. |
| DeploymentIdentity.SameIdentityExact | backend/alembic/versions/c1d2e3f4a5b6_live_deployments_stable_identity.py:144-187 | Signatures agree exactly if starter, strategy, code, mode and effective config agree and the instruments are the same multiset. |
| LiveStream.ReadExact | frontend/src/lib/use-live-stream.ts:329-383 | Which message is what, by type and event type: snapshots by type, six event types, and nothing else has an effect. |
| LiveStream.CurrentSnoc | frontend/src/lib/use-live-stream.ts:384-403 | One more position report replaces its instrument's entry by itself at the end, or drops it if closed. |
| LiveStream.PositionsExact | frontend/src/lib/use-live-stream.ts:325-403 | The position table is exactly the list of latest open records since the last snapshot, in order of arrival. |
| LiveStream.PositionsAreLatest | frontend/src/lib/use-live-stream.ts:325-403 | It has one entry per instrument: the last record since the last snapshot, unless that one is closed. |
| LiveStream.HistoriesExact | frontend/src/lib/use-live-stream.ts:405-421 | Fills and order statuses are the newest 50 of all received, newest first. |
| LiveStream.HaltExact | frontend/src/lib/use-live-stream.ts:366-373 | A stream is halted exactly if a halt was ever received, and shows the reason of the last one. |
| LiveStream.LatestExact | frontend/src/lib/use-live-stream.ts:338-381 | Account and deployment status are those of the last message that carried one. |
| Ordering.SortedUnique | backend/src/msai/api/symbol_onboarding.py:198-198 | A sorted arrangement of distinguishable elements is unique. |
| Ordering.SortCanonical | backend/src/msai/api/symbol_onboarding.py:198-198 | Sorting forgets the order in which distinguishable elements were given. |
| Ordering.StringLeExact | scripts/docker-image-retention.py:227-227 | The order of strings: a prefix, or the smaller character at the first difference. |

## Left out

- The transport and process layer: `gh`, `az`, `docker` and `curl` calls, HTTP, SQL drivers, Redis, locks and files are replaced by the answers of a `World` or by steps of the state machine.
- Hashes and JSON encoding: a hash is taken to be injective, so a key is the list or record that is hashed.
- RuleNames.CreatedRuleOwned: speaks of Azure's reports that are singular or one-element lists; a report in any other form is not owned.
- RuleLifecycle.Session.ProveCurrent: two listings of a rule are compared structurally, while Python also takes true, 1 and 1.0 inside a rule for equal.
- RuleLifecycle.Session.ReadStatus: the reply is given field by field, and a missing field is null.
- The target arguments of the SSH commands (resource group, security group, subscription) and their check.
- RetentionApply.Engine.Execute: leaves out the disk-space metrics, of which only the final comparison with the floor is an input, the checks of the command line and the reading of deployment pins from files; pins are an input of each inventory.
- RetentionPolicy.Policy: leaves out the list of unapproved repositories, which no decision depends on; parsed creation times are inputs.
- OnboardingProtocol.InvKept: a commit either takes effect or is rolled back; a commit whose outcome the caller cannot learn is not modelled. Run ids are distinct, jobs are only ever added, and workers never write the hidden flag.
- OnboardingProtocol.AnsweredIsUnhidden: speaks of well-formed requests, as the request schema enforces; a soft delete is one atomic update and commit; the cost cap, parent checks and alias lookups before a request's first write are free choices between going on and answering 404, 409 or 422.
- ReleaseChecks.Inspector.CheckWorkflow: a run status that is a JSON list or object, which raises a TypeError in Python, is a refusal here.
- The other commands of the release script: target resolution and fleet readiness.
- History.ListBacktests: rows whose creation times tie keep one fixed order, and every portfolio run has its portfolio; the display fields of an item other than id, kind, time and smoke flag are left out.
- TradeExport.ExportAll: the number of trades a backtest ever has is bounded, without which the loop need not end; prices and quantities are copied through and left out.
- AliasBackdate.Backdate: dates are day numbers, and the physical row position is the array index; the downgrade is left out.
- CacheMigration.Registry.Upgrade: uuids are drawn from a counter, whitespace and letter case are ASCII, and a missing cache value is bound as the JSON literal null, as the source's comment says.
- EmaRestart.EmaCross.OnBar: arithmetic is exact instead of floating point, and what the portfolio holds is an input; order submission, halts and the flattening on stop are left out.
- EmaRestart.RestartExact: a restart loads the state that the same strategy saved last; after a crash without a save the older state is loaded and nothing is promised.
- DeploymentIdentity.LiveDeployments.Backfill: slugs are inputs, so nothing is said about their own unique index; the account id is read once.
- LiveStream.PositionsExact: assumes that a snapshot has one open record per instrument, as the backend sends it; the reconnecting hook around the reducer is left out.
- The gateway watchdog, the thin routers over services, the second example strategy, additive schema migrations, authentication, reports and alerts: plumbing, or much easier than what is here.
