# agentdag, verified

A Dafny model of the state machines and decision procedures at the centre of agentdag, with
proofs about every run, every input or every reachable state of them. `dafny verify
dfyconfig.toml` checks the whole project.

## What is modelled

| file | what it models |
|---|---|
| `Dispatch.dfy`, `Sums.dfy` | one Claude dispatch: spend keyed by request, the arm-then-grace handover, the deadline latch, the exit ladder |
| `Admission.dfy` | validating a planned spec, the search through the dependency graph, and what any sequence of admissions keeps |
| `RunLock.dfy` | the run's lock file under deaths, pid reuse and reboots |
| `CancelProtocol.dfy` | the run directory under any number of cancelling and coordinating processes: `state.json`, the intent, the journal and its audit copy |
| `CancelScope.dfy` | what a verified cancel says about the processes left in the run's scope |
| `CancelStatus.dfy` | when `state.json` and the journal disagree about a cancel for good |
| `JournalText.dfy` | the journal file as text and what is read back from it |
| `Decisions.dfy` | write-once decisions, their file names, and the deadline pass racing with people |
| `OperatorText.dfy` | the rules for text an operator is shown, and the rendering that meets them |
| `Utf8.dfy` | the octets of a text |
| `Scrub.dfy` | secret scrubbing: token shapes, key spellings, the walk over a JSON value |
| `Overrides.dfy` | `--set` overrides: parsing, the conflict check, the nested tree built in place, its dotted keys |
| `Condition.dfy` | three-valued conditions over a run's records |
| `Completions.dfy` | what an undecided condition leaves open |
| `Push.dfy` | the scratch fleet, staging, the refusals before a push, one apply, and applies cut short by crashes |
| `WriteSet.dfy` | write-set globs, the manifest diff, strays, and the hook that judges a write |
| `Containment.dfy` | where a node with an accepted write set may write: the grants of its dispatch judged by the hook |
| `Keys.dfy` | journal keys |
| `Policy.dfy` | resolving roles and models, kind defaults, the wiring check, pinning a policy in place |
| `Strings.dfy`, `Wrappers.dfy` | splitting and joining; optional values and results |

Objects whose methods update them in the source are classes here (`Handover`, `TurnLoop`,
`FileRunLock`, `JsonlJournal`, `RunDirectory`, `DecisionStore`, `RunView`, `ScratchOrigin`, `Fleet`, the
nested override `Node`, the policy `Row`); loops that update variables are methods with
invariants. Protocols are step machines over a shared state in which any process may take
the next step or die, and for three of them a lemma says that the steps, left alone, do
what the call does (`UninterruptedStepsAreTheCall`, `UninterruptedRunIsTheCall`,
`UninterruptedPassIsTheCall`).

## What is assumed

* Acquiring and releasing the run lock are each one atomic step. The code reads, unlinks and
  recreates the file, so a finer interleaving is another protocol.
* Exclusion needs the holder's start time to be readable by whoever checks it
  (`ExclusionNeedsReadability` says exactly when) and the lock to be tried for on one host
  (`ForeignHolderIsJudgedLocally`, `OneHostExcludes`).
* For the handover's count, no request id is spelled `unkeyed-<n>`. For the spend,
  `ClashLosesACharge` says exactly what such an id costs, and when.
* Among the values and texts that two dispatches hash, SHA-256 and canonical JSON do not
  collide, and a digest is hexadecimal text; `CollisionFreeExists` shows that this can be met.
* Payload parsing, value coercion and path resolution are function parameters. The clock, what
  the manager says of a unit and who is in it, the subtree's stop predicate and the SDK's next
  message are step inputs.
* One line append, one rename and one hard link are each atomic.
* No new scope is started under a run's name while the run is being cancelled.
* Operator text holds Unicode scalar values. Its bounds are those of section 2.1.1 of RFC 5322
  on the octets of section 3 of RFC 3629.

## Where the code and its documentation differ

The code is followed in each case.

* `_Handover.expired` says `observe` returns True on exactly the request that reaches the
  grace, and `_run` says a second `interrupt()` is avoided
  (src/agentdag/adapters/kernel/executor_claude.py:728-733, 1278-1281). The code returns True
  for every further request as well (line 812): `InterruptsAgain`; when it does is
  `InterruptsFromTheThirdRequest`.
* `_run` calls the running total input plus output tokens (lines 1283-1284). The code sums
  `charged_total` (line 1344), which leaves out cache reads: `ChargeLeavesOutCacheReads`.
* `grace_used` is described as API requests seen since arming (line 701). It is the number
  of changes of speaker (`ResumedRequestIsCountedAgain`), which is the number of distinct
  requests exactly when no request's events resume after another's: `GraceCountsRequests`.
* `_refuse_duplicate_basenames` is there because two origins sharing a basename would share
  a worktree (src/agentdag/application/graph_a.py:75-77, 201-203). For the mirrors that
  `make_scratch_fleet` names the refusal is exact (`MirrorsOwnWorktreesIff`). An origin given
  to `run_graph` directly that does not end in `.git` shares a worktree with one that is
  named the same with that suffix, and is not refused: `SuffixIsNotRefused`,
  `SharedWorktreeIff`.
* A cancel's `verified` is said to mean that the scope is confirmed empty, and `is_alive`
  whether the unit has live processes (src/agentdag/application/kernel/cancel.py:133-136,
  src/agentdag/application/kernel/ports.py:704-705). `is_alive` asks whether the unit is
  `active` (src/agentdag/adapters/kernel/scope_systemd.py:168-183), which a unit that is being
  stopped no longer is, and `_kill` then verifies without looking (cancel.py:301-302). A cancel
  that finds another one's stop under way records CANCELLED while processes live on:
  `DrainingScopeIsCancelled`. Such a report is wrong exactly then (`WrongIffMisled`), and a run
  in which it never happens ends CANCELLED only with nothing left (`NothingLeftWhenCancelled`).
* Each extra root is said to be granted wholesale
  (src/agentdag/adapters/kernel/executor_claude.py:1023-1030). The root directory `/` gives
  the grant `//**` (line 1062), which covers nothing: `RootDirectoryGrantsNothing`. Every
  other one is granted wholesale: `AcceptedNodeWritesExactly`.
* A secret key is said to be redacted whether it is snake_case or camelCase
  (src/agentdag/domain/scrub.py:66-70). A word that begins with a digit glues to the word
  before it in camelCase, so `auth_token_2` is redacted and `authToken2` is not:
  `SpellingCanLeak`.
* One entry of the usage-count allowlist is said to cover every spelling of a field
  (src/agentdag/domain/scrub.py:96-99). For the same reason `ephemeral1hInputTokens` is
  redacted: `SpellingCanMatter`.

## Properties that hold only under a condition

* camelCase splits back into its words exactly when every boundary can be seen
  (`CamelSplitsIffSeparable`). Without single-letter words after the first, both spellings are
  redacted alike exactly when a listed usage count loses no boundary and any other key naming
  a secret names one that no word beginning with a digit directly follows (`SpellingsAgreeIff`).
* A rendered text is accepted exactly when something in it shows (`RenderedIsAccepted`).
* CANCELLED means that nothing of the run is left as long as nobody asks about a scope that is
  draining (`NothingLeftWhenCancelled`); a kill reports wrongly exactly then (`WrongIffMisled`).
* Dotted keys are the given keys exactly when no key's last value is a mapping
  (`DottedKeysAreTheGivenOnes`). The comment in `_nest_override` that no value sits where a
  table is needed holds of all overrides that pass the check (`CompatibleOverridesNest`).
* Without the check, every override would be read back exactly when none meets a value where
  it needs a table and those whose paths continue one another agree (`ReadBackIffAgreeing`).
  So among values that are no mappings the check refuses exactly the losses
  (`CheckRefusesExactlyTheLosses`), and with a mapping it may refuse where nothing would be
  lost: `a.b={"d": 2}` and `a.b.d=2` (`CheckMayBeStricterThanNeeded`).
* A settled verdict survives growing records exactly when no leaf there reads a shadowed
  record or orders what cannot be ordered (`SettledStaysSettled`, `SettledCanRaiseLater`).
* A condition that can still come out both ways is undecided (`OpenIsUndecided`). An undecided
  one may be certain because it reads a field twice (`UndecidedThoughCertain`) or because a
  missing field leaves its comparison no choice, as when a status is compared with `pending`
  (`UnlistedStatusNeverHolds`, `PendingNeverHolds`). When no field is
  read twice, `CompletionIff` says exactly which verdicts some readable completion has, and
  `UndecidedIsOpenIff` when an undecided condition is open; with every missing field compared
  flexibly it always is (`UndecidedIffOpen`, `FlexibleIff`). A completion gains entries and
  facts, and a status is one of the seven.
* One apply brings a target to its commit exactly when it was there or its own intent is the
  first with an unmarked key (`ApplyArrivesIff`, `SharedBasenameIsSkipped`).
* The wiring check refuses exactly the tables that could resolve to an unwired row when
  aliases are distinct (`RefusedIffCanMisdispatch`); `MisdispatchIff` says for every table
  which those are, and `StricterThanNeededIff` when a refusal goes further.
* `state.json` says CANCELLED only if the journal says so. Conversely, once nobody is about
  to write it, exactly when no process died between journaling and writing it, no request
  wrote an older state back over it and no coordinator set another one
  (`StatusAgreesIffNothingLost`); each of these happens in some run (`EveryKindHappens`).

## Model

| member | source | states |
|---|---|---|
| Dispatch.ChargeLeavesOutCacheReads | src/agentdag/adapters/kernel/executor_claude.py:466-538 | a charge counts output and leaves out exactly the cache reads that the context counts |
| Dispatch.LedgerIsSpend | src/agentdag/adapters/kernel/executor_claude.py:1338-1345 | as long as no real id is a made-up key, the dict of charges sums to each request's last charge plus every unkeyed event by itself |
| Dispatch.NoReservedNoClash | src/agentdag/adapters/kernel/executor_claude.py:1343 | so it always does when no real id is spelled like a made-up key |
| Dispatch.ClashLosesACharge | src/agentdag/adapters/kernel/executor_claude.py:1343-1345 | the first event whose real id meets the key made up at that ledger size, or the reverse, costs exactly the charge that key held |
| Dispatch.RepeatedBlockChargesOnce | src/agentdag/adapters/kernel/executor_claude.py:1338-1345 | a block repeating its request's usage leaves the spend unchanged |
| Dispatch.ReservedIdLosesACharge | src/agentdag/adapters/kernel/executor_claude.py:1343-1344 | a real id spelled like a made-up key makes the ledger lose a charge |
| Dispatch.TotalOf | src/agentdag/adapters/kernel/executor_claude.py:1345 | the running total is the sum of the dict's values |
| Dispatch.Handover.constructor | src/agentdag/adapters/kernel/executor_claude.py:688-725 | a new handover is unarmed with nothing counted |
| Dispatch.Handover.Observe | src/agentdag/adapters/kernel/executor_claude.py:743-812 | one event updates every field and answers as the specification fold does, whose history the next rows give |
| Dispatch.HandoverHistory | src/agentdag/adapters/kernel/executor_claude.py:791-812 | the state after any history: unarmed before the first reason; then reason flags and context frozen from the arming turn, and one grace per change of speaker |
| Dispatch.GraceCountsRequests | src/agentdag/adapters/kernel/executor_claude.py:807-812 | the grace used is the number of distinct requests after arming other than the arming one, if and only if no request's events resume after another's |
| Dispatch.InterruptsFromTheThirdRequest | src/agentdag/adapters/kernel/executor_claude.py:791-812 | observing interrupts exactly on events that count a request and bring the count to three or more, never when arming |
| Dispatch.InterruptsAgain | src/agentdag/adapters/kernel/executor_claude.py:1278-1281 | arming on a and going on with b, c, d, e interrupts on both of the last two turns |
| Dispatch.ResumedRequestIsCountedAgain | src/agentdag/adapters/kernel/executor_claude.py:701-812 | arming on a and going on with b, c, b spends three graces for two requests |
| Dispatch.AfterTheTerminal | src/agentdag/adapters/kernel/executor_claude.py:1363-1365 | messages after the first terminal one are never read |
| Dispatch.TurnLoop.constructor | src/agentdag/adapters/kernel/executor_claude.py:1319-1328 | the loop starts with nothing charged, latched or armed |
| Dispatch.TurnLoop.FoldTurn | src/agentdag/adapters/kernel/executor_claude.py:1333-1362 | after each turn every loop variable is what the history of turns determines: first input, ledger, deadline latch, interrupts |
| Dispatch.TurnLoop.ChargeRequest | src/agentdag/adapters/kernel/executor_claude.py:1334-1344 | the first turn's input is kept and a request's charge replaces its earlier one |
| Dispatch.TurnLoop.CheckBounds | src/agentdag/adapters/kernel/executor_claude.py:1346-1362 | the deadline latches first; only within it does the handover observe the turn |
| Dispatch.Run | src/agentdag/adapters/kernel/executor_claude.py:1319-1397 | the whole loop and ladder compute the outcome and the interrupts that the history specifies |
| Dispatch.VerdictDecides | src/agentdag/adapters/kernel/executor_claude.py:579-679 | with no bound reached, the terminal message decides: a turn ceiling keeps the tree without an error; else success is done with the tree, and an error is failed without it, final if it refuses the credential and transient if not; with its turns, cost and the effort asked for |
| Dispatch.MetersAreTheTerminals | src/agentdag/adapters/kernel/executor_claude.py:466-538 | whatever rung is taken, tokens and charge reported are the terminal message's four counts by name |
| Dispatch.NoVerdictFails | src/agentdag/adapters/kernel/executor_claude.py:1363-1400 | with no bound reached and no terminal message the dispatch failed, transiently, and charged nothing |
| Dispatch.OutcomeByHistory | src/agentdag/adapters/kernel/executor_claude.py:1366-1397 | a latched deadline gives CANCELLED, else an armed handover NEEDS_CONTINUATION with the worktree kept and never both reason flags, whatever the terminal message's verdict; else the reported result |
| Sums.StretchesCountElements | src/agentdag/adapters/kernel/executor_claude.py:807-812 | changes of element are never fewer than the distinct elements, and equal in number exactly when no element comes back |
| Admission.Reaches | src/agentdag/domain/validate.py:200-212 | the stack search terminates and answers true exactly when a dep path leads from a start node to the target |
| Admission.OneWriteSetFault | src/agentdag/domain/validate.py:225-241 | the depth counter finds the same fault as walking the entry's directories |
| Admission.FaultsByPiece | src/agentdag/domain/validate.py:225-236 | an entry is absolute, names no path or leads with a glob exactly by its first character, its pieces and the first of them that moves |
| Admission.AcceptedEntryStaysInside | src/agentdag/domain/validate.py:225-241 | an accepted entry, followed from any directory, leaves it at no segment on its way |
| Admission.ClimbingEntryLeaves | src/agentdag/domain/validate.py:236-240 | an entry refused for climbing does leave whatever directory it is followed from, the file system's root excepted |
| Admission.RolesAscend | src/agentdag/domain/validate.py:244-289 | one role ranks over another exactly in the order mechanical, standard, deep, top |
| Admission.KindsAndExecutors | src/agentdag/domain/validate.py:244-289 | which executors each kind may name |
| Admission.RoleReasons | src/agentdag/domain/validate.py:244-289 | exactly the broken kind, executor, role and ceiling rules are listed |
| Admission.WriteSetReasons | src/agentdag/domain/validate.py:215-222 | exactly the faulty write-set entries are listed |
| Admission.DepReasons | src/agentdag/domain/validate.py:182-197 | exactly the missing deps, the self dep and the closed cycle are listed; without a graph only the self dep |
| Admission.DemandReasons | src/agentdag/domain/validate.py:162-179 | exactly the unregistered and the overrun resources are listed |
| Admission.ValidateSpec | src/agentdag/domain/validate.py:123-159 | the verdict lists exactly the broken rules among those that could run, in the order of the rules, and which could not, deps before requires |
| Admission.MayAdmit | src/agentdag/domain/validate.py:104-112 | ok and complete together hold exactly when no rule refuses the spec and every rule ran |
| Admission.AdmittedDep | src/agentdag/domain/validate.py:189-212 | every dep of an admissible spec is an admitted node that does not lead back to it |
| Admission.AdmissionKeepsOrder | src/agentdag/domain/validate.py:123-212 | admitting a spec, new or again, turns an order of the graph into an order of the new graph |
| Admission.AdmissionsCanAlwaysBeOrdered | src/agentdag/domain/validate.py:123-212 | after any sequence of offers, re-offered ids included, the admitted graph has a topological order |
| Admission.OrderedIsClosedAndAcyclic | src/agentdag/domain/validate.py:189-197 | a graph with such an order is closed under deps and no dep leads back |
| RunLock.FileRunLock.TryCreate | src/agentdag/adapters/kernel/lock_file.py:201-209 | creation succeeds exactly when no file is there, and then names the holder |
| RunLock.FileRunLock.BreakIfStale | src/agentdag/adapters/kernel/lock_file.py:220-231 | the file is unlinked unless it names a holder that looks alive |
| RunLock.FileRunLock.Acquire | src/agentdag/adapters/kernel/lock_file.py:171-192 | acquiring succeeds exactly when nothing alive blocks it, and otherwise changes nothing |
| RunLock.FileRunLock.Release | src/agentdag/adapters/kernel/lock_file.py:194-198 | releasing removes the file only while it names the releasing holder |
| RunLock.LiveHolderBlocks | src/agentdag/adapters/kernel/lock_file.py:137-165 | a live holder blocks every newcomer that can read what the file records |
| RunLock.OtherBootNeverBlocks | src/agentdag/adapters/kernel/lock_file.py:120-160 | a holder recorded under another, known boot id never blocks, whatever runs under its pid |
| RunLock.NeverTwoLiveHolders | src/agentdag/adapters/kernel/lock_file.py:171-231 | over every run of acquires, releases, deaths, pid reuse and reboots at most one live process holds the lock |
| RunLock.ExclusionNeedsReadability | src/agentdag/adapters/kernel/lock_file.py:137-165 | while one process holds it, another's attempt leaves one holder if and only if it can read the holder's start time |
| RunLock.UnreadableHolderIsDisplaced | src/agentdag/adapters/kernel/lock_file.py:137-165 | a live holder whose start time cannot be read back is displaced |
| RunLock.ForeignHolderIsJudgedLocally | src/agentdag/adapters/kernel/lock_file.py:137-165 | over hosts sharing the file, an attempt away from a live holder's host leaves one holder if and only if the boot ids are not known to differ and a local process happens to have its pid and start time |
| RunLock.ForeignHolderIsDisplaced | src/agentdag/adapters/kernel/lock_file.py:120-134 | between hosts of known, different boot ids every such attempt makes a second holder |
| RunLock.OneHostExcludes | src/agentdag/adapters/kernel/lock_file.py:137-231 | while only one host ever tries, whatever the others do, at most one process anywhere holds the lock |
| RunLock.RefusedOnlyByTheLiving | src/agentdag/adapters/kernel/lock_file.py:120-165 | after any run a newcomer is refused exactly when a live process holds the lock, so the dead never block |
| RunLock.ExactAfter | src/agentdag/adapters/kernel/lock_file.py:120-231 | over every run the file names a living process exactly when some live process holds the lock |
| CancelProtocol.ResolvedIffCancelled | src/agentdag/application/kernel/cancel.py:306-319 | a resolution is reported exactly when the journal holds a cancel line, and it is one of them |
| CancelProtocol.CancelIsRecordedOnce | src/agentdag/application/kernel/cancel.py:150-244 | over every interleaving with deaths anywhere: at most one cancel line, a request line before it, and CANCELLED in the state only if that line is verified |
| CancelProtocol.AuditIsNeverBehind | src/agentdag/adapters/kernel/journal_jsonl.py:45-66 | the journal is a subsequence of the audit copy, longer by exactly the appends a death cut short plus the one in flight |
| CancelProtocol.JournalOnlyGrows | src/agentdag/adapters/kernel/journal_jsonl.py:45-66 | over any further run neither file loses or changes a line |
| CancelProtocol.TwoWritersCanDisagree | src/agentdag/adapters/kernel/journal_jsonl.py:48-53 | two unsynchronised appends can leave the journal no subsequence of the audit copy |
| CancelProtocol.OneInside | src/agentdag/application/kernel/cancel.py:229-244 | two processes are never both inside the locked section |
| CancelProtocol.JsonlJournal.Append | src/agentdag/adapters/kernel/journal_jsonl.py:45-66 | the line ends both files, audit copy and journal |
| CancelProtocol.RunDirectory.constructor | src/agentdag/application/kernel/cancel.py:185-187 | a call works on this journal, lock and state, with no intent written yet |
| CancelProtocol.RunDirectory.RequestCancel | src/agentdag/application/kernel/cancel.py:150-182 | a finished run is refused, a requested one reported unchanged, any other gets the intent and the status cancelling |
| CancelProtocol.PollUntilEmpty | src/agentdag/adapters/kernel/scope_systemd.py:204-210 | true exactly when one of the readings, the last one after the budget included, finds no process |
| CancelProtocol.KillScope | src/agentdag/application/kernel/cancel.py:289-303 | verified exactly when the scope can be asked about across processes and its unit was not active when asked, or was found empty after the stop |
| CancelProtocol.RunDirectory.ResolveCancel | src/agentdag/application/kernel/cancel.py:185-244 | a recorded cancel is reported and nothing written; a held lock changes nothing; otherwise both lines, the status and a free lock, verified and CANCELLED exactly when the kind of scope allows it and the unit was not active or its processes were seen gone |
| CancelProtocol.RunDirectory.JournalCancel | src/agentdag/application/kernel/cancel.py:322-337 | the request line, then the outcome line, go into both files and the status follows the outcome |
| CancelProtocol.UninterruptedStepsAreTheCall | src/agentdag/application/kernel/cancel.py:225-244 | the file accesses of a resolution, left alone, end in exactly what the call promises |
| CancelProtocol.VerifiedCancelMayStayUnmarked | src/agentdag/application/kernel/cancel.py:306-337 | a death after the verified line leaves the state unmarked, and a later resolution leaves it so; the exact condition and the other ways are the next rows |
| CancelScope.DirectoryRuns | src/agentdag/application/kernel/cancel.py:185-244 | together with its scope the run directory goes through runs of the protocol, so what holds over those holds here |
| CancelScope.OnlyReportsSaySo | src/agentdag/application/kernel/cancel.py:185-337 | nothing but a kill that reports success brings about a verified line, a CANCELLED status or a process on its way to one |
| CancelScope.ReportsVerifiedIff | src/agentdag/application/kernel/cancel.py:289-303 | a kill reports success exactly on finding a capable unit not active, or polling it and finding no process |
| CancelScope.WrongIffMisled | src/agentdag/adapters/kernel/scope_systemd.py:168-210 | it does so with processes left exactly when it asked about a unit that is draining |
| CancelScope.NothingLeftWhenCancelled | src/agentdag/application/kernel/cancel.py:128-147 | over every run in which that does not happen, a verified line or CANCELLED means a capable scope with no process left |
| CancelScope.InMemoryIsNeverCancelled | src/agentdag/application/kernel/ports.py:663-675 | a scope only its starter tracks is never recorded verified nor shown CANCELLED |
| CancelScope.DrainingScopeIsCancelled | src/agentdag/application/kernel/cancel.py:301-302 | a cancel that asks about a draining unit records itself verified and CANCELLED with processes left |
| CancelScope.StoppingDrains | src/agentdag/adapters/kernel/scope_systemd.py:195-202 | and draining is how a stop leaves a unit with processes until they are gone |
| CancelStatus.StatusAgreesIffNothingLost | src/agentdag/application/kernel/cancel.py:150-337 | over every run, once nobody is about to write the status: CANCELLED in the state just when the journal says verified, if and only if no death or reboot before that write, no stale request write after it and no coordinator status after it ever happened |
| CancelStatus.LosesIff | src/agentdag/application/kernel/cancel.py:174-337 | one action loses the status exactly when it is one of those events |
| CancelStatus.UnmarkedForGood | src/agentdag/application/kernel/cancel.py:226-240 | a lost status is never written again |
| CancelStatus.DeathLosesTheStatus | src/agentdag/application/kernel/cancel.py:334-337 | a death or reboot between the verified line and the status loses it |
| CancelStatus.StaleRequestLosesTheStatus | src/agentdag/application/kernel/cancel.py:174-181 | with no death, a request that read a running state before a resolution writes cancelling over its CANCELLED |
| CancelStatus.CoordinatorLosesTheStatus | src/agentdag/application/kernel/cancel.py:229-244 | a coordinator that takes the freed lock can set another status |
| CancelStatus.EveryKindHappens | src/agentdag/application/kernel/cancel.py:150-337 | from every fresh directory with a free lock each kind of event happens in some run |
| JournalText.SplitIffCut | src/agentdag/adapters/kernel/journal_jsonl.py:84 | the raw lines are exactly the pieces that hold no line end and, with one between each and the next, are the text; a carriage return and line feed are one |
| JournalText.Lines | src/agentdag/adapters/kernel/journal_jsonl.py:68-92 | the loop gives the parsed non-blank lines, none for a missing file, or the number of the first unreadable line |
| JournalText.RaisesForTheFirstUnreadable | src/agentdag/adapters/kernel/journal_jsonl.py:86-91 | reading raises if and only if some line is unreadable, naming the first |
| JournalText.ReadsBackWhatWasAppended | src/agentdag/adapters/kernel/journal_jsonl.py:61-92 | whatever was appended is read back, every line in order |
| JournalText.TornAppendIsReported | src/agentdag/adapters/kernel/journal_jsonl.py:74-78 | after whole appends, a cut-short one raises with its own number unless what is left reads as a line or as blank |
| Decisions.FileNameParsesBack | src/agentdag/adapters/kernel/run_store_fs.py:344-385 | a decision's file name parses back to its node id and short hash, dots in the id included, and never looks like a cancel file |
| Decisions.DecisionStore.WriteDecision | src/agentdag/adapters/kernel/run_store_fs.py:291-342 | an unsafe name or an existing file is refused; otherwise exactly that file appears, and every file still holds the decision its name says |
| Decisions.DecisionStore.ReadDecision | src/agentdag/adapters/kernel/run_store_fs.py:258-289 | what is read answers this node and this very payload; none means no file is there; an unreadable file and a short-hash collision raise |
| Decisions.AtMostOneDecision | src/agentdag/adapters/kernel/run_store_fs.py:497-520 | no two files answer the same node and short hash |
| Decisions.OptionNamedIsLast | src/agentdag/application/kernel/approve.py:260-273 | the option a default names is the last of that id, absent only if there is none |
| Decisions.RunView.constructor | src/agentdag/application/kernel/approve.py:430-461 | a pass works on this store, lock, state and payload files |
| Decisions.PayloadStaysInside | src/agentdag/adapters/kernel/run_store_fs.py:222-235 | a node and hash that a decision can be filed under name a payload file inside the run |
| Decisions.RunView.DueIsApplied | src/agentdag/application/kernel/approve.py:464-601 | read off the files alone: a pass applies exactly when the state is suspended on a node and hash whose payload file hashes to it, is past its deadline, has a harmless default and a text that is shown and says something, and no decision file is there; that file then holds the default |
| Decisions.RunView.ApplyDueDefault | src/agentdag/application/kernel/approve.py:430-461 | a default is written exactly when the lock was free, the run waits on a payload whose text matches, its deadline passed, its default is harmless and no decision is there; the lock is free afterwards |
| Decisions.RunView.ApplyUnderLock | src/agentdag/application/kernel/approve.py:464-601 | the same inside the lock, with the file and decision written |
| Decisions.UninterruptedPassIsTheCall | src/agentdag/application/kernel/approve.py:464-601 | the steps of a pass that nothing disturbs leave exactly the files that the call under the lock promises, and nothing else changes |
| Decisions.DecisionsAreFinal | src/agentdag/adapters/kernel/run_store_fs.py:291-342 | no action of anyone replaces or removes a recorded decision |
| Decisions.EveryRunKeeps | src/agentdag/application/kernel/approve.py:464-601 | over every interleaving what passes wrote stays justified and every recorded decision stays as it was |
| Decisions.PassesWriteOnlyDueDefaults | src/agentdag/application/kernel/approve.py:464-601 | a decision a pass wrote answers the node and hash the run was suspended on in a state that was read; it is the default of a payload hashing to the hash it answers, whose deadline had passed and whose last option of that id has no effect |
| OperatorText.NoReasonsIffReadable | src/agentdag/application/kernel/approve.py:276-343 | no reason is given exactly for text that says something, is short enough, has no long line and no control or hidden character |
| OperatorText.AcceptedIffShown | src/agentdag/application/kernel/approve.py:295-345 | the same spelled out: at most 4096 characters, lines of at most 998 octets of UTF-8, none of the concealed characters but line feeds, and something that is no white space |
| Utf8.EncodedDecodes | src/agentdag/application/kernel/approve.py:236-241 | the octets counted are UTF-8: every text is read back from them by section 3 of RFC 3629 |
| Utf8.DecodedEncodes | src/agentdag/application/kernel/approve.py:236-241 | and octets that can be read back are those of the text read |
| OperatorText.Fold | src/agentdag/application/kernel/approve.py:230-246 | the accumulating loop joins the greedy pieces of the line |
| OperatorText.FoldedPiecesAreTheLine | src/agentdag/application/kernel/approve.py:230-246 | the pieces put together are the line, each fits, and each cut was forced |
| OperatorText.EscapeNamesTheCode | src/agentdag/application/kernel/approve.py:225-227 | a concealed character is written as U+ and four upper-case hex digits that spell its code point; any other stays |
| OperatorText.EscapeConcat | src/agentdag/application/kernel/approve.py:225-227 | a line is escaped character by character |
| OperatorText.RenderedLineByLine | src/agentdag/application/kernel/approve.py:222-254 | nothing is lost: a text is rendered to the pieces of its escaped lines in order, each cut forced, and only what passes 4096 characters is replaced by the notice |
| OperatorText.RenderedIsReadable | src/agentdag/application/kernel/approve.py:193-253 | whatever the text, what is rendered is within both bounds and shows every character |
| OperatorText.RenderedIsAccepted | src/agentdag/application/kernel/approve.py:193-291 | rendered text gives no reason exactly when something in it shows or it had to be cut |
| OperatorText.NonblankIsAccepted | src/agentdag/application/kernel/approve.py:193-291 | every non-blank text is rendered into text that gives no reason |
| OperatorText.ReadableIsUnchanged | src/agentdag/application/kernel/approve.py:193-253 | text that is already readable comes back unchanged |
| OperatorText.RenderingIsIdempotent | src/agentdag/application/kernel/approve.py:193-222 | rendering twice is rendering once |
| Scrub.RedactedIsClean | src/agentdag/domain/scrub.py:149-190 | after the value pass no substring has any secret shape |
| Scrub.RedactChangesOnlySecrets | src/agentdag/domain/scrub.py:149-190 | the value pass changes a string if and only if some substring is a secret |
| Scrub.SecretsAreTokens | src/agentdag/domain/scrub.py:149-152 | the shapes are the five listed tokens with their prefixes, alphabets and least lengths |
| Scrub.RedactKeepsTheRest | src/agentdag/domain/scrub.py:149-190 | the text around the secrets is kept, and each secret is replaced whole by one marker |
| Scrub.CamelComponents | src/agentdag/domain/scrub.py:33-49 | a camelCase key splits into its words, each glued to what precedes it where no boundary can be seen |
| Scrub.CamelSplitsIffSeparable | src/agentdag/domain/scrub.py:33-49 | it splits back into its words if and only if every boundary can be seen |
| Scrub.SnakeSplits | src/agentdag/domain/scrub.py:33-49 | a snake_case key always splits into its words |
| Scrub.CamelSecretIff | src/agentdag/domain/scrub.py:33-49 | without single-letter words after the first, a camelCase key is redacted exactly when it names a secret that no digit-first word directly follows and is no listed usage count with every boundary seen |
| Scrub.SnakeSecretIff | src/agentdag/domain/scrub.py:141-146 | a snake_case key is redacted exactly when it names a secret and is no listed usage count |
| Scrub.SnakeKeysSpelled | src/agentdag/domain/scrub.py:51-126 | which words name a secret and which ten usage counts are kept |
| Scrub.SpellingsAgreeIff | src/agentdag/domain/scrub.py:66-99 | such words are redacted alike in both spellings if and only if a listed usage count loses no boundary and any other key naming a secret names one no digit-first word directly follows |
| Scrub.SpellingCanLeak | src/agentdag/domain/scrub.py:66-70 | `auth_token_2` is redacted and `authToken2` is kept |
| Scrub.SpellingDoesNotMatter | src/agentdag/domain/scrub.py:66-69 | where every boundary can be seen both spellings of a key are redacted alike |
| Scrub.SpellingCanMatter | src/agentdag/domain/scrub.py:80-102 | `ephemeral_1h_input_tokens` is kept and `ephemeral1hInputTokens` is redacted |
| Scrub.ScrubbedIsClean | src/agentdag/domain/scrub.py:160-191 | nothing is left to redact anywhere in a scrubbed value |
| Scrub.ScrubChangesOnlySecrets | src/agentdag/domain/scrub.py:160-191 | scrubbing changes a value if and only if something in it is to be redacted |
| Scrub.ScrubIsIdempotent | src/agentdag/domain/scrub.py:160-191 | scrubbing twice is scrubbing once, on every JSON value |
| Scrub.ScrubbedAt | src/agentdag/domain/scrub.py:184-191 | place by place: off the secret keys the place scrubbed, at a secret key the marker, beneath one nothing |
| Scrub.ScrubValue | src/agentdag/domain/scrub.py:184-191 | kinds, list lengths and keys in order are kept |
| Scrub.NoSecretSurvives | src/agentdag/domain/scrub.py:160-191 | no string at any place of a scrubbed value holds a secret |
| Overrides.SpelledIsParsed | src/agentdag/adapters/config/overrides.py:67-88 | a path of at least two non-empty parts, dotted, an equals sign and any text parse back to just that |
| Overrides.ParsedIsSpelled | src/agentdag/adapters/config/overrides.py:67-88 | nothing else is accepted: an accepted string spells the path and text it parsed to |
| Overrides.UnderIsProperPrefix | src/agentdag/adapters/config/overrides.py:171-174 | the string test `startswith(key + ".")` holds exactly when one path properly continues the other |
| Overrides.RefuseConflicts | src/agentdag/adapters/config/overrides.py:155-174 | a conflict is reported if and only if there is one, naming the first key and the first other under it |
| Overrides.NestedIffOpen | src/agentdag/adapters/config/overrides.py:147-152 | nesting succeeds exactly when no value stands where it needs a table |
| Overrides.NestedReads | src/agentdag/adapters/config/overrides.py:147-152 | what every path reads after one nesting: the value from there on, tables above it, the old tree elsewhere |
| Overrides.CompatibleOverridesNest | src/agentdag/adapters/config/overrides.py:127-202 | overrides that pass the check always nest and every key reads back its last value |
| Overrides.CheckRefusesExactlyTheLosses | src/agentdag/adapters/config/overrides.py:155-174 | for values that are no mappings the check refuses exactly the overrides that would fail to nest or lose a value |
| Overrides.NestAllIffUnblocked | src/agentdag/adapters/config/overrides.py:147-152 | compatible or not, the overrides nest exactly when each in turn finds no value where it needs a table, told from the overrides before it |
| Overrides.ReadBackIffAgreeing | src/agentdag/adapters/config/overrides.py:155-202 | for any values, the tree is built and every key reads back its last value if and only if none is blocked and, where one path continues another, the mapping at the shorter holds what was given at the longer |
| Overrides.AgreeingPairIsRefused | src/agentdag/adapters/config/overrides.py:155-174 | a mapping and an equal value given under it are refused though both would be read back |
| Overrides.CheckMayBeStricterThanNeeded | src/agentdag/adapters/config/overrides.py:119-174 | `a.b={"d": 2}` and `a.b.d=2` are such a pair |
| Overrides.DottedKeysAreLeaves | src/agentdag/adapters/config/overrides.py:205-224 | the dotted keys are the joined paths of the leaves |
| Overrides.DottedKeysAreTheGivenOnes | src/agentdag/adapters/config/overrides.py:177-224 | the tree's dotted keys are the given keys if and only if no key was last given a mapping |
| Overrides.Node.constructor | src/agentdag/adapters/config/overrides.py:199 | a new table is empty |
| Overrides.Node.Put | src/agentdag/adapters/config/overrides.py:152 | exactly the entry under the key changes |
| Overrides.Node.Nest | src/agentdag/adapters/config/overrides.py:127-152 | the in-place walk leaves exactly the tree that nesting on values specifies |
| Overrides.Node.SetDefault | src/agentdag/adapters/config/overrides.py:147-151 | a missing table is made empty, a present one kept |
| Overrides.Node.NestBelow | src/agentdag/adapters/config/overrides.py:148-151 | only the table under the key changes, by nesting the rest of the path |
| Overrides.Build | src/agentdag/adapters/config/overrides.py:119-124 | a coerced mapping becomes fresh tables holding the same value |
| Overrides.ParseEach | src/agentdag/adapters/config/overrides.py:196 | the overrides in order, or what the first malformed one raises |
| Overrides.NestEach | src/agentdag/adapters/config/overrides.py:199-202 | overrides that pass the check end in the specified tree |
| Overrides.NestOverrides | src/agentdag/adapters/config/overrides.py:177-202 | succeeds exactly when all parse and no path continues another; then the tree and the given keys |
| Strings.BeforeIffFirstDifference | src/agentdag/domain/condition.py:215-222 | texts compare at their first difference, a beginning coming first |
| Condition.NumbersCompareAsNumbers | src/agentdag/domain/condition.py:215-222 | the six operators on numbers |
| Condition.TruthIsOneOrZero | src/agentdag/domain/condition.py:215-222 | on either side a truth value stands for 1 or 0 |
| Condition.TextsCompareAsTexts | src/agentdag/domain/condition.py:215-222 | the six operators on texts follow the order of texts |
| Condition.SortsDoNotMix | src/agentdag/domain/condition.py:215-222 | values of different sorts are never equal and raise when ordered |
| Condition.OppositesDisagree | src/agentdag/domain/condition.py:215-222 | an operator and its opposite raise together or disagree |
| Condition.StatusConditionTells | src/agentdag/domain/condition.py:122-128 | a status compared with one of the seven texts is decided true for just the record that has that status |
| Condition.LeafRaisesIffUnsound | src/agentdag/domain/condition.py:309-317 | a leaf raises exactly when its record has a fact called status, or its field is there, is asked to be ordered and cannot be |
| Condition.RaisesIffUnsound | src/agentdag/domain/condition.py:232-278 | evaluation raises exactly when some leaf does; no settled sibling hides it |
| Condition.PresentIsDecided | src/agentdag/domain/condition.py:243-253 | with every referenced field present a condition is decided, by its ordinary Boolean reading |
| Condition.UndecidedIsMissing | src/agentdag/domain/condition.py:243-247 | an undecided condition references a field that is not there |
| Condition.OnlyReferencesMatter | src/agentdag/domain/condition.py:281-306 | a verdict depends only on what the referenced fields read |
| Condition.SettledStaysSettled | src/agentdag/domain/condition.py:232-334 | when records only gain entries or facts, a settled verdict is kept if and only if no leaf's guards fail there |
| Condition.SettledHoldsInEveryCompletion | src/agentdag/domain/condition.py:243-253 | a settled verdict is the ordinary reading of every completion |
| Condition.UndecidedThoughCertain | src/agentdag/domain/condition.py:320-334 | a condition true in every completion may be undecided, when it reads a field twice |
| Completions.CanAnswerIff | src/agentdag/domain/condition.py:215-222 | a missing field could hold something that answers so exactly as follows: for a status, per operator, the text is listed or lies on the right side of an end of the seven texts' order; for a fact, unless something would have to come before the empty text |
| Completions.FlexibleIff | src/agentdag/domain/condition.py:151-158 | a leaf can come out both ways by later facts exactly when both answers can be given so |
| Completions.CompletedAsForeseen | src/agentdag/domain/condition.py:232-334 | every readable completion comes out as foreseen by a reader who knows which missing fields leave their comparison no choice, however often a field is read |
| Completions.CompletionIff | src/agentdag/domain/condition.py:232-334 | when no field is read twice, some readable completion comes out so if and only if no leaf raises now, each missing field can be answered and the foreseen verdict is not the other one |
| Completions.OpenIsUndecided | src/agentdag/domain/condition.py:243-253 | what two readable completions decide differently is undecided |
| Completions.UndecidedIsOpenIff | src/agentdag/domain/condition.py:243-253 | an undecided condition that reads no field twice can come out both ways exactly when each missing field can be answered and nothing is foreseen |
| Completions.UndecidedIffOpen | src/agentdag/domain/condition.py:243-253 | when no field is read twice and missing ones are compared flexibly, a condition is undecided if and only if two readable completions make it come out true and false |
| Completions.SettledHasCompletion | src/agentdag/domain/condition.py:243-253 | a settled condition that reads no field twice has a readable completion with its verdict exactly when each missing field can be answered |
| Completions.UnlistedStatusNeverHolds | src/agentdag/domain/models.py:101-110 | a status compared for equality with a text no status has is undecided, foreseen false, and true in no completion |
| Completions.PendingNeverHolds | src/agentdag/domain/models.py:101-110 | such a text is `pending`: the condition reads no field twice and is undecided, yet cannot come out both ways |
| Condition.SettledCanRaiseLater | src/agentdag/domain/condition.py:122-128 | a later fact shadowing a reserved name turns a settled verdict into a raise |
| Push.ReduceTally | src/agentdag/domain/graph_a.py:118-133 | passed and failed add up to the rows |
| Push.StageCoversThePassed | src/agentdag/domain/graph_a.py:118-157 | one intent for each passed row and for nothing else, as many as were counted |
| Push.KeySpellsNameAndCommit | src/agentdag/domain/graph_a.py:100-115 | a key is the repository's name, a dash and the commit |
| Push.KeyTellsNameAndCommit | src/agentdag/domain/graph_a.py:100-115 | for commits of one length a key tells the repository's name and the commit |
| Push.RefuseDuplicateBasenames | src/agentdag/application/graph_a.py:72-90 | a fleet is refused exactly when two basenames agree, naming the first repeat and what it repeats |
| Push.MirrorsShareIff | src/agentdag/application/graph_a.py:59-68 | mirrors are scratch targets, and two share a path, or a worktree, exactly when their repositories share a basename |
| Push.MirrorsOwnWorktreesIff | src/agentdag/application/graph_a.py:72-90 | each mirror of a fleet has a worktree of its own if and only if the fleet is not refused |
| Push.ScratchOrigin.MakeScratchFleet | src/agentdag/application/graph_a.py:35-69 | a fleet of differing basenames gets its mirrors in order, existing ones kept unless refreshed, nothing else changed |
| Push.ScratchIffBelowOrigin | src/agentdag/domain/graph_a.py:160-185 | a scratch target is one at or below the origin directory of the scratch directory |
| Push.RefuseNonScratchTargets | src/agentdag/application/graph_a.py:93-109 | refused exactly when a target is outside the scratch tree, naming the first |
| Push.SharedWorktreeIff | src/agentdag/application/graph_a.py:163 | two targets share a worktree exactly when their basenames agree or differ by the suffix |
| Push.SuffixIsNotRefused | src/agentdag/application/graph_a.py:72-90 | the origins `x` and `x.git` are not refused and share a worktree |
| Push.OneOutcomeTells | src/agentdag/application/graph_a.py:145-167 | done before exactly if the key was marked, present exactly if the commit was there, pushed exactly if a push was made |
| Push.OutcomesTell | src/agentdag/application/graph_a.py:112-167 | over the whole list, done before exactly for marked or repeated keys, and exactly the targets reported pushed were pushed, in order |
| Push.ApplyEachExactly | src/agentdag/application/graph_a.py:142-167 | from a ready state exactly the targets of first unmarked keys move, to their worktree's HEAD, and all keys are marked |
| Push.ApplyArrivesIff | src/agentdag/application/graph_a.py:112-167 | every target ends at its commit if and only if each was there or has a leading intent |
| Push.StagedApartArrives | src/agentdag/application/graph_a.py:112-167 | distinct basenames and commits of one length are enough |
| Push.SharedBasenameIsSkipped | src/agentdag/domain/graph_a.py:100-115 | of two targets with one basename and commit the second is taken for done |
| Push.Fleet.ApplyIntent | src/agentdag/application/graph_a.py:145-167 | the marker, ref, push and mark branches leave the specified state and outcome |
| Push.Fleet.Apply | src/agentdag/application/graph_a.py:112-142 | one bad target leaves everything as it was; otherwise the intents in turn |
| Push.NothingHappensOutside | src/agentdag/application/graph_a.py:141 | with a target outside the scratch tree no run ever pushes or marks anything |
| Push.CompletedApplyHasArrived | src/agentdag/application/graph_a.py:112-167 | after any crashes, a completed apply has every target at its commit and every marker set, each pushed once in all if it had to move, else never |
| Push.StagedFleetArrives | src/agentdag/application/graph_a.py:112-167 | the same for whatever a fleet of distinct basenames stages |
| Push.NeverPushedTwice | src/agentdag/application/graph_a.py:112-126 | completed or not, no target is pushed twice and nothing else is pushed or moved |
| Push.UninterruptedRunIsTheCall | src/agentdag/application/graph_a.py:141-167 | the steps of a run that nothing interrupts do exactly what the call does |
| WriteSet.GlobIffCuts | src/agentdag/domain/scan.py:108-126 | the matcher accepts exactly what can be cut into pieces its pattern characters stand for |
| WriteSet.CollapsingKeepsMatches | src/agentdag/domain/scan.py:126 | rewriting `**` to `*` changes nothing about what a pattern matches |
| WriteSet.GrantCoversExactly | src/agentdag/domain/scan.py:108-130 | a plain directory's `/**` grant covers the directory and everything under it, and nothing else |
| WriteSet.AnchoredGrantsStayRelative | src/agentdag/adapters/kernel/hooks_claude.py:135-144 | a grant beginning with a plain character other than a slash covers no absolute path |
| WriteSet.UnanchoredGrantCoversAll | src/agentdag/adapters/kernel/hooks_claude.py:141-144 | a bare double star covers every path, absolute ones too |
| WriteSet.StrayIffUncovered | src/agentdag/domain/scan.py:58-79 | a path is a stray exactly when it changed and no glob covers it |
| WriteSet.StraysInOrder | src/agentdag/domain/scan.py:58-79 | strays keep their order and repetitions |
| WriteSet.LargerListsCoverMore | src/agentdag/domain/scan.py:82-105 | a larger allow list covers no less |
| WriteSet.DiffIsDisagreement | src/agentdag/domain/scan.py:29-55 | a path is in the diff exactly when the manifests say different things about it |
| WriteSet.DiffList | src/agentdag/domain/scan.py:53-55 | the list holds exactly the diff, each path once, in ascending order |
| WriteSet.DiffIsAMeasure | src/agentdag/domain/scan.py:29-55 | the diff is empty only for equal manifests, symmetric, and a change over two spans shows in one |
| WriteSet.AddressesAreUnique | src/agentdag/adapters/kernel/hooks_claude.py:183-202 | different targets inside a root have different addresses |
| WriteSet.RelativeIsNotAbsolute | src/agentdag/adapters/kernel/hooks_claude.py:188-201 | a relative address is never taken for an absolute one |
| WriteSet.HookAgreesWithScan | src/agentdag/domain/scan.py:85-92 | inside the root a write is allowed exactly when it would not be a stray under the same list |
| WriteSet.AllowedIsNeverStray | src/agentdag/domain/scan.py:85-92 | an allowed in-root write is no stray under any larger list |
| WriteSet.OutsideNeedsAnAbsoluteGrant | src/agentdag/adapters/kernel/hooks_claude.py:135-144 | outside the root a write is allowed exactly under an extra root and by a grant that can name an absolute path |
| WriteSet.AllowedIsContained | src/agentdag/adapters/kernel/hooks_claude.py:165-202 | every allowed write names a path strictly inside a root, and no grants allow nothing |
| Containment.AcceptedIsAnchored | src/agentdag/domain/validate.py:225-241 | an accepted entry begins with a plain character other than a slash |
| Containment.AcceptedStaysRelative | src/agentdag/domain/scan.py:108-130 | so it covers no absolute path, whatever globs follow |
| Containment.AcceptedAllowsNothingOutside | src/agentdag/adapters/kernel/hooks_claude.py:158-202 | judged by an accepted write set alone, the hook allows no write outside the root, whatever the extra roots |
| Containment.NodeGrantCoversExactly | src/agentdag/adapters/kernel/executor_claude.py:1056-1063 | the node's own grant covers its directory and what is under it, component by component |
| Containment.ExtraRootIsGranted | src/agentdag/adapters/kernel/executor_claude.py:1062 | what is strictly under an extra root other than `/` is granted |
| Containment.AcceptedNodeWritesExactly | src/agentdag/adapters/kernel/executor_claude.py:1014-1063 | with an accepted write set and the grants of its dispatch, a node may write exactly what its write set covers inside the root, its own directory below the root, and what is strictly under an extra root |
| Containment.RootGrantsNothing | src/agentdag/adapters/kernel/executor_claude.py:1056-1063 | a node whose own directory is the root is granted nothing by it |
| Containment.RootDirectoryGrantsNothing | src/agentdag/adapters/kernel/executor_claude.py:1062 | the extra root `/` allows nothing outside the root |
| Keys.IdentityNamesItsFields | src/agentdag/domain/keys.py:29-50 | the thirteen identity fields and the two hashes are hashed each under its own name |
| Keys.PrefixTellsRecords | src/agentdag/domain/keys.py:106-116 | the prefix hash is equal exactly for equal dependency records in the same order |
| Keys.KeysTellCalls | src/agentdag/domain/keys.py:119-139 | two keys are equal exactly when identity fields, brief and input hashes and dependency records are |
| Keys.CollisionFreeExists | src/agentdag/domain/keys.py:53-82 | for any two dispatches some hashing meets the assumption |
| Keys.RetriesAreNewCalls | src/agentdag/domain/keys.py:29-50 | changing attempt or continuation always gives a new key |
| Keys.LimitsAreNotIdentity | src/agentdag/domain/keys.py:44-50 | with all else equal two specs share a key exactly when they differ at most in node id, brief path, dep ids, deadline and budget |
| Keys.ShortFormIsTheDigest | src/agentdag/domain/keys.py:142-155 | the short form is the start of the key's digest |
| Policy.ByRoleIsTheCheapest | src/agentdag/domain/policy.py:287-293 | a role resolves to the offering row of least rank, the earliest of equals, and raises only when none offers it |
| Policy.ByModelIsTheNamedRow | src/agentdag/domain/policy.py:296-309 | a model resolves exactly to the first row of that name, when it is available and lists the role asked for |
| Policy.NamedRoleDecides | src/agentdag/adapters/kernel/policy_yaml.py:141-145 | a spec that names a role resolves to that role's cheapest row, whatever its kind's default |
| Policy.DefaultRoleStandsIn | src/agentdag/adapters/kernel/policy_yaml.py:141-145 | one that names neither resolves its kind's default role so, and has nothing to resolve without one |
| Policy.NamedModelDecides | src/agentdag/adapters/kernel/policy_yaml.py:141-145 | one that names a model resolves to the first row of that name if it is available and lists that same role |
| Policy.RefusedModelIsNamed | src/agentdag/domain/policy.py:296-312 | which of the three refusals a named model gets |
| Policy.RefusedIffUnwired | src/agentdag/composition/kernel.py:186-195 | a table is refused exactly when an available row's executor is not wired |
| Policy.ResolvedIsDispatchable | src/agentdag/adapters/kernel/policy_yaml.py:123-146 | under a table that passes, whatever resolves is wired, available, lists the role, and by role has least rank |
| Policy.MisdispatchIff | src/agentdag/domain/policy.py:283-309 | a table could resolve to an unwired row if and only if it offers one that is the first of its alias or the cheapest for some role |
| Policy.StricterThanNeededIff | src/agentdag/composition/kernel.py:186-195 | a refusal is stricter than needed exactly when every offending row is neither |
| Policy.RefusedIffCanMisdispatch | src/agentdag/composition/kernel.py:166-195 | with distinct aliases the tables refused are exactly those that could resolve to an unwired row |
| Policy.RefusedThoughUnreachable | src/agentdag/composition/kernel.py:186 | with a shared alias a table may be refused for a row nothing resolves to |
| Policy.RolesIn | scripts/eval_pin_policy.py:60-67 | the nested loops collect the roles in the order first met |
| Policy.RolesOfAll | scripts/eval_pin_policy.py:60-67 | exactly the roles some row lists are collected |
| Policy.RolesAreDifferent | scripts/eval_pin_policy.py:60-67 | each role is collected once |
| Policy.Row.constructor | scripts/eval_pin_policy.py:51-57 | a row holds the fields it was loaded with |
| Policy.Target | scripts/eval_pin_policy.py:70-75 | the first row of that name, none only if there is none |
| Policy.PinPolicy | scripts/eval_pin_policy.py:92-104 | a missing or unwired row is refused and nothing changes; otherwise the target gets every role and is the only row available, wherever it stands in the list |
| Policy.PinnedRolesResolve | scripts/eval_pin_policy.py:78-82 | after pinning exactly the roles some row listed resolve, all to the pinned row |
| Policy.OnlyThePinnedRowResolves | scripts/eval_pin_policy.py:100-104 | whatever resolves after pinning is the pinned row |
| Policy.PinnedIsNotRefused | scripts/eval_pin_policy.py:94-98 | a pinned table passes the wiring check exactly when its executor is wired |

## Left out

- The CLI, email, logging, configuration loading, deployment, environment allowlists, prompt text, run summaries and evaluation reports.
- The Claude SDK, subprocesses, systemd's own steps, git internals and HTTP probes: each is an input event, a Boolean or one atomic step; a scope is what the manager says of it and the processes in it.
- Coordinator modules that dispatch, replay and execute plans; the protocol's coordinator only appends lines, sets a status and finishes.
- `sweep_stale_scope`: it writes nothing and only reports a kill.
- `current_holder`, and reading boot ids and start times from the system: they are what a step reads.
- The value `resolve_cancel` returns in a race: it reports its own kill, which may differ from the journaled one.
- Torn writes within one line append, fsync and file modes; `JournalText.TornAppendIsReported` covers only what reading makes of a torn last line.
- The text of reasons and refusals: a reason is a value naming the rule and its subject.
- Dispatch.VerdictDecides: whether the terminal text carries a credential refusal marker is part of the message, not read from its text.
- Admission.ValidateSpec: reasons of one rule about several entries are not said to follow the entries' order; nothing is said about who admits.
- WriteSet.GlobIffCuts: `[...]` classes are not modelled, a bracket stands for itself.
- WriteSet.CollapsingKeepsMatches: the same for patterns with a bracket.
- Completions.CompletionIff: of conditions that read a field twice only `Completions.OpenIsUndecided`, `Completions.CompletedAsForeseen` and `Condition.UndecidedThoughCertain` are said.
- Containment.AcceptedNodeWritesExactly: the node's directory is spelled with plain characters and no extra root with a bracket, since bracket classes are not modelled.
- Scrub.SpellingsAgreeIff: words after the first are no single letters; for those `Scrub.CamelComponents` says how they split.
- The hooks for reads, Bash commands and closed tools, and the stop notice.
- Overrides.Node.Nest: one level of the source's loop is one call on the table below it, and `Overrides.Build` allocates a coerced mapping's tables when it is nested rather than when it is parsed.
- Conditions on floats: numbers are reals, so NaN and the rounding of floats are not modelled.
- Scrub.CamelComponents: words are ASCII lower-case letters and digits, as the splitter's own classes are; keys that are no strings are not modelled.
- Policy.PinPolicy: rows that lack an alias, executor or role list, reading and writing the YAML file, and escalation to the next rank.
- Keys.KeysTellCalls: dumping a model to a dictionary is the identity record itself.
