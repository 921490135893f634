# Verification of the Junos device-automation core

A Dafny model of the parts of the server where an error would cost somebody a
configuration: the protocol around the device's one shared candidate configuration,
the recovery of commits a crash interrupted, the text transformations whose result is
compared or parsed later, and the places where several things must change together.

    dafny verify dfyconfig.toml

## What is modelled

The network is nondeterminism. An RPC may be acknowledged, refused, take effect with its
reply lost, hang, or meet a device that has dropped the session; a deadline or a
cancellation may cut it off. What the device really did is kept beside what the code was
told, and the theorems relate the two.

* `SharedCandidate` is the world: any number of sessions, one candidate, one lock, and
  operators who edit whenever the candidate is not locked against them. A session is an
  automaton over what its code does and what the device does to it. Nothing but the
  automaton's own discipline keeps a session from erasing somebody's work.
* `DeviceSession` is the guard over one session. Its methods append to a history the
  automaton must accept, so what is proved of every automaton holds of it.
* `JunosTransaction` and `CandidateTransaction` are the two transactions built on sessions:
  the change-set transaction, and the single-call one with its deadline, its cancellation
  and its cleanup budgets.
* `SessionPool` is the pool with its slots, guards, and spawned return and close tasks.
* `SchemaAlias` gives the fragment of JSON Schema the rewrite uses a meaning (section
  6.5.3 of JSON Schema Validation 2020-12; section 10.2.1 of JSON Schema Core 2020-12)
  and relates what is accepted before and after.
* `CommitLog` and `CrashRecovery` are the log lookup and the sweep that settles records.
* `PrefixStrip`, `XmlRepair`, `Fingerprint`, `OutputCaps` and `OutputPipes` are the text
  transformations, over `Text`, the string operations they use. Strings are sequences of
  characters; byte lengths are those of the UTF-8 encoding, and byte offsets in front of
  ASCII delimiters are character positions.
* `AddDevice`, `Batch` and `Policy` are the consistency cores.

Code that updates state is a class or a method with a loop, proved against a function or a
predicate; the properties are lemmas about that function or predicate. In the contracts of
a session, `Completed` is the session once a close in flight has completed, and
`LeavesNothing` is said of the session's own account; `DeviceSession.EndAtTheDevice` and
`JunosTransaction.GivenUpAtTheDevice` say the same of the device, in every interleaving.

## Assumptions

* The device grants the lock only on an unmodified, unlocked candidate, and ends the lock
  with its session (sections 7.5 and 8.3 of RFC 6241). A close sends the discard if it is
  armed and then ends the session. A session the device loses takes its lock and its edits
  with it (`SharedCandidate.OrderlyStep`); only the theorems about edits after the lock is
  gone need that, and `StrandedEdits` shows that they do.
* A load attempt arms the discard whatever the reply. An acknowledged commit may clear it.
* A commit whose reply was lost surfaces as CommitUnknown, ParseError, Transport, Framing or
  Protocol (`DeviceSession.SurfacesLostReply`).
* While the sweep settles one record nobody else writes that record between the re-read and
  the update; before and after, live traffic may write anything.
* In `AddDevice.Trusted`: printed JSON reads back, SHA-256 does not collide and is never all
  zeros, and the loader takes only documents whose devices are objects.
* In `Policy`: glob matching, normalisation, prefix matching and specificity are parameters;
  of equally specific rules the later one decides, so a device's rule beats a default.
* Regular expressions are an arbitrary relation between patterns and lines.

Where the code and its own comments disagree, the code is followed: the normal form of a
fingerprint does not sort lines although its summary says so
(rust-junosmcp-core/src/junos_transaction.rs:906); a session put back after a failed lock
is not always clean although the comment there says so
(rust-junosmcp-core/src/junos_transaction.rs:318); and a handle whose release answers true
may still hold its lock although its contract says it does not
(rust-junosmcp-core/src/junos_transaction.rs:122).

Facts that are false of the code are stated with the condition under which they hold and
an input at which they fail:

| fact | holds exactly when | fails at |
|---|---|---|
| a pooled session holds no lock | `IdleHoldsTheLock` | `FailedLockLeavesTheLockItWasGranted` |
| a released handle holds no lock | `Release`, `Transact` | `ConfirmedCommitOfNothingLeavesTheLock` |
| the rewrite keeps a schema's meaning | `RewriteKeepsMeaning`, `PriorAllOfIsReplaced` | `PriorAllOfCanBeLost` |
| the scan sees what the escape changes | `ScanSeesWhatEscapeChanges` | `BareFrontIsLeftAlone` |
| a settled record is the one the log speaks of | `EvidenceSurvivesReRead` | `DeadlineSetInBetween` |
| both output caps hold | `BothCapsHold` | `OneMoreIsReached` |
| the pipe loop is the fold over lines, after every modifier | `AgreeExactlyWhen` | `OneBlankLine` |
| a volatile value does not show | `ValueShowsExactlyWhen`, `ValueShowsInNormalForm` | `SpacedValueShows` |
| a deny rule allows nothing new | `DenyOnlyRefuses` | `AnotherRouterCanSwitchTheMode` |
| an added device is appended | `InsertAppends` | `DeviceCalledDevices` |
| other routers do not matter to a verdict | `OthersMatterExactlyWhen` | `AnotherRouterCanSwitchTheMode` |
| a confirm window is the caller's | `PartOfASecondIsLost` | a minute and half a second |

## Model

| member | source | states |
|---|---|---|
| SharedCandidate.TouchedHoldsLock | rust-junosmcp-core/src/device_manager.rs:434-476 | in every interleaving of any number of sessions with operators who edit whenever the candidate is not locked against them, a live session carrying an armed discard holds the lock |
| SharedCandidate.ErasesAndPublishesOnlyItsOwn | rust-junosmcp-core/src/junos_transaction.rs:399-563 | whatever a revert, a discard or a commit of a session erases or publishes was written by that session |
| SharedCandidate.OperatorsAreUndisturbed | rust-junosmcp-core/src/device_manager.rs:370-392 | at every point of every run the operators' part of the candidate and of the running configuration is exactly what it would be had this server not existed |
| SharedCandidate.StepIsOperatorsOnly | rust-junosmcp-core/src/device_manager.rs:370-392 | the same for one step: what operators wrote changes as if only operators' steps counted |
| SharedCandidate.SessionsLeaveOperatorsAlone | rust-junosmcp-core/src/junos_transaction.rs:719-811 | no step of a session adds, removes or publishes an operator's edit |
| SharedCandidate.LockExcludes | rust-junosmcp-core/src/junos_transaction.rs:301-325 | two live sessions that believe they hold the lock are one session |
| SharedCandidate.OwnViewIsExact | rust-junosmcp-core/src/junos_transaction.rs:328-351 | the device's lock is a session's exactly when its own history says so, and while it is, that history gives the shared candidate exactly |
| SharedCandidate.NoEditOutlivesItsLock | rust-junosmcp-core/src/device_manager.rs:413-419 | in every run in which devices drop the edits of a session they lose and a close ends the session only once its discard is out, every edit of ours in the shared candidate stands under its session's lock |
| SharedCandidate.OwnEndIsTheDevices | rust-junosmcp-core/src/device_manager.rs:413-419 | so a session without edits in its own account has none in the shared candidate, locked or not, in any interleaving |
| SharedCandidate.StrandedEdits | rust-junosmcp-core/src/device_manager.rs:413-419 | the condition is needed: a device that keeps the edits of a lost session has them after that session is gone |
| SharedCandidate.LockedIffTaken | rust-junosmcp-core/src/junos_transaction.rs:301-325 | a session holds the device's lock exactly when the last step that changed the lock took it |
| SharedCandidate.IdleHoldsTheLock | rust-junosmcp-core/src/junos_transaction.rs:317-321 | for every history of a session: idle, pooled or about to be, it holds the device's lock exactly when the last step that changed the lock was a grant answered with an error, or an acknowledged one after which the session was given back without an acknowledged unlock |
| SharedCandidate.RunKeepsInv | rust-junosmcp-core/src/device_manager.rs:434-476 | the device's lock and candidate agree with every session's own account, after every run |
| SharedCandidate.RunFollows | rust-junosmcp-core/src/device_manager.rs:392-419 | each session of a run takes a path its own automaton allows |
| SharedCandidate.TouchedWithoutLockCanErase | rust-junosmcp-core/src/device_manager.rs:446-461 | the rule is needed: a session that is not closing yet can erase what an operator writes next, by closing, exactly when it is up and touched and operators may write |
| SharedCandidate.UnlockAfterRevertLosesAnEdit | rust-junosmcp-core/src/tools/candidate_transaction.rs:402-415 | what a session in the state the single-call transaction gives back can do in the shared candidate: after lock, load, revert and unlock an operator's edit, and the close whose discard erases it |
| DeviceSession.CompletedCloseLeavesNothing | rust-junosmcp-core/src/device_manager.rs:413-419 | after a completed close neither lock nor edits remain in the session's own account |
| DeviceSession.EndAtTheDevice | rust-junosmcp-core/src/device_manager.rs:413-419 | and that account is the device's: whatever other sessions and operators did in between, once the close in flight has completed the lock and the edits at the device are what the guard's history says |
| DeviceSession.PooledDevice.Commit | rust-junosmcp-core/src/junos_transaction.rs:612-717 | an acknowledged commit took effect; one answered with an error took effect only if the error is one that a lost reply surfaces as |
| DeviceSession.PooledDevice.Load | rust-junosmcp-core/src/junos_transaction.rs:476-490 | an acknowledged load put all its texts into the candidate, a failed one some first part of them, on a session still up |
| DeviceSession.PooledDevice.ReleaseLock | rust-junosmcp-core/src/device_manager.rs:392-406 | a touched session is closed while the lock is its own, an untouched one unlocks and becomes poolable; the result says which, and ok means nothing is left |
| DeviceSession.PooledDevice.CloseInPlace | rust-junosmcp-core/src/device_manager.rs:413-419 | whatever the reply, the guard owns no session and the completed close leaves nothing |
| DeviceSession.PooledDevice.Drop | rust-junosmcp-core/src/device_manager.rs:434-476 | a session is pooled exactly when it is reusable, then without edits and without an armed discard; any other leaves nothing once closed |
| JunosTransaction.LostRepliesAreUncertain | rust-junosmcp-core/src/junos_transaction.rs:1083-1143 | every error a lost reply surfaces as is classified uncertain; only an explicit device error and an unrecognised text are not |
| JunosTransaction.ConfirmMinutesExact | rust-junosmcp-core/src/junos_transaction.rs:1156-1171 | a window is accepted as so many minutes exactly when it is that many, less than a second over, and from one to the largest 32-bit number |
| JunosTransaction.PartOfASecondIsLost | rust-junosmcp-core/src/junos_transaction.rs:1156-1171 | the device is asked for the caller's window exactly when it is whole seconds; a minute and half a second is accepted as a minute |
| JunosTransaction.FailedLoadError | rust-junosmcp-core/src/junos_transaction.rs:399-563 | the plain load error exactly when the needed revert and the release succeeded, otherwise an error naming exactly the failed phases |
| JunosTransaction.JunosTransaction.Lock | rust-junosmcp-core/src/junos_transaction.rs:301-325 | keeps the locked session, does nothing when already held, and on failure keeps none |
| JunosTransaction.JunosTransaction.Unlock | rust-junosmcp-core/src/junos_transaction.rs:328-351 | gives the session up on every path; once its close completes nothing of ours is left, and ok means it is gone already |
| JunosTransaction.JunosTransaction.Stage | rust-junosmcp-core/src/junos_transaction.rs:399-563 | all or nothing: an action with both sources, neither, or a payload that does not resolve is refused before any RPC; success loaded every action's own payload or archive, in order and nothing else, and the candidate holds just that, and took the diff; every later error gives the session up, and a failed load gives the exact RPCs sent, what had been loaded, and the exact error |
| JunosTransaction.JunosTransaction.LoadAll | rust-junosmcp-core/src/junos_transaction.rs:477-545 | the loads of a stage: all texts in order and the diff, or up to the first that fails, some first part of that one, and the cleanup |
| JunosTransaction.JunosTransaction.Commit | rust-junosmcp-core/src/junos_transaction.rs:612-717 | a commit that took effect is never reported as rejected or as an error; a refused one is reported as not having happened exactly on the device's own verdict, as indeterminate otherwise; a plain commit succeeds exactly when commit and release were both acknowledged, and reports which release it was; a confirmed one awaits confirmation for the minutes of the window |
| JunosTransaction.JunosTransaction.PlainCommitOnSession | rust-junosmcp-core/src/junos_transaction.rs:612-717 | the same for the plain commit alone, with the release that follows an acknowledged one |
| JunosTransaction.JunosTransaction.ConfirmedCommitOnSession | rust-junosmcp-core/src/junos_transaction.rs:1205-1248 | awaits confirmation for these minutes exactly on an acknowledged commit, is rejected exactly on the device's own verdict and indeterminate otherwise; a commit that took effect is never an error |
| JunosTransaction.JunosTransaction.Release | rust-junosmcp-core/src/junos_transaction.rs:142-194 | in every state a commit leaves the handle in: afterwards it owns no session; what is not reusable is closed, what is reusable is pooled with the lock and edits it had and reported released; nothing of ours is left exactly unless a reusable session is handed back that is still held and alive, or whose unlock failed without freeing the lock |
| JunosTransaction.JunosTransaction.Transact | rust-junosmcp-core/src/junos_transaction.rs:142-194 | a whole change set, the lock taken before it or not: after a stage that succeeded something of ours is left exactly when nothing was loaded, a confirmed commit was acknowledged, the session went back to the pool and the device has not lost it, and release says released all the same; after one that failed a session that was opened or locked is given up; whatever is committed is what was staged, and a success is told only for a commit that was acknowledged |
| JunosTransaction.ConfirmedCommitOfNothingLeavesTheLock | rust-junosmcp-core/src/junos_transaction.rs:1205-1248 | the history at which it happens: a lock, an acknowledged confirmed commit, and the session given back holding it |
| JunosTransaction.GivenUpAtTheDevice | rust-junosmcp-core/src/junos_transaction.rs:399-563 | a session given up by a failed stage, lock or rollback has no edit in the shared candidate, in any interleaving, and the lock there is its own only if it was pooled after a grant answered with an error |
| JunosTransaction.JunosTransaction.RollbackToArchive | rust-junosmcp-core/src/junos_transaction.rs:719-811 | reports success exactly when its commit was acknowledged, having loaded this archive and nothing else; reverts and closes after a failed load or commit, and gives its session up on every path |
| JunosTransaction.FailedLockLeavesTheLockItWasGranted | rust-junosmcp-core/src/junos_transaction.rs:317-321 | the two-step history of such a session: put back after a failed lock it holds the device's lock exactly if the lock had been granted, so what the comment there calls clean is not always |
| CandidateTransaction.Run | rust-junosmcp-core/src/tools/candidate_transaction.rs:180-244 | once it has returned and a close completed, neither our lock nor our change remains; Committed exactly when commit and unlock were both acknowledged; no rollback follows an acknowledged commit; what the caller is told is what the device answered, beside a failed cleanup too: a check passed, rejected the configuration or settled nothing, what refused a commit or the steps before it, and how each cleanup phase went; unlock is sent once exactly when the lock was acquired or unknown; a cancellation or a timeout is told only if there was one, and no commit is sent after either; only commit modes change the running configuration; the time bound T + 3C plus the commit, hence worst_case_duration; the taint left for the next caller; a session given back is unlocked and has its discard armed unless a commit was acknowledged and cleared it, so it is one of those `TouchedWithoutLockCanErase` is about |
| CandidateTransaction.Backend.Execute | rust-junosmcp-core/src/tools/candidate_transaction.rs:246-321 | the history of RPCs, the verdict and what is told of one execution, for every pattern of answers, hangs, cancellation and deadline |
| CandidateTransaction.LockedEndsArmed | rust-junosmcp-core/src/tools/candidate_transaction.rs:246-321 | a locked execution leaves the discard armed exactly unless a commit was acknowledged and cleared it |
| CandidateTransaction.ArmedByALoad | rust-junosmcp-core/src/tools/candidate_transaction.rs:402-415 | it takes a load or a revert to arm the discard |
| CandidateTransaction.ExecuteAndSettle | rust-junosmcp-core/src/tools/candidate_transaction.rs:206-244 | a session is given back exactly when its execution is reusable and closed otherwise, and either way nothing of ours remains |
| CandidateTransaction.Backend.LockedHistoryHolds | rust-junosmcp-core/src/tools/candidate_transaction.rs:286-321 | the verdict on a locked execution, and what is told of it, follow from what its operation and its cleanup promise |
| CandidateTransaction.PartsTold | rust-junosmcp-core/src/tools/candidate_transaction.rs:286-321 | an operation told as it was answered stays so through cleanup, and as the primary of a failed cleanup if that failed |
| CandidateTransaction.Backend.Outcomes | rust-junosmcp-core/src/tools/candidate_transaction.rs:286-321 | what a lock, an operation and a cleanup together sent and had acknowledged |
| CandidateTransaction.Backend.UnlockedOnce | rust-junosmcp-core/src/tools/candidate_transaction.rs:402-415 | a lock, an operation and a cleanup send exactly one unlock |
| CandidateTransaction.Backend.PrimaryOperation | rust-junosmcp-core/src/tools/candidate_transaction.rs:323-400 | committed is set by an acknowledged commit and by nothing else; the mode fixes the kind of result; a check is told valid exactly when acknowledged, invalid exactly when refused with one of the ten content tags, and failed on any other refusal; a commit failed exactly with the error that refused it; bounded by the deadline but for the one commit RPC |
| CandidateTransaction.Backend.CommitCheckStep | rust-junosmcp-core/src/tools/candidate_transaction.rs:356-367 | the commit check alone: which answer is which outcome |
| CandidateTransaction.Backend.CommitStep | rust-junosmcp-core/src/tools/candidate_transaction.rs:368-396 | a commit is sent exactly while the operation is active, then waited for, and answered as it was |
| CandidateTransaction.Backend.Cleanup | rust-junosmcp-core/src/tools/candidate_transaction.rs:402-415 | revert if required, always one unlock, two budgets at most, each phase's failure reported as it was answered |
| CandidateTransaction.Backend.RunStep | rust-junosmcp-core/src/tools/candidate_transaction.rs:461-479 | sent exactly while the caller has not cancelled and the deadline is not over, and at most once; an interruption is blamed on which it was, and its effect is unknown |
| SchemaAlias.RewriteKeepsMeaning | rust-junosmcp-core/src/schema_alias.rs:41-129 | for disjoint groups of fresh aliases, and no prior allOf or no choice collected to replace it, the published schema accepts an object exactly when it uses at most one spelling a group and the object under canonical names was accepted before |
| SchemaAlias.GroupKeepsMeaning | rust-junosmcp-core/src/schema_alias.rs:51-108 | the same for one group, required or optional |
| SchemaAlias.GroupsKeepMeaning | rust-junosmcp-core/src/schema_alias.rs:51-108 | the same for the groups before an emptied required is dropped, by induction over them |
| SchemaAlias.PriorAllOfIsReplaced | rust-junosmcp-core/src/schema_alias.rs:121-128 | otherwise the collected choices take the place of the prior allOf, and for an object the meaning is kept exactly when, if accepted now, it met what the old allOf asked |
| SchemaAlias.PriorAllOfCanBeLost | rust-junosmcp-core/src/schema_alias.rs:121-128 | such a schema and object: an allOf that asks for a property that gets an alias, and the empty object |
| SchemaAlias.ChoicesMean | rust-junosmcp-core/src/schema_alias.rs:83-106 | a required group's oneOf means exactly one spelling, an optional group's exclusions at most one |
| SchemaAlias.AcceptedObeys | rust-junosmcp-core/src/schema_alias.rs:41-129 | what a schema accepts obeys the constraint of each property it has, and has none that a closed schema does not list |
| SchemaAlias.MutableSchema.DescribeAliases | rust-junosmcp-core/src/schema_alias.rs:41-129 | the in-place edit computes the rewrite those results are about |
| SchemaAlias.MutableSchema.InsertAliases | rust-junosmcp-core/src/schema_alias.rs:66-74 | each alias gets the annotated original subschema, other properties keep theirs |
| SchemaAlias.AliasSaysItsCanonical | rust-junosmcp-core/src/schema_alias.rs:131-148 | an alias's description names its canonical property, behind what that says of itself, and its constraint is that property's |
| SchemaAlias.ExcludePairs | rust-junosmcp-core/src/schema_alias.rs:97-105 | every pair of spellings is excluded once, in order |
| CommitLog.LookupInvertsPrinting | rust-junosmcp-core/src/changeset_recovery.rs:111-145 | for any printed log and any non-empty id without newline, the lookup gives the right-trimmed text of the first entry containing the id, header included, and nothing otherwise |
| CommitLog.FoundIffSomeEntryContains | rust-junosmcp-core/src/changeset_recovery.rs:111-145 | nothing is found exactly when no entry contains the id, and what is found is the first that does |
| CommitLog.ConfirmedIsReadFromTheHeader | rust-junosmcp-core/src/changeset_recovery.rs:158-163 | the confirmed-commit test reads that entry's own header and never a comment line |
| CommitLog.CommitEntryForRequestId | rust-junosmcp-core/src/changeset_recovery.rs:111-145 | the lookup computes the function those results are about |
| CommitLog.CarriesTheKey | rust-junosmcp-core/src/changeset_recovery.rs:111-145 | a line carries an id exactly if request.id= stands in it directly in front of the id |
| CommitLog.HeadersStartWithANumber | rust-junosmcp-core/src/changeset_recovery.rs:121-144 | a header is a line not starting with a space whose first word is a number with something behind it |
| CommitLog.ScanLoop | rust-junosmcp-core/src/changeset_recovery.rs:121-144 | the loop with its three variables computes the scan, for any notion of header and of hit |
| CommitLog.CutLog | rust-junosmcp-core/src/changeset_recovery.rs:147-152 | cutting a printed log gives each line at the offset it was written at |
| CommitLog.ScanLog | rust-junosmcp-core/src/changeset_recovery.rs:121-144 | the scan over a printed log gives where the first entry that was hit begins and ends |
| CrashRecovery.SweepCrashedCommits | rust-junosmcp-core/src/changeset_recovery.rs:398-593 | every write is justified by what was heard from that record's own task, at most one an operation; each counter is the number of tasks with that outcome, settled counts the writes, and they sum to at most the candidates; the sweep ends within its budget and reports a timeout only when the budget is used up; alone, it changes exactly the records it settled and accounts for every candidate unless it timed out |
| CrashRecovery.WritesOnlySettle | rust-junosmcp-core/src/changeset_recovery.rs:225-266 | justified writes move only Indeterminate records, only to Committed, and never make a record Failed |
| CrashRecovery.SettleIsJustified | rust-junosmcp-core/src/changeset_recovery.rs:225-266 | a settle moves a crashed commit whose probe was judged landed to Committed; it notes the lock free and clears the flag only on two acknowledgements, and otherwise notes that nothing was shown and leaves the flag |
| CrashRecovery.LandedIsShown | rust-junosmcp-core/src/changeset_recovery.rs:166-203 | a record is judged landed exactly when it has no rollback deadline and the log shows its id in an entry not marked confirmed |
| CrashRecovery.OtherOutcomes | rust-junosmcp-core/src/changeset_recovery.rs:166-203 | a device that could not be asked is unreachable and never taken for one that answered without the id; an entry found is provisional exactly if the record has a deadline or the entry is marked |
| CrashRecovery.OnlyLandedSettles | rust-junosmcp-core/src/changeset_recovery.rs:225-266 | a record is settled on a landed commit only; its note then carries the id and what is known of the lock, and the flag is cleared exactly if that was proven free |
| CrashRecovery.SettleLanded | rust-junosmcp-core/src/changeset_recovery.rs:503-557 | re-reads before it writes, skips exactly when the record is no longer a crashed commit, and stays within the sweep's deadline |
| CrashRecovery.ProbeLockFreedom | rust-junosmcp-core/src/changeset_recovery.rs:318-386 | free is claimed exactly when the lock was acknowledged taken and, in time, acknowledged released |
| CrashRecovery.LandedMeansPrintedUnconfirmed | rust-junosmcp-core/src/changeset_recovery.rs:166-203 | against a printed log, a record is found landed exactly when it has no deadline and the first entry naming its id has no confirmed mark in its header |
| CrashRecovery.EvidenceSurvivesReRead | rust-junosmcp-core/src/changeset_recovery.rs:298-307 | with the attribution as it was, the evidence is about the record written exactly when nobody set its deadline between probe and re-read |
| CrashRecovery.DeadlineSetInBetween | rust-junosmcp-core/src/changeset_recovery.rs:503-557 | the race: a record given a deadline in between is settled as committed all the same, by a justified write whose evidence is not about it |
| CrashRecovery.SomethingLands | rust-junosmcp-core/src/changeset_recovery.rs:166-203 | a probe that gets there: a log of one entry naming the request |
| CrashRecovery.Coordinator.StillACandidate | rust-junosmcp-core/src/changeset_recovery.rs:298-307 | the record as it is now, exactly when it is still an unsettled crashed commit of that owner and device |
| PrefixStrip.StrippedAttrs | rust-junosmcp-srx-core/src/xml.rs:333-375 | stripping quoted attributes, whatever blanks separate them or stand around their `=`: those not of the prefix stay, in order; of those of the prefix nothing stays if the quote directly follows the `=`, and the value otherwise |
| PrefixStrip.OnlyBlanksMove | rust-junosmcp-srx-core/src/xml.rs:348-375 | what stays are the attributes not of the prefix, in order, each with its name and value and behind a blank |
| PrefixStrip.AttrEndIsItsEnd | rust-junosmcp-srx-core/src/xml.rs:348-375 | the end of a quoted attribute is behind its closing quote if the opening one directly follows the `=`, and directly behind the `=` otherwise, whatever comes next |
| PrefixStrip.ValueShowsExactlyWhen | rust-junosmcp-srx-core/src/xml.rs:348-375 | another value of an attribute of the prefix leaves the strip as it was exactly when the quote directly follows the `=` |
| PrefixStrip.SimpleStripJunos | rust-junosmcp-srx-core/src/xml.rs:333-345 | the loop computes the strip |
| PrefixStrip.FindAttrEnd | rust-junosmcp-srx-core/src/xml.rs:348-375 | the three scans compute the end of an attribute, quoted or not |
| PrefixStrip.ValueEnds | rust-junosmcp-srx-core/src/xml.rs:348-375 | a value in quotes ends with the next of the same quotes, one without in front of the next ASCII whitespace or closing bracket, and with the text if there is none |
| PrefixStrip.NoValueNoEnd | rust-junosmcp-srx-core/src/xml.rs:348-360 | without an equals sign, or with none but at the end, the text is all attribute |
| PrefixStrip.SpacesAreGone | rust-junosmcp-srx-core/src/xml.rs:333-345 | all spaces in front are gone and nothing else |
| XmlRepair.EscapeRestoresDocument | rust-junosmcp-srx-core/src/xml.rs:269-308 | escaping a document whose text had its two entities decoded gives the document as written, for any markup without a closing bracket inside and any text without a bracket that opens markup |
| XmlRepair.SanitizeRestoresDocument | rust-junosmcp-srx-core/src/xml.rs:203-224 | the sanitizer gives back the document as written without the attributes of the prefix, for any blanks between attributes and around `=`; but for blanks nothing else changed |
| XmlRepair.ScanSeesWhatEscapeChanges | rust-junosmcp-srx-core/src/xml.rs:229-264 | for every input the fast-path scan is true exactly when the escape changes it or it starts with a bare bracket |
| XmlRepair.BareFrontIsLeftAlone | rust-junosmcp-srx-core/src/xml.rs:269-273 | that exception: a bare bracket at the front is reported by the scan and left alone by the escape |
| XmlRepair.EscapedTwice | rust-junosmcp-srx-core/src/xml.rs:269-308 | the escape is idempotent on every input |
| XmlRepair.RepairOfTree | rust-junosmcp-srx-core/src/xml.rs:269-308 | the same restoration in any context, by the structure of the document |
| XmlRepair.StrippedTree | rust-junosmcp-srx-core/src/xml.rs:333-345 | stripping a rendered document renders the document without its attributes of the prefix, for any blanks between attributes |
| XmlRepair.ChangedTree | rust-junosmcp-srx-core/src/xml.rs:229-264 | the repair has something to do exactly when decoding changed some text |
| XmlRepair.EscapeTextAngleBrackets | rust-junosmcp-srx-core/src/xml.rs:269-308 | the segment-wise loop computes the character-wise escape |
| XmlRepair.HasBareAngleBracketsInText | rust-junosmcp-srx-core/src/xml.rs:229-264 | the byte scan computes the specified predicate |
| XmlRepair.FindNextTagStart | rust-junosmcp-srx-core/src/xml.rs:311-330 | the first place where markup opens, or none anywhere |
| XmlRepair.TagStartIsKnown | rust-junosmcp-srx-core/src/xml.rs:311-330 | markup opens exactly at a bracket followed by a slash, question or exclamation mark, underscore, digit or ASCII letter |
| XmlRepair.SanitizeRustezXml | rust-junosmcp-srx-core/src/xml.rs:203-224 | a reply with neither problem is returned as it is, any other is stripped and then escaped |
| Fingerprint.SameFormIsSameLines | rust-junosmcp-core/src/junos_transaction.rs:918-938 | two configurations have one normal form exactly when, stripped, they have equally many lines with a character that is not whitespace and these are, one by one in order, the same but for whitespace at their ends |
| Fingerprint.SignificantAreTheTextLines | rust-junosmcp-core/src/junos_transaction.rs:932-938 | what is kept are the lines with text, all of them and no others, in order, each trimmed |
| Text.TrimIsTheInside | rust-junosmcp-core/src/junos_transaction.rs:932-938 | a trimmed text is what stands between the whitespace at both ends, and nothing exactly when there is nothing else |
| Text.WhitespaceIsTheProperty | rust-junosmcp-core/src/junos_transaction.rs:932-938 | whitespace is the Unicode property White_Space, code point by code point |
| Text.OneCarriageReturn | rust-junosmcp-core/src/junos_transaction.rs:932-938 | a line ending takes one carriage return with it and nothing else |
| Fingerprint.OnlyOpeningTagsChange | rust-junosmcp-core/src/junos_transaction.rs:951-996 | cutting the result at its tags shows all text and all other tags as they were and each opening tag stripped |
| Fingerprint.WhatIsStripped | rust-junosmcp-core/src/junos_transaction.rs:969-990 | closing tags, instructions, declarations, comments and CDATA stay as they are, every other tag is stripped |
| Fingerprint.IdentityWithoutMention | rust-junosmcp-core/src/junos_transaction.rs:951-996 | the strip changes a text exactly when some opening tag mentions the prefix |
| Fingerprint.VolatileValuesDoNotShow | rust-junosmcp-core/src/junos_transaction.rs:918-938 | documents that differ only in attributes of the prefix whose quote directly follows the `=` have one normal form, for any blanks between attributes and around the `=` of others |
| Fingerprint.ValueShowsInNormalForm | rust-junosmcp-core/src/junos_transaction.rs:918-938 | for such an attribute alone in a tag on one line, another value leaves the normal form as it was exactly when the quote directly follows the `=` |
| Fingerprint.SpacedValueShows | rust-junosmcp-core/src/junos_transaction.rs:998-1016 | the exception: a blank in front of the quote, and the values 1 and 2 have different normal forms |
| Fingerprint.StrippedIsSame | rust-junosmcp-core/src/junos_transaction.rs:998-1016 | the strip leaves a tag alone exactly when it does not contain the prefix |
| Fingerprint.StrippedIsDrawnFrom | rust-junosmcp-core/src/junos_transaction.rs:998-1016 | the strip adds no character and makes nothing longer |
| Fingerprint.CutOfWritten | rust-junosmcp-core/src/junos_transaction.rs:951-996 | cutting a written document gives its segments back |
| Fingerprint.WrittenOfCut | rust-junosmcp-core/src/junos_transaction.rs:951-996 | every text is what its cut writes |
| Fingerprint.SimpleStripJunosAttrs | rust-junosmcp-core/src/junos_transaction.rs:951-996 | the loop computes the strip of opening tags |
| OutputCaps.ByteCapHolds | rust-junosmcp-core/src/output.rs:208-243 | for a cap callers may ask for and a 64-bit length, the output with its marker is at most the cap |
| OutputCaps.CappedFits | rust-junosmcp-core/src/output.rs:208-243 | for any cap, a cut output fits exactly when the cap has room for the longest marker |
| OutputCaps.ApplyByteCap | rust-junosmcp-core/src/output.rs:208-243 | the kept part is the longest prefix, or suffix, within the budget on a character boundary, and the marker states the exact bytes omitted |
| OutputCaps.AtMostThreeBytesGivenUp | rust-junosmcp-core/src/output.rs:221-234 | cutting on a boundary gives up at most three bytes of the budget |
| OutputCaps.WidthIsTheLeast | rust-junosmcp-core/src/output.rs:208-243 | a character takes the fewest bytes that can carry it, up to four |
| OutputCaps.MarkerBytes | rust-junosmcp-core/src/output.rs:247-249 | the marker says how many bytes are omitted, in 31 bytes and the digits, on one line |
| OutputCaps.Ring | rust-junosmcp-core/src/output.rs:279-289 | the bounded ring holds exactly the last lines |
| OutputCaps.ApplyLineCap | rust-junosmcp-core/src/output.rs:261-302 | the first or the last lines with a marker line that counts against the cap |
| OutputCaps.CutLinesAre | rust-junosmcp-core/src/output.rs:261-302 | an output over the line cap becomes the first, or the last, lines of the text, as many as the cap less one, and below, or above, one line with the number left out |
| OutputCaps.LineCapHolds | rust-junosmcp-core/src/output.rs:261-302 | the line cap alone is never exceeded |
| OutputCaps.BothCapsHold | rust-junosmcp-core/src/output.rs:13-23 | with both caps the bytes keep theirs and the lines are at most one more than theirs, and one more exactly when the line cap is used up and the byte cap cuts within a line |
| OutputCaps.ByteCapAddsOneLine | rust-junosmcp-core/src/output.rs:208-243 | the byte cap adds a line exactly when what it leaves out keeps to one line |
| OutputCaps.OneMoreIsReached | rust-junosmcp-core/src/output.rs:13-23 | one more is reached: a line of a thousand bytes under caps 1 and 64 comes out as two |
| OutputPipes.JoinOfPieces | rust-junosmcp-core/src/output.rs:36-86 | the untrimmed pieces joined by the pipe are the command, each cut at the leftmost pipe outside quotes |
| OutputPipes.PiecesOfJoin | rust-junosmcp-core/src/output.rs:36-86 | and they are the only such pieces |
| OutputPipes.SplitPipes | rust-junosmcp-core/src/output.rs:36-86 | the loop with its quote flags computes those pieces trimmed, without an empty last one |
| OutputPipes.ReadOfShape | rust-junosmcp-core/src/output.rs:142-193 | every segment with a word in it, whatever whitespace is around it and whatever the case of the word: count, last with a readable number, match and except with a pattern, in quotes or not and in its own case, and nothing for any other word, a pattern or a number that is missing |
| OutputPipes.AnyShape | rust-junosmcp-core/src/output.rs:126-136 | every segment that is not blank has such a word and argument |
| OutputPipes.QuotesComeOff | rust-junosmcp-core/src/output.rs:88-100 | a pattern in single or double quotes loses them, once |
| OutputPipes.PlainPatternStays | rust-junosmcp-core/src/output.rs:88-100 | any other pattern is taken as it is |
| OutputPipes.WrittenMatch | rust-junosmcp-core/src/output.rs:160-174 | a command with a match at its only pipe shows exactly the lines that match, in order |
| OutputPipes.WrittenExcept | rust-junosmcp-core/src/output.rs:175-189 | with an except, exactly those that do not |
| OutputPipes.WrittenCount | rust-junosmcp-core/src/output.rs:148-153 | with a count, one line with their number |
| OutputPipes.WrittenLast | rust-junosmcp-core/src/output.rs:154-162 | with a last and a number, that many lines from the end, or all; a blank one alone is lost |
| OutputPipes.ModifiersOfWritten | rust-junosmcp-core/src/output.rs:138-146 | and for any number of pipes: the modifiers are the pieces behind the first, trimmed and read, in order |
| OutputPipes.ChainRefinesFold | rust-junosmcp-core/src/output.rs:142-193 | if no line ends in a carriage return and no last is left with one blank line, the text loop has the lines of the plain left-to-right fold over lines |
| OutputPipes.AgreeExactlyWhen | rust-junosmcp-core/src/output.rs:142-193 | for a text no line of which ends in a carriage return, loop and fold agree after every modifier of a chain exactly when no last in it is left with one blank line |
| OutputPipes.LastBlankLineIsLost | rust-junosmcp-core/src/output.rs:154-162 | for one last the condition is about what it leaves |
| OutputPipes.OneBlankLine | rust-junosmcp-core/src/output.rs:154-162 | that exception: one blank line |
| OutputPipes.TextStepIsLineStep | rust-junosmcp-core/src/output.rs:148-192 | what each single modifier over any text does to the lines: what it does to a list of lines, but that a last left with one blank line gives none and that rewritten lines lose one carriage return at their end |
| OutputPipes.ChainOverLines | rust-junosmcp-core/src/output.rs:142-193 | so for every text, every chain and every notion of a match: the lines after the loop are those after these steps, left to right |
| OutputPipes.CountsReadBack | rust-junosmcp-core/src/output.rs:154-162 | a written count is read as itself, with or without a plus, unless it exceeds 64 bits |
| OutputPipes.ApplyPipeModifiers | rust-junosmcp-core/src/output.rs:33-194 | the segments behind the first are read as modifiers and applied in order |
| OutputPipes.ProcessOutput | rust-junosmcp-core/src/output.rs:13-23 | pipes, then the line cap, then the byte cap |
| SessionPool.OneOwner | rust-junosmcp-core/src/device_manager.rs:122-265 | each session is in exactly one of a slot, a guard, a task's hands, a return task or a close, and no two slots and no two guards share one |
| SessionPool.Interleave | rust-junosmcp-core/src/device_manager.rs:122-265 | after any number of steps of any tasks, in any order (opening, using, dropping, closing, return tasks, evictions, sessions dying, time passing), each session has exactly one owner, what was closed is still closed, and no session has changed its router; what lies in a slot carries neither a discard nor an open database |
| SessionPool.SessionPool.TryCheckout | rust-junosmcp-core/src/device_manager.rs:185-204 | hands out a pooled session exactly when it is neither expired nor dead, and closes what it does not hand out |
| SessionPool.SessionPool.ReturnSession | rust-junosmcp-core/src/device_manager.rs:206-225 | the slot of the router holds the session and what was there is closed; a dead session is closed instead |
| SessionPool.ReturnedTakesTheSlot | rust-junosmcp-core/src/device_manager.rs:206-225 | the slot then holds this session from this time on, the one that was there and no other is closed, and nothing else moves |
| SessionPool.SessionPool.EvictExpired | rust-junosmcp-core/src/device_manager.rs:156-183 | exactly the expired slots and taints go |
| SessionPool.EvictedIsClosed | rust-junosmcp-core/src/device_manager.rs:156-183 | an evicted slot is empty, its session and no other is closed, and nothing else moves |
| SessionPool.SessionPool.Invalidate | rust-junosmcp-core/src/device_manager.rs:227-237 | exactly the named slots are emptied and closed |
| SessionPool.SessionPool.Open | rust-junosmcp-core/src/device_manager.rs:628-647 | the guard is over a live, clean session of that router: the pooled one exactly when it is neither expired nor dead, and otherwise a new one, asked for once |
| SessionPool.SessionPool.OpenFresh | rust-junosmcp-core/src/device_manager.rs:651-654 | the slot is emptied and the session is new, asked for once |
| SessionPool.SessionPool.Drop | rust-junosmcp-core/src/device_manager.rs:434-476 | the session goes to a return task exactly when it qualifies, to a close otherwise |
| AddDevice.InsertAppends | rust-junosmcp-core/src/inventory.rs:1019-1076 | an insertion appends the device in either shape and touches nothing else, exactly unless a bare map is given a device called devices, whose fields then become the devices |
| AddDevice.NothingElseIsThere | rust-junosmcp-core/src/inventory.rs:1019-1076 | and the append is the whole document: no other has those devices and that around them |
| AddDevice.DeviceCalledDevices | rust-junosmcp-core/src/inventory.rs:1019-1076 | such a device: added to an empty bare map it is not appended, and its own fields stand where the devices should |
| AddDevice.InsertRefusals | rust-junosmcp-core/src/inventory.rs:1019-1076 | it is refused exactly when the name is taken or the document has no place for a device, with that error |
| AddDevice.EntryReadsBack | rust-junosmcp-core/src/inventory.rs:1019-1032 | the stored entry reads back as the request's address, port, user and credentials |
| AddDevice.MissingAre | rust-junosmcp-core/src/tools/add_device.rs:41-66 | exactly the arguments that are not there, by the names callers know |
| AddDevice.LoadedInsertAppends | rust-junosmcp-core/src/tools/add_device.rs:160-182 | what loads again after an insertion is the append, so that exception never gets past the staged load |
| AddDevice.DeviceManager.Validate | rust-junosmcp-core/src/tools/add_device.rs:41-116 | which requests pass, and for each refusal exactly when it is the one reported |
| AddDevice.DeviceManager.AddLocked | rust-junosmcp-core/src/tools/add_device.rs:141-199 | an error changes none of file, inventory, hash and policy; success appends exactly this device to the bytes the inventory came from, and leaves inventory, hash and policy those of the new file; a drifted file is refused; each refusal is for the reason it names |
| AddDevice.Race | rust-junosmcp-core/src/tools/add_device.rs:134-200 | any number of requests checked before they take the lock, in any interleaving: at the end file and memory agree and the file is the old one with the successes appended in order |
| AddDevice.AdditionsSurvive | rust-junosmcp-core/src/tools/add_device.rs:134-200 | no name is added twice, no success is lost, every earlier device is still there |
| Batch.HandleWithRunner | rust-junosmcp-core/src/tools/batch.rs:90-250 | for every schedule, crash and timeout the answer is the table of the devices that finished; at most the configured number run at once; nothing is opened unless every pair is allowed |
| Batch.TableShape | rust-junosmcp-core/src/tools/batch.rs:90-250 | row i is for device i with one outcome a command in order, each with exactly one of a value and an error |
| Batch.ValuesAreOutputs | rust-junosmcp-core/src/tools/batch.rs:252-304 | a value is that device's own output to that command; every other outcome has the reason there was: unknown device, connection refused with its text, transport error with its text, no answer in time, or a batch timeout exactly for known devices that did not finish |
| Batch.OrderDoesNotMatter | rust-junosmcp-core/src/tools/batch.rs:187-196 | the table depends only on which devices finished, not on the order |
| Batch.CollectedAt | rust-junosmcp-core/src/tools/batch.rs:187-196 | what stands in a row after any sequence of completions |
| Batch.CheckPolicy | rust-junosmcp-core/src/tools/batch.rs:150-164 | nothing is denied exactly when every pair of a known device and a command is allowed, and a denial names such a pair |
| Batch.RunDevice | rust-junosmcp-core/src/tools/batch.rs:252-304 | one outcome a command, in order, or one connection failure a command |
| Batch.Collect | rust-junosmcp-core/src/tools/batch.rs:166-214 | permits, placement by index, and what a timeout leaves empty |
| Policy.Build | rust-junosmcp-core/src/policy.rs:179-363 | fails exactly when some scope does not compile; otherwise every router gets the defaults with its own rules behind them |
| Policy.ModeOfTheFile | rust-junosmcp-core/src/policy.rs:190-237 | the mode a file gives is the mode; a file without one is fail-open exactly if it has a rule, in the defaults or for any device |
| Policy.CompilesExactlyWhen | rust-junosmcp-core/src/policy.rs:245-363 | a scope compiles exactly if every rule, prefix and pipe written in it does |
| Policy.DefaultsComeFirst | rust-junosmcp-core/src/policy.rs:179-363 | in each domain a router's rules and prefixes are the defaults with its own behind them |
| Policy.OthersDoNotMatter | rust-junosmcp-core/src/policy.rs:179-363 | with an explicit mode a verdict depends on the defaults and the router's own entry only |
| Policy.OthersMatterExactlyWhen | rust-junosmcp-core/src/policy.rs:202-243 | no entries of other routers change a verdict exactly when the mode is explicit, or the defaults or the router itself have rules, or both modes say the same of the command |
| Policy.AnotherRouterCanSwitchTheMode | rust-junosmcp-core/src/policy.rs:202-243 | a file where they do: without defaults, another router's first rule allows what was refused |
| Policy.AllowlistVerdict | rust-junosmcp-core/src/policy.rs:383-457 | for every file in allowlist mode: a command with a character that is not printable ASCII or a space is refused for that, one that is not listed for that, and a plain listed one exactly when, and with that rule, the most specific rule that matches is a deny rule |
| Policy.BlocklistVerdict | rust-junosmcp-core/src/policy.rs:383-411 | for every file in blocklist mode: a command is refused exactly when, and with that rule, the most specific rule that matches, among the defaults with the router's own behind them, is a deny rule, and is allowed otherwise |
| Policy.DenyOnlyRefuses | rust-junosmcp-core/src/policy.rs:202-243 | for a file and every file made from it by adding deny rules to the defaults and to any devices: nothing new is allowed, exactly when the mode is explicit, or the file had a rule already, or the command was allowed anyway |
| Policy.InsertedIsAmong | rust-junosmcp-core/src/policy.rs:436-457 | a deny rule put in at any place counts as such an addition |
| Policy.PrefixOnlyAllows | rust-junosmcp-core/src/policy.rs:383-395 | in allowlist mode more prefixes and pipes refuse nothing that was allowed |
| Policy.OneMoreRule | rust-junosmcp-core/src/policy.rs:436-457 | a rule added anywhere either decides or changes nothing |
| Policy.WinnerAmong | rust-junosmcp-core/src/policy.rs:436-457 | with deny rules added anywhere the deciding rule stays, or a deny rule at least as specific takes its place |
| Policy.WinnerIsMostSpecific | rust-junosmcp-core/src/policy.rs:436-457 | a rule decides exactly when some rule matches: the most specific match, and of equally specific ones the last |
| Policy.OwnRuleBeatsDefaults | rust-junosmcp-core/src/policy.rs:117-145 | a device's rule at least as specific as every matching default keeps the defaults from deciding |

## Left out

- NETCONF and SSH transport, TLS, HTTP serving, command lines, tokens, tracing, audit sinks and evidence shipping: input and output around the logic.
- `confirm_commit` and rollback to a candidate revert: they act without a lock, so the no-foreign-discard theorem is not about them.
- The single-call transaction in the no-foreign-discard theorem: after its revert the session is touched and it unlocks before the close, so its discard is not bounded by the lock; `UnlockAfterRevertLosesAnEdit` shows what follows.
- A rollback in the single-call transaction without a lock: a lock step cut off by a cancellation or the deadline is followed by a revert, and the theorems about `CandidateTransaction.Run` say so rather than exclude it.
- JunosTransaction.JunosTransaction.RollbackToArchive: a commit whose reply was lost is reported as not succeeded, as the code does; the outcome guarantee is for `Commit` and `ConfirmedCommitOnSession`.
- DeviceSession.PooledDevice.Load: a payload and an archive are both texts put behind what the candidate holds; that an archive replaces the candidate's statements is left to the device.
- CandidateTransaction.Backend.SendCommit: a commit answered with an error may have taken effect, so a failed commit in this transaction says nothing about the device.
- JunosTransaction.JunosTransaction.Commit: a further commit on a handle whose session an earlier commit has closed or unlocked; the source would then use a session that is gone, or commit without the lock.
- Cancellation of the change-set transaction's own futures: the session automaton allows a close at any point, the methods of `JunosTransaction` run to their end.
- SessionPool.SessionPool.Open: retries of a failed connect and what a connect needs of the inventory are one nondeterministic step; a guard dropped outside the runtime, which leaks its session, does not occur.
- CrashRecovery.SweepCrashedCommits: which candidates are probed first (rotation and the four permits) is left to the nondeterministic order of answers, and a timeout of the lock probe leaves what it had sent unmodelled.
- Fingerprint.VolatileValuesDoNotShow: presence against absence of an attribute is not claimed, because removal leaves a space; attributes without quotes, which XML does not have, are outside its documents.
- XmlRepair.SanitizeRestoresDocument: attributes of the prefix have their quote directly behind the `=` (otherwise `PrefixStrip.StrippedAttrs` says what is left of them), element names start with an ASCII character that opens markup, and the prefix occurs only as the prefix of attribute names.
- Policy.Build: which error is reported when several scopes do not compile; the configuration domain is compiled but its verdicts are not modelled.
- Batch.HandleWithRunner: what a device answers is a function of its place in the list, and the processing of one output is a parameter; elapsed time is not modelled.
- The lexical checks of names, hosts and paths, JSON text, the inventory loader, globs and SHA-256: parameters.
- Error texts, tool registries, protocol negotiation, the environment, and the escaping of commit comments: settled by reading one branch.
