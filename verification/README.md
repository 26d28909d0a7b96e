# Relay server: a verified model

The relay server hands work to nodes. A client submits a *task* made of *stages*; nodes claim
stages, report on them with notes, and complete them, while background sweeps release expired
claims, enforce long-run leases and give up on nodes that went silent. Stages may be addressed
through *forward slots*, which an administrator maps to real capabilities, and payloads are
rewritten by *bindings* on the way. Results travel as chunked uploads. This project models these
parts and proves what their code promises, for every input and every run.

`dafny verify dfyconfig.toml` checks the whole project.

## What is modelled

**The scheduler as a state machine.** `Tables` holds the rows of `tasks`, `task_stages` and
`nodes` that the scheduler's guards read, with the log of `task_completed` and `task_failed`
events. `Transactions` says what each committed transaction does to the tables, guard by guard.
`Machine` makes every transaction one step; the claim-TTL sweep may commit rows it selected at
any earlier moment, and the status-guarded sweeps may name any rows at all, so every interleaving
of overlapping sweeps with everything else is a run. On top of it stand the invariants
(`Invariants`, `Moves`), dependencies (`Dependencies`), the retry and status-change budget
(`Budget`, `Recoveries`), the default chain (`Chain`), the long-run lease (`Lease`), the task failure policies
(`Policies`), tasks that are left running with nothing left to do (`Stranded`) and the claim order
(`ClaimOrder`). `Service.Relay` is the same scheduler as imperative code over tables it updates in
place; each method is proved equal to the step the machine takes.

**Runs the code can take.** The machine allows more than the code does, which does not matter for
what holds in every run. Where a run has to show that something happens, `FaithfulRuns` narrows the
machine to the code: sweeps name only the rows their SELECTs return, a lease sweep is its three
loops, a claim is the one the claim loop makes, and all times are those of legal settings. `Tight`,
`StrandedRun` and `OfflineRun` (with `TwoStages`) give such runs for all settings at once.

**Calls by their columns.** `Effects` tells every call of the scheduler by the columns of the rows
before and after it: who may take, complete or note a stage, whose claim or lease runs out, which
tasks fail with it. It names none of the guards and selections the transactions are built from, and
the methods of `Service.Relay` promise these effects. `Declarations` does the same for what a node
declares, and `ForwardRouting`, `ForwardMappings`, `Rewrite`, `Upload` and `Capabilities` state what
a stage, a mapping, a binding, a chunk and a report amount to in the same way.

**Forward routing.** `Slots` parses what a node declares and replaces its rows, `Binding`
normalises bindings, `Rewrite` runs them, `ForwardRouting` redirects stages, `ForwardMappings`
checks what an administrator maps, and `ForwardService.ForwardStore` is the service that updates
the tables. `JsonValues` holds JSON values and Python's text rules, `ForwardErrors` one refusal
per error code.

**Uploads, capabilities, time.** `Upload.ChunkedUploadManager` keeps sessions and chunk files; a
restart is a new manager over the old directories. `Capabilities` and
`CapabilityService.CapabilityStore` keep the JSON column of a node's capabilities and the index
beside it. `Timestamps` shows that comparing stored instants as text compares them as instants,
which is why the rest of the model uses integers for them.

## What the proofs found

- A task can be left running for ever with all of its stages closed, in two ways: a task created
  without stages is so at once, and a lease sweep makes one so when it fails the last open stages
  while others are completed, because its task policy only fails tasks whose every stage failed.
  `Stranded.OnlyTheseStrand` says that nothing else does, `Stranded.EnforceStrands` when a call of
  the sweep does, `Stranded.StrandedForever` that nothing mends it;
  `StrandedRun.EmptyTaskIsStranded` and `StrandedRun.StrandedIsReachable` give the runs.
- A stage that lists a dependency twice is never claimed, because the claim loop compares a count
  of rows with the length of the list (`Dependencies.CountTestMeans`,
  `Dependencies.ListedTwiceNeverStarts`).
- Two defensive branches never do anything, because a deletion clears every pin and owner first:
  the claim loop's branch for a deleted addressee (`Invariants.AddressedBranchIsDead`) and the
  dead-pin sweep (`Policies.NoDeadPins`).
- The offline watchdog's update of a stage looks at the status alone, not at the claim it listed,
  unlike the claim-TTL sweep. `Policies.OfflineSparesInnocent` says when it takes no claim of a
  live node; `OfflineRun.OfflineTakesFreshClaim` gives a run in which it does. Such a run needs a
  database that lets other transactions commit between its SELECT and its UPDATE.
- `resolve_forward_stages` says the `forward_slot` key is removed from the payload. Two things put it
  back: a value slot of that very name, and a binding rule with that target.
  `ForwardRouting.SlotKeyIsGone` has the exact condition for payloads without and with a binding;
  `ForwardRouting.SlotKeyComesBack` and `ForwardMappings.BoundKeyComesBack` are the inputs, the
  second with a mapping that may be stored.
- `check_binding_schema` says a target must be one of the names `schema_field_names` supplies. It looks
  targets up among dictionary keys instead, so a listed field is refused and the key `fields` admitted
  (`ForwardMappings.ListedFieldIsRefused`), a renamed field is known by its key only
  (`ForwardMappings.RenamedFieldIsRefused`), and `{"fields": {}}` admits `fields` and nothing else
  (`ForwardMappings.EmptyFieldsReadFlat`). `ForwardMappings.TargetsCheckedByName` says for every
  schema when the admitted targets are the declared names, and `ForwardMappings.CommentIsKept` when
  the whole rule of the comment is kept, its exemption of schemas without fields included.
- `replace_forward_slots` says it returns the number of stored rows; it returns the number of
  declared entries, which is the same exactly when no slot is declared twice (`Slots.CountIsStored`,
  `Slots.CountedTwice`).
- A ref with an empty field name is accepted when the schema has such a field, but its default
  then fills a field named like the value slot (`ForwardRouting.DefaultIsDeclared`,
  `ForwardRouting.EmptyRefFieldFallsBack`).
- A sync of the capability index fails as a whole when a name is repeated, or when a type, version or
  description is a value the driver cannot bind, such as a list; the report stays in the JSON column
  and the index stays behind (`Capabilities.SyncAgrees`, `Capabilities.RepeatedNameLeavesIndexBehind`,
  `Capabilities.UnbindableTypeLeavesIndexBehind`). A merge heals the first, and the second only when
  it reports the name with values that can be bound (`Capabilities.MergeHeals`). The startup backfill is one transaction over
  all nodes, so one such value anywhere in the column fails it for every node
  (`CapabilityService.CapabilityStore.MigrateNodeCapabilities`).

Where code and comments disagree, the model follows the code. Besides the points above:
`release_or_fail_claims` says a task fails when all of its stages failed, the code fails it with
one failed stage (`Policies.CriticalSubsumesAllFailed`); `check_binding_schema` says a null constant
always fits, the code refuses it for a field with a declared type
(`ForwardMappings.NullFitsOnlyUntyped`); an empty capability schema is said to refuse every target,
the code checks nothing against it (`ForwardMappings.EmptySchemaAdmitsAll`); `pending` to `failed` and `orphaned` to `completed` happen
although the transition table of `core/status.py` does not list them
(`Service.Relay.FailOrphanedStages`, `Tight.CompleteEnds`).

## Reading the model

Node, task and stage ids are opaque numbers in the scheduler and strings elsewhere; fresh random
ids are parameters assumed not to be in use. One clock reading serves one transaction and the
clock never goes back; it counts microseconds. A transaction is one step, and the row count of a
guarded UPDATE is whether its guard held. Settings (`max_retries`, the TTLs, the upload limits) are
parameters. `json.dumps`, the digest and the lower-casing of hex digests are parameters; base64
decoding has happened before `Send`. Task statuses `pending`, `running`, `completed` and `failed`
are called `Waiting`, `Running`, `Done` and `Lost`, so that they are not taken for stage statuses.

## Model

| member | source | states |
|---|---|---|
| `Moves.AlwaysConsistent` | core/scheduler.py:340-563 | in every reachable state of every interleaving, each stage's task, pin and claimant exist, its claim and lease columns fit its status, each task's status fits its stages and its events, and every row a stale sweep still holds can only match the claim it saw |
| `Invariants.StepKeepsTables` | core/scheduler.py:777-886 | every single transaction (claim, note, complete, sweep, offline, delete, create) keeps the consistency of both tables and the event log |
| `Moves.StageMoves` | core/scheduler.py:804-812 | a step moves a stage only along the status graph; only an eligible claim takes it, only a release gives it back, only the end of a claim whose claim_expires_at lies before now counts a retry, only its own claimant completes it, only the sweep over overdue leases orphans it, only a note moves its lease, and its task, sequence, capability and dependencies never change |
| `Moves.TaskMoves` | core/scheduler.py:839-847 | a terminal task keeps its status, a running one never waits again, and only the completion of its last open stage makes a task completed |
| `Moves.TerminalIsForever` | core/scheduler.py:929-951 | a completed or failed stage never changes status again, whatever stale sweeps commit later |
| `Moves.TerminalTaskIsForever` | core/scheduler.py:1350-1355 | a completed or failed task never changes status again in any run |
| `Moves.OneTerminalEvent` | core/scheduler.py:854-868 | over a whole run the log holds exactly one of task_completed and task_failed for a terminal task, the one its status names, and neither for any other |
| `Moves.ClaimantSeesTask` | core/scheduler.py:239-247 | in every reachable state, node deletions included, a claimant exists, is admitted by pin and owner and sees the task in both scoped views; pending stages have no claimant, claimed ones have one |
| `Moves.StatusesAgree` | core/scheduler.py:818-847 | in every reachable state a failed task has a failed stage, a completed one has closed stages only and a completed one among them, and the stages of a pending task were never claimed |
| `Invariants.DeleteKeeps` | api/v2/admin.py:147-204 | the ordered updates of a node deletion keep the tables consistent: no pin, owner or claim of the node is left behind |
| `Dependencies.DependenciesHold` | core/scheduler.py:439-450 | in every reachable state a stage in hand or completed has every stage it depends on completed, for whatever depends_on was submitted |
| `Dependencies.CountTestMeans` | core/scheduler.py:440-450 | the claim loop's comparison of a row count with the list's length holds exactly when every dependency is completed and none is listed twice |
| `Dependencies.ListedTwiceNeverStarts` | core/scheduler.py:440-450 | a stage created with a dependency listed twice is never started in any run, even with all of them completed |
| `Budget.ReleaseIsExact` | core/scheduler.py:929-951 | a claim-TTL sweep with any stale rows leaves a stage alone or ends exactly the claim those rows saw, whose claim_expires_at lies before now, counts it once and clears it; a fresh claim is never stripped |
| `Budget.ReclaimIsLater` | core/scheduler.py:477-483 | with a clock that only never goes back, a re-claim carries a strictly later claimed_at than any claim before it |
| `Budget.RetriesCountLostClaims` | core/scheduler.py:918-951 | in every run retry_count is exactly the number of claims that claim-TTL sweeps ended, however they overlap, and each claim is ended at most once |
| `Budget.LifeIsBounded` | config.py:150-157 | with at most M retries allowed, even if the setting varies, a stage is claimed at most M+1 times and changes status at most 2M+4+2R times, R being its recoveries by notes |
| `Tight.BoundIsAttained` | core/scheduler.py:606-629 | for all legal settings a run the code can take attains both bounds at once with R recoveries exactly when R is 0 or the lease is shorter than the time an orphaned stage is kept |
| `Recoveries.NeverRecovered` | core/scheduler.py:1190-1239 | with a lease at least that long no run the code can take recovers a stage: the sweep that orphans it fails it |
| `Chain.DefaultChainRuns` | core/scheduler.py:163-166 | for a task created without depends_on, along every run: completed stages form a prefix, at most one stage is claimed, accepted or orphaned, and a completed task has every stage completed |
| `Chain.CreatedIsChained` | core/scheduler.py:143-191 | the stages a creation inserts without depends_on form a chain in submission order, all pending |
| `Chain.FailureBlocksTheRest` | core/scheduler.py:439-450 | once a stage of a chain has failed, no later stage of it is ever taken up |
| `Stranded.OnlyTheseStrand` | core/scheduler.py:1284-1289 | a step leaves a task open with closed stages only exactly when it creates a task without stages, or is a lease sweep that fails all the stages still open while another is completed |
| `Stranded.EnforceStrands` | core/scheduler.py:1168-1301 | one call of the lease sweep strands a task exactly when the task is open, has a completed stage, and each of its open stages is failed by its own note, lease and claimant |
| `Stranded.StrandedForever` | core/scheduler.py:1302-1357 | such a task stays open for ever, whatever happens afterwards |
| `StrandedRun.StrandedIsReachable` | core/scheduler.py:1190-1289 | for all settings, a run the code can take to a task that the lease sweep strands |
| `Lease.SilenceEnds` | core/scheduler.py:1190-1239 | accepted and orphaned stages always carry note and lease times, and one lease sweep later than last note + max(longrun ttl, orphaned ttl) ends the stage |
| `Lease.WorkerIsSafe` | core/scheduler.py:1190-1282 | an accepted stage with a running lease and a live, recently seen claimant is left exactly as it is by a lease sweep |
| `Lease.EnforceRow` | core/scheduler.py:1199-1276 | the three loops of the lease sweep together act on each row by its own note, lease and claimant only, in the order overdue, silent, absent |
| `Lease.EnforceIsRun` | core/scheduler.py:1168-1301 | the uninterrupted lease sweep is three steps of the machine from any state, so everything proved of runs holds across it |
| `Policies.CriticalSubsumesAllFailed` | core/scheduler.py:953-962 | failing the tasks whose every stage failed and then those with a failed stage fails each task once, the same tasks the second policy fails alone |
| `Policies.PolicyOnce` | core/scheduler.py:1284-1289 | one task policy after the three lease loops loses the same tasks and logs the same events as one after each loop |
| `Policies.OfflineSparesInnocent` | core/discovery.py:749-777 | with rows listed in an earlier state, no claim of a node that is not gone is lost exactly when every listed stage that is claimed now is claimed by a node that is gone |
| `OfflineRun.OfflineTakesFreshClaim` | core/discovery.py:749-777 | for all settings that retry at all, a run the code can take in which the watchdog's update fails a claim that a live node made after the watchdog listed the stage |
| `Effects.ReleaseHasEffect` | core/scheduler.py:907-963 | on consistent tables the sweep changes exactly the claimed rows with claim_expires_at before now, in these columns, and fails exactly the open tasks with a stage it failed |
| `Effects.ClaimHasEffect` | core/scheduler.py:351-563 | the best claim in columns: who may take what (status, capability, pin, owner, dependencies), in which order, and which owner, status and claim columns are written |
| `Effects.UsableNamesOffer` | core/scheduler.py:368-411 | the names a node may serve, by its index rows or its JSON column, for a requested capability or type, types compared up to ASCII case |
| `Effects.CompleteHasEffect` | core/scheduler.py:786-868 | completion in columns: exactly the claimant, that row, and the task when every other stage is closed |
| `Effects.LeaseHasEffect` | core/scheduler.py:1168-1299 | the lease sweep in columns, for every database: who fails, who is orphaned, who stays, and which tasks fail |
| `Effects.OrphansHaveEffect` | core/scheduler.py:1037-1124 | the uncovered-capability sweep in columns |
| `Effects.OfflineHasEffect` | core/discovery.py:708-793 | the offline watchdog in columns |
| `Effects.DeleteHasEffect` | api/v2/admin.py:147-204 | the node deletion in columns |
| `ClaimOrder.ScanFindsBest` | core/scheduler.py:416-488 | scanning the ordered candidates claims an eligible stage that no eligible stage precedes in (priority descending, created_at, sequence), and nothing exactly when none is eligible |
| `Service.Relay.ClaimStage` | core/scheduler.py:351-563 | the call has the claim effect on the rows: a node not approved, online or idle changes nothing; any other takes a stage it may take that none it may take is ahead of, with the claim columns for the TTL, a waiting task set running, and itself as owner of an ownerless task without other stages; None only when there is nothing it may take |
| `Service.Relay.CompleteStage` | core/scheduler.py:786-868 | true exactly for the claimant of a claimed, accepted or orphaned stage; that row is completed, its task and one event follow exactly when the task is open and every other stage of it is closed, and nothing else changes |
| `Service.Relay.AddNote` | core/scheduler.py:583-631 | exactly the author's stages of that task get the note and lease times, claimed ones are accepted by a long-run note and orphaned ones by any; nothing else changes |
| `Service.Relay.CreateTask` | core/scheduler.py:107-216 | a known idempotency key returns its task and changes nothing; otherwise the task and its stages go in together with the capability, pin and dependencies given or the stage before as dependency, or not at all when a constraint fails |
| `Service.Relay.ReleaseOrFailClaims` | core/scheduler.py:907-963 | on consistent tables exactly the claimed stages with claim_expires_at before now end their claim: pending while retries are left, else failed with their open task; the lists returned are the rows that moved so |
| `Service.Relay.FailOrphanedStages` | core/scheduler.py:1037-1124 | exactly the pending stages whose capability no live node has in its index, or whose pin is gone, fail with their open tasks; the lists returned are the rows that moved so, and none is for a pin on consistent tables |
| `Service.Relay.EnforceLongrunLeases` | core/scheduler.py:1168-1299 | an accepted or orphaned stage fails when its claimant is missing, not live or not seen within the grace time, or when it is orphaned or past its lease and was last noted too long ago; only past its lease it is orphaned; a task fails when a stage of it did and all have; the lists returned are told by the same columns |
| `Service.Relay.MarkOfflineNodes` | core/discovery.py:708-793 | exactly the live non-admin nodes last seen before the threshold go offline, exactly the stages they have claimed fail, and exactly the open tasks this closes |
| `Service.Relay.DeleteNode` | api/v2/admin.py:147-204 | the node's row goes, its pins, ownerships and claims are cleared, the stages it had claimed fail with their open tasks, and nothing else changes |
| `Service.Relay.FailTasksIfAllStagesDone` | core/scheduler.py:1332-1356 | fails exactly the affected open tasks whose every stage is in the given statuses, one event each |
| `Service.Relay.FailTasksWithFailedStages` | core/scheduler.py:1375-1413 | fails exactly the affected open tasks with a failed stage, one event each |
| `Timestamps.TextOrderIsTimeOrder` | core/scheduler.py:61-66 | for all UTC instants with four-digit years, the order and equality of their isoformat texts, with and without fraction, is the order and equality of the instants |
| `Binding.ValidateBindingForm` | core/forward.py:224-368 | null passes; otherwise the result is the only well-formed rule list the binding reads as, and the check fails only when there is none |
| `Binding.AcceptsOnce` | core/forward.py:295-368 | a binding reads as one form only |
| `Binding.WrittenFormReadsBack` | core/forward.py:368-368 | checking the normalised form again returns it unchanged: normalisation is idempotent and stable across storage |
| `Binding.RevalidateStored` | core/forward.py:740-752 | re-validating a stored binding yields the stored form, never a refusal |
| `Binding.ReadSources` | core/forward.py:347-354 | a source list is accepted exactly when it spells distinct well-formed names |
| `Rewrite.ApplyBinding` | core/forward.py:445-489 | the loop computes the result the lemmas below describe, and with distinct targets the field of each fired rule holds what the rule writes of the fields it found: its constant, the value of the only source there, or the text that lays out those of several in list order with the separator between them |
| `Rewrite.JoinedNext` | core/forward.py:468-475 | one more present source adds the separator and its text, a string as it is and anything else as json.dumps renders it |
| `Rewrite.ValueIsWritten` | core/forward.py:451-475 | what a fired rule writes: its constant, the value of the only present source, or the text that lays out those of several in list order |
| `Rewrite.WrittenOfPayload` | core/forward.py:447-489 | of rules that do not interact each fired one writes so of the submitted payload |
| `Rewrite.WorkingCopyIsHistory` | core/forward.py:447-482 | before each rule a field is in the working copy exactly when an earlier fired rule wrote it, or the payload had it, and no rule fired since consumed it |
| `Rewrite.AppliedIsHistory` | core/forward.py:483-489 | with distinct targets, a field is in the result iff a fired rule writes it and no later fired rule consumes it, or it is an unwritten, unconsumed reserved payload field; its value is what the writing rule wrote, or the payload's |
| `Rewrite.NonInteractingIsDirect` | core/forward.py:447-489 | rules that do not interact can each be judged on the payload itself |
| `Rewrite.OrderIsIrrelevant` | core/forward.py:447-489 | every permutation of rules that do not interact gives the same result on every payload |
| `Slots.NormalizeSlotIsStable` | core/forward.py:74-104 | a normalised slot name is its own normal form, and an integer is refused only for its length |
| `Slots.ParseIsStable` | core/forward.py:892-936 | a parsed declaration entry, written out and declared again, parses to the same row |
| `Declarations.NormalizeSlotNames` | core/forward.py:76-104 | a value names a slot exactly when it is an integer or, up to surrounding whitespace, a string of 1 to 64 letters, digits, underscores and dashes |
| `Declarations.DecimalSpells` | core/forward.py:90-98 | the text of an integer slot spells it in decimal without leading zeros |
| `Declarations.ParseMeans` | core/forward.py:892-936 | an entry parses to exactly the row its keys declare: name, type, value, ref, schema, label and description |
| `Declarations.ReplacedMeans` | core/forward.py:857-1023 | a declaration is accepted exactly when every item declares a slot and every ref leads to a routing slot of the same declaration that declares the field; the rows are those the last items declare, a refused one changes nothing |
| `Slots.LastWinsIsLast` | core/forward.py:939-940 | of several entries for a slot the last is the stored one |
| `Slots.CountIsStored` | core/forward.py:988-1021 | the count an accepted declaration returns is the number of rows it leaves exactly when it names no slot twice, else it is more |
| `Slots.CountedTwice` | core/forward.py:988-1021 | a declaration that returns two and stores one row |
| `Slots.ReplacedKeepsSound` | core/forward.py:892-1023 | every declaration, accepted or refused, leaves each stored ref naming a forward slot of the same node whose schema declares the field; a refused one leaves the rows as they were, and other nodes' rows are never touched |
| `Slots.RefsNeverChain` | core/forward.py:941-950 | what a ref names is another slot and carries no ref itself |
| `ForwardRouting.DefaultIsLast` | core/forward.py:659-683 | a field has a default exactly when a value slot supplies one, and of several the last row wins |
| `ForwardRouting.EmptyRefFieldFallsBack` | core/forward.py:678-680 | a sound table whose default fills an undeclared field |
| `ForwardRouting.ResolvedShape` | core/forward.py:765-799 | on success no stage is a forward stage, other stages are unchanged, and each redirected stage is what its slot name, mapping and stored binding make of it, with slot, target and pin |
| `ForwardRouting.PlanMeans` | core/forward.py:685-760 | a forward stage goes exactly where its named slot, no value slot, is mapped, with that pin and the form the stored binding reads as |
| `ForwardRouting.RefusedFor` | core/forward.py:685-752 | which refusal a stage gets: no slot name, a value slot, a missing mapping, a mapping to the pseudo-capability or a binding without a form |
| `ForwardRouting.RequestRefused` | core/forward.py:636-760 | a request without forward stages passes as it is; with some an unknown node refuses it, else its first stage without a plan |
| `ForwardRouting.ResolveTwice` | core/forward.py:636-637 | a second resolution changes nothing, for any submitter and tables |
| `ForwardRouting.SlotKeyIsGone` | core/forward.py:776-799 | the forward_slot key is in a redirected payload exactly when, without a binding, a value slot supplies a default of that name, or, with one, a fired rule writes it and no later fired rule consumes it |
| `ForwardMappings.BoundKeyComesBack` | core/forward.py:776-799 | a mapping that may be stored, with a slot and no value slots, for which the key comes back |
| `ForwardRouting.NoRefusalPlansAll` | core/forward.py:685-760 | nothing is refused exactly when every forward stage can be planned |
| `ForwardMappings.UpsertedIsAdmissible` | core/forward.py:1131-1344 | a mapping is stored exactly when its inputs have normal forms and these are admissible |
| `ForwardMappings.UpsertMeans` | core/forward.py:1131-1344 | a write stores a mapping under a name exactly when slot, target, pin and binding stand for them and sources, targets and constants fit the schemas they answer to |
| `ForwardMappings.InputRefusals` | core/forward.py:1131-1190 | the first input that stands for nothing decides the refusal: slot, target, node, pin |
| `ForwardMappings.ProviderRefusals` | core/forward.py:1190-1252 | then a provider: an unknown pin, one without the capability, or no node with it; then a binding without a form |
| `ForwardMappings.FieldRefusals` | core/forward.py:1252-1344 | then the fields: a slot schema that cannot be read, an undeclared source, no schema for the targets, the targets |
| `ForwardMappings.FirstUnfit` | core/forward.py:530-570 | the first rule that does not fit decides between an unknown target and a constant of another type |
| `ForwardMappings.ConstFitsMeans` | core/forward.py:544-570 | a constant fits exactly when it has the JSON type its spec declares, any but null for another type, and anything without one |
| `ForwardMappings.TargetsCheckOut` | core/forward.py:523-570 | the first-refusal loop passes exactly when every rule's target has a spec and every constant fits its declared type |
| `ForwardMappings.SchemaCheckMeans` | core/forward.py:519-570 | the schema check passes exactly when it admits every target and every constant fits the spec its target finds |
| `ForwardMappings.TargetsCheckedByName` | core/forward.py:503-542 | for every schema, the targets the check admits are the fields the schema declares exactly when its shape says so: nested or flat specs named by their keys, or a list that names the non-null keys beside it |
| `ForwardMappings.CommentIsKept` | core/forward.py:500-529 | the rule the comment gives, no check without fields and declared names only otherwise, is kept exactly for no schema, the empty one and those checked by name |
| `ForwardMappings.ListedFieldIsRefused` | core/forward.py:522-542 | a list of fields whose one field is refused as a target while the key `fields` is admitted |
| `ForwardMappings.RenamedFieldIsRefused` | core/forward.py:530-542 | a renamed field that is refused by its name and admitted by its key |
| `ForwardMappings.EmptyFieldsReadFlat` | core/forward.py:522-529 | an empty object of nested fields admits the target `fields` and no other |
| `ForwardMappings.AlwaysSound` | core/forward.py:857-1023 | through any run of declarations, mappings, deletions and registrations the stored refs and mappings stay sound |
| `ForwardMappings.StoredBindingsNeverRefuse` | core/forward.py:736-752 | after any such run no stage is refused for its mapping's stored binding, and every pin handed out names a registered node |
| `ForwardMappings.RefusalsAreTheSubmitters` | core/forward.py:685-733 | with sound mappings a stage is refused exactly for a malformed payload or slot, a value slot, or a missing mapping |
| `ForwardMappings.UpsertRoutes` | core/forward.py:1354-1418 | stages submitted to a slot go where its last write sent it, with the binding read back identical |
| `ForwardService.ForwardStore.ReplaceForwardSlots` | core/forward.py:857-1023 | two-phase replacement: the whole declaration is checked before anything is deleted, and the rows are the specified ones |
| `ForwardService.ForwardStore.ResolveForwardStages` | core/forward.py:603-799 | all or nothing on the stages in place: the specified rewriting, or the first refusal with every stage unchanged |
| `ForwardService.ForwardStore.UpsertForwardMapping` | core/forward.py:1098-1418 | the write ladder stores the specified row or refuses with the specified code and changes nothing |
| `ForwardService.ForwardStore.DeleteForwardMapping` | core/forward.py:1424-1443 | removes the mapping of a well-formed slot that has one, else refuses and changes nothing |
| `ForwardService.ForwardStore.SetDefaults` | core/forward.py:783-788 | defaults fill only the fields that are not there |
| `Upload.RoundTrip` | core/chunked_upload.py:72-200 | an upload that is opened, sent in any order with any re-sends and completed yields the in-order join of the last accepted payloads, total_bytes long and within the limit, exactly when its name and count are valid and every index had a send accepted |
| `Upload.PiecesInOrder` | core/chunked_upload.py:186-193 | in that file the last accepted payload of every index stands right after those of the indices before it |
| `Upload.LastAcceptedWins` | core/chunked_upload.py:105-159 | after any sends in any order with any re-sends, a slot is filled exactly when a send for it was accepted and holds the last accepted payload; indices and total stay within the limits |
| `Upload.CountIsCompleteness` | core/chunked_upload.py:177-184 | the count of received indices equals n exactly when every index below n was received |
| `Upload.SizeAfterStore` | core/chunked_upload.py:139-147 | replacing a slot moves the sum of slot sizes by the difference of the payloads |
| `Upload.ChunkedUploadManager.InitUpload` | core/chunked_upload.py:72-103 | refuses a missing name and a chunk count outside 1..10000, else opens an empty session |
| `Upload.ChunkedUploadManager.StoreChunk` | core/chunked_upload.py:119-159 | a chunk is answered by its session, index, encoding, size and size on top of what the other slots hold; an accepted one replaces its slot and nothing else, metadata and files stay in agreement, and a refused one changes nothing |
| `Upload.ChunkedUploadManager.CompleteUpload` | core/chunked_upload.py:173-200 | with every index filled the file is the in-order join of the slots, total_bytes long; otherwise exactly the missing indices are reported |
| `Upload.ChunkedUploadManager.PruneStale` | core/chunked_upload.py:226-248 | exactly the sessions not started before the cutoff stay, with their directories and the unknown ones changed since; the directories that went are counted |
| `Capabilities.MergedIsUnion` | core/discovery.py:209-215 | a merge is the right-biased union by name: a real name is what the report says of it last, everything else is what the column had |
| `Capabilities.ColumnIsUnion` | core/discovery.py:202-217 | after any heartbeats a real name is in the column as it was last told since the last replace |
| `Capabilities.SyncAgrees` | core/db.py:1463-1507 | after a sync the index agrees exactly when the entries have distinct names and values the driver can bind, or it agreed already |
| `Capabilities.SyncMeans` | core/db.py:1463-1507 | a sync can be done exactly when no two entries go to one row and none gives a type, version or description that cannot be bound |
| `Capabilities.SyncHasEffect` | core/db.py:1463-1507 | the rows a sync leaves in columns: exactly the names the entries go to, each showing its entry, stamped now |
| `Capabilities.BackfillHasEffect` | core/db.py:1258-1311 | the rows a backfill leaves in columns |
| `Capabilities.MergeIsStorable` | core/discovery.py:209-215 | the merged column can be synced exactly when what column and report tell last of every real name can be bound; it never repeats a name |
| `Capabilities.MergeHeals` | core/discovery.py:330-332 | a merge brings any index back into agreement exactly under that condition, or it agreed already |
| `Capabilities.RepeatedNameLeavesIndexBehind` | core/db.py:1463-1507 | a replace that repeats a name leaves the index behind, and the next merge heals it |
| `Capabilities.UnbindableTypeLeavesIndexBehind` | core/db.py:1463-1507 | a replace with a type that is a list leaves the index behind, and so does every merge that does not report the name again |
| `Capabilities.AlwaysAgrees` | core/discovery.py:202-217 | when every report can be bound and replaces report distinct names, column and index agree through every run of heartbeats and restarts |
| `Capabilities.IndexIsWhatWasTold` | core/discovery.py:330-332 | after any run that ends in a merge, if what was told last of every real name since the last replace can be bound, the index offers exactly those names with what was told last, else it is left as it was |
| `CapabilityService.CapabilityStore.SyncNodeCapabilities` | core/db.py:1462-1507 | when no two entries share a row and all can be bound, there is a row for exactly the names the entries go to, each column showing the entry's field of that name; otherwise the rows found stay |
| `CapabilityService.CapabilityStore.Heartbeat` | core/discovery.py:202-217 | a replace stores the report, a merge what the merge loops compute, and the index is synced with what was stored as told of a sync; other nodes keep theirs |
| `CapabilityService.CapabilityStore.MigrateNodeCapabilities` | core/db.py:1255-1311 | every node's rows show the last entry of each of its names and keep the rest, in whatever order of nodes, or none changes when an entry of any node cannot be bound |

## Supporting facts

What the verifier reads off the definitions by itself: the inputs behind some findings, and facts the results above lean on.

- `Invariants.AddressedBranchIsDead` (core/scheduler.py, lines 460-473): with every owner registered, the claim loop's branch for a deleted owner changes nothing
- `StrandedRun.EmptyTaskIsStranded` (core/scheduler.py, lines 145-193): a task created without stages is stranded at once
- `Policies.NoDeadPins` (core/scheduler.py, lines 1036-1061): in a consistent database no pending stage is pinned to a missing node: the dead-pin sweep finds nothing
- `Policies.OfflineFailsWhatItListed` (core/discovery.py, lines 749-777): with rows listed in an earlier state, the offline update fails exactly the listed stages that are claimed now, whoever claims them
- `Policies.OfflineSparesOthers` (core/discovery.py, lines 750-777): with rows listed in the same state, no claim of a node that is not gone is touched
- `Effects.NoteHasEffect` (core/scheduler.py, lines 583-631): a note in columns: exactly the author's rows of the task
- `Effects.LeaseListsAre` (core/scheduler.py, lines 1190-1282): the three lists the lease sweep returns, in columns of the rows it found
- `Effects.CreateHasEffect` (core/scheduler.py, lines 107-216): a creation in columns, or nothing when a constraint fails
- `Effects.DoneTasksFail` (core/scheduler.py, lines 1332-1356): the all-done policy fails exactly the affected open tasks whose every stage has one of the statuses
- `Effects.BrokenTasksFail` (core/scheduler.py, lines 1375-1413): the linear policy fails exactly the affected open tasks with a failed stage
- `Declarations.SchemaMeans` (core/forward.py, lines 371-409): the names of a schema are exactly the fields its nested, flat, keyed or listed specs declare, provided all specs can be read
- `ForwardRouting.DefaultIsDeclared` (core/forward.py, lines 678-680): a routing slot's default fills a field its schema declares, unless the ref field is empty and the value slot's own name is undeclared
- `ForwardRouting.BoundPayload` (core/forward.py, lines 789-799): a bound payload is the binding, with its own rules and separator, applied to what the payload would be without it
- `ForwardRouting.PlainPayload` (core/forward.py, lines 776-788): without a binding a submitted field wins over the slot's default, that over the default of every slot, and nothing else is in the payload
- `ForwardRouting.SlotKeyComesBack` (core/forward.py, lines 779-788): a value slot for which the key comes back
- `ForwardMappings.UnrenamedAgrees` (core/forward.py, lines 503-542): specs that all can be read and go by their keys are checked by name
- `ForwardMappings.NullFitsOnlyUntyped` (core/forward.py, lines 544-560): a null constant fits exactly the fields without a declared type
- `ForwardMappings.EmptySchemaAdmitsAll` (core/forward.py, lines 522-523): an empty schema refuses no binding
- `ForwardMappings.DeleteKeepsSound` (api/v2/admin.py, lines 151-168): a node deletion removes its mappings and slots, clears pins at it, and keeps what is left sound
- `Capabilities.BackfillOnlyStamps` (core/db.py, lines 1258-1311): a startup backfill of an index that agrees changes nothing but updated_at
- `Capabilities.BackfillAgrees` (core/db.py, lines 1258-1311): a backfill that succeeds makes the index agree exactly when it holds no row the column lacks; one that fails changes nothing

## Left out

- HTTP routes, dashboards, event streaming, mDNS, sessions, users and credentials: input and output without a hard property.
- Lock retries, rollback after a failed commit and lost INSERT races on unique keys: a transaction is one step.
- Columns no guard reads (names, payloads, results, timeouts), task notes, artifacts, node routes and the audit log.
- The claim loop's SELECT, its checks and its UPDATE are one step, judged in the state of the UPDATE; a node that stops being allowed to claim between its gate and the UPDATE is not modelled.
- The statuses `cancelled` and `timed_out`: no code shown writes them.
- LOWER and `str.lower` beyond ASCII when capability types are compared.
- Two stages that share one payload object: stages are values in an array, so aliasing between them is not modelled.
- The integer-width limits of Python's integer to text conversion, and JSON's NaN.
- Capability names that are neither text nor null, and dictionary keys equal across types (1 and true).
- What a text column makes of a number or boolean stored in it: the index is told to hold the JSON value. What can be bound follows SQLite's driver.
- Overlapping heartbeats of one node, whose syncs may commit in the other order than their columns: heartbeats are taken one at a time.
- Listing of mappings and slots, and the labels of errors: they read what the modelled calls store.
- `core/metrics.py`, `core/maintenance.py`, `core/artifacts.py` and the schema migrations: easy beside the cores above.
- ForwardRouting.Resolved: the order in which the database returns a node's value slots is a parameter, because the query has no ORDER BY.
- Timestamps.TextOrderIsTimeOrder: compares texts by code points, as SQLite does; under a locale collation a Postgres column may order `.` and `+` otherwise.
- JSON texts with an unpaired surrogate: a report of one is stored in the column and its sync fails, because the driver cannot encode it; Dafny's characters exclude such strings.
- Upload.ChunkedUploadManager.CompleteUpload: files cannot vanish or fail to be read between chunks, because the file system is part of the state.
