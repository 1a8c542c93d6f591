# A verified model of the tinyagentos core

This project models the parts of tinyagentos whose correctness rests on more than one function,
and proves what their documentation promises, or exactly when that promise holds.

| Area | Files | What is modelled |
|---|---|---|
| Turn protocol | AgentLoop, TurnProtocol, TurnDelivery, TurnOrder, ChatRouter | Concurrent turns of one agent: the loop controller, the turn-holder, the safe point, cancellation |
| Crash-safe replace | CrashDisk, AtomicIo | Cached and durable file contents, a journal of directory operations, power loss between any two system calls |
| Agent registry | OrgGraph, OrgEdits, OrgTree, Lifecycle, TokenAuth, Base64Url, RegistryToken, AgentIds, SlugLookup | Reporting graph, org tree, lifecycle, tokens, id minting and lookup |
| Accounts and sessions | Sessions, SessionRace, Accounts, AccountEffects, AuthManager, LoginUpgrade | The pruned session file against an unpruned log, also when other threads interleave; the account mutators over whole runs, and the hash upgrade of logins beside them |
| Release notes | TextSearch, Changelog, CollateRuns, FoldedSection, CollateSafety, NoteFront, VersionNotes, NoteLosses, Collate | Parsing, rendering, folding into CHANGELOG.md, interrupted runs and reruns |
| Compilers, closures, clocks | Glob, StoreWiring, Timestamps, ModelKeys, RateLimit | Glob compiler, shared-visited reachability, alias fixpoint, text order of UTC timestamps, fixed-window limiter |

Wrappers holds `Option`, `Result` and a few facts about collections, Text the string operations several files share.

Code that computes values is modelled by functions. Code that changes things is modelled twice: as a
function (or a state machine) over values, about which the theorems are proved, and as a class whose
methods make the change in place, each with an `ensures` that equates the new state with that function.
The main operations are also described a second time, by statements about the raw state (rows, lines,
positions, fields) that use none of these functions, and proved to meet that description.
Concurrency is a state machine whose steps are the stretches of code between two awaits.

`dafny verify dfyconfig.toml` checks the whole project.

## What the proofs found

Where the code does less than its documentation says, the code was kept and the exact condition proved.

- The router never submits a redirect (tinyagentos/agent_chat_router.py:64 and 95 leave `is_redirect` at its
  default), and over every such run, whatever is cancelled, the loop is busy exactly while a task holds the turn
  (`RouterTurnsAreExclusive`). A direct caller of `AgentLoop` that does submit one can wedge it: a task cancelled
  while `reach_safe_point` waits for subagents leaves the loop in SAFE_POINT, no task is left to free it, and the
  agent never drives another message. The comment at tinyagentos/agent_chat_router.py:90-92 rules this out for
  `drive_turn` only. `TurnsAreExclusive` gives the exact condition with redirects, `WedgedLoopDrivesNothing` the
  consequence and `CutOffWaitWedges` a run of four events.
- A task cancelled at `drive_turn` frees the loop but drops what it drained. Every message that arrived is driven,
  carried or queued exactly when no cancelled holder has drained one or drains one on its way out
  (`EveryMessageIsKeptIff`); `CancelledTurnDrops` is a run of three events that loses one.
- Arrival order depends on there being no switch of tasks between a safe point and the resubmissions after
  it. Under that atomicity no message is driven before one that arrived ahead of it, whatever is cancelled
  (`NeverOutOfOrder`); `FineMachineMayReorder` shows an overtaking run without it.
- The walk of `set_reporting` is cut off at 50. An edit that closes a cycle is accepted exactly when the agent
  is above its new manager by 50 stops or more, in a registry of any size (`CycleSlipsThroughIff`), and a run
  stays acyclic exactly when no such edit is written (`ReportingStaysAcyclicIff`). Up to 50 agents there is
  none; a chain of 51 has one (`CapPlusOneLetsCycleThrough`).
- The docstring of `register` says a new row cannot be part of a cycle. Since the manager is stored unchecked, it
  closes one exactly when the chain of that manager already leads to the new id (`RowClosesCycleIff`): two rows
  registered under each other do (`RegistrationsCloseCycle`). `AnyRunStaysAcyclicIff` covers runs with such
  registrations, `ReportingStaysAcyclicIff` those whose callers register below existing agents only.
- `check_agent_identity` does not look at `token_min_iat`: the headers it accepts that no scope check ever would
  are exactly those with a superseded token of an active agent (`IdentityIgnoresCutoff`).
- `get_by_slug` ends its pattern in `*`, so `alpha` also finds an agent named `alpha-20260101`
  (`DatedNameAnswersForShorter`). `GlobIsExact` says precisely which slugs answer, and `LookupIsExact` when the
  lookup returns the row it should.
- `_glob_match` documents `**` as zero or more segments. Only at the end, after a slash, does it match zero:
  `**/b` needs a slash in front of a match of `b` (`LeadingDoubleStar`), and `a/**/b` needs both of its slashes
  (`MiddleDoubleStar`), so `a/**/*.py` does not match `a/x.py` and `**/a` does not match `a`
  (`DoubleStarIsNotZeroSegments`, `UsualPatterns`). The laws hold for all patterns, wildcards included.
- An invite issued on an empty store makes `setup_user` fail for ever, and no run has an admin
  (`InviteBeforeSetupLocksOut`). An admin can still appear exactly while there is no user at all
  (`AdminCanAppearIff`). The one route that calls `add_user_invite` (tinyagentos/routes/auth.py:760-778) demands
  an admin session, which cannot exist before setup, so only a direct caller of the class can do this.
- The script looks for `## [Unreleased]` to decide whether it can fold, but folds behind that text only where a
  newline follows it directly. When none does, because the file ends there or a blank follows the bracket, the
  fold changes nothing, deletes every fragment and exits with code 0 (`FoldKeepsNotesIff`, `NotesLostExample`).
- A rerun takes a bullet for folded when it is part of any line of the version's section. A fragment that
  landed after the interrupted run with `- Fix login` is deleted, with exit code 0, when the section has
  `- Fix login on Safari`. The comment at scripts/collate_changelog.py:117-120 says the branch exists to prevent
  that loss. `RerunKeepsNoteIff` and `RerunKeepsEveryNoteIff` give the exact condition for one rerun,
  `NoteIsKeptIff` for all runs for any versions, and `ShorterNoteLost` a concrete loss.
- A fragment line that begins with `## [` is rendered like any other, but ends the version's section for a rerun.
  A fold files a note where a rerun looks exactly when no such line is rendered in front of it (`FiledIff`);
  `HiddenNoteExample` is a fragment whose second line is not. `NoteIsKeptForVersionIff` gives the exact condition
  for all runs for one version.
- The hash upgrade of a login takes a lock of its own, not the one the mutators share, although the docstring of
  `_serialized` says that every cycle of reading and writing the store needs it. The write-back leaves what an upgrade
  in one step would have left exactly when nothing but that one password has changed since the re-read
  (`NothingIsLostIff`); a user deleted in between comes back (`DeletedUserComesBack`). A password changed or reset
  between the check and the re-read is replaced by the checked one (`CheckedPasswordIsBack`, `ResetIsUndone`).
  Unique names and ids, and the one admin after setup, survive every interleaving (`StoreStaysSound`,
  `LoginUpgrades.SetupIsForGood`).
- When `O_EXCL` reports that the temporary name exists, the error path of `atomic_write_bytes` unlinks that
  name although somebody else created it. `AtomicWriteBytes` states it: the call ends with EEXIST, and the
  directory is the old one or, when the clean-up succeeds, the old one without that name.

## Model

| member | source | states |
|---|---|---|
| AgentLoops.AgentLoop.HandleMessage | tinyagentos/agent_loop.py:198-229 | an idle loop starts a turn with the message and queues nothing, a busy one appends it to the queue and changes nothing else; this is the atomic step of the state machine |
| AgentLoops.AgentLoop.DrainAtSafePoint | tinyagentos/agent_loop.py:346-349 | the whole queue is taken, in order, the loop is at its safe point, and the turn and the delivered list are untouched |
| AgentLoops.AgentLoop.FinishSafePoint | tinyagentos/agent_loop.py:356-364 | what was drained is followed by all that arrived during the wait, the queue is empty, a loop at its safe point turns idle and any other stays as it is, and the delivered list is the old one followed by what is surfaced, less its oldest entries and only where a thousand remain |
| AgentLoops.AgentLoop.PruneDelivered | tinyagentos/agent_loop.py:192-194 | the oldest entries go, and only where a thousand remain |
| TurnProtocol.ResubmittedWithoutFlag | tinyagentos/agent_chat_router.py:94-97 | a drained message that goes back into a busy loop's queue goes last and is no redirect; an idle loop starts its turn |
| TurnDelivery.DeliveredIsLastThousand | tinyagentos/agent_loop.py:356-364 | over every run of the fine machine the delivered list is the last thousand of what it held before followed by every message surfaced since, in order |
| TurnDelivery.DeliveredFromStart | tinyagentos/agent_loop.py:174-194 | so from the fresh state it is the last thousand messages ever surfaced, in the order they were surfaced |
| TurnProtocol.ExclusiveStep | tinyagentos/agent_chat_router.py:57-104 | every step of the fine machine, cancellations included, keeps one holder, a program counter that fits the loop, and an idle loop with an empty queue |
| TurnProtocol.ExclusiveRun | tinyagentos/agent_chat_router.py:57-104 | the same over every run |
| TurnDelivery.TurnsAreExclusive | tinyagentos/agent_chat_router.py:73-104 | over every run: two turns never overlap, the holder keeps at most one message of its own, and the loop is busy exactly when somebody holds the turn if and only if no wait for subagents was cancelled |
| TurnDelivery.RouterTurnsAreExclusive | tinyagentos/agent_chat_router.py:63-104 | over every run whose submissions carry no redirect, as the router's carry none, one task at most holds the turn and the loop is busy exactly when one does, cancellations included |
| TurnDelivery.WedgedLoopDrivesNothing | tinyagentos/agent_chat_router.py:89-93 | from then on no run drives another message |
| TurnDelivery.PlacesStep | tinyagentos/agent_chat_router.py:73-104 | every step keeps the number of places a message occurs in, counting driven, pending, drained, queued and dropped; only its arrival adds one |
| TurnDelivery.NothingIsLost | tinyagentos/agent_chat_router.py:73-104 | over every run of the fine machine the arrivals are, as a multiset, the driven, carried, queued and dropped messages, and nothing is dropped without a cancellation |
| TurnDelivery.LostGrowsByDropped | tinyagentos/agent_chat_router.py:89-93 | each step drops exactly what a cancelled holder has drained or drains on its way out, and no other step drops anything |
| TurnDelivery.LosesOnlyToCancelledHolder | tinyagentos/agent_chat_router.py:89-97 | over every run the dropped messages grow if and only if some step does that |
| TurnDelivery.EveryMessageIsKeptIff | tinyagentos/agent_chat_router.py:73-104 | over every run the arrivals are, as a multiset, the driven, carried and queued messages if and only if no step drops anything |
| TurnOrder.CancelledTurnDrops | tinyagentos/agent_chat_router.py:78-93 | a concrete run with a cancelled turn in which the message queued behind it is never driven |
| TurnOrder.CutOffWaitWedges | tinyagentos/agent_loop.py:346-364 | a concrete run of a caller that submits a redirect, ending with the loop in SAFE_POINT and no holder |
| TurnOrder.CoarseRefinesFine | tinyagentos/agent_chat_router.py:93-104 | the machine with the source's atomicity only takes runs of the fine one, ending in the same state |
| TurnOrder.InOrderStep | tinyagentos/agent_chat_router.py:74-104 | each step keeps arrivals equal to what was driven followed by what is carried and queued, also when messages arrive during a redirect's wait |
| TurnOrder.DrivenInArrivalOrder | tinyagentos/agent_chat_router.py:73-104 | over every run without cancellation, from any state in order, the driven sequence is a prefix of the arrivals |
| TurnOrder.InSequenceStep | tinyagentos/agent_chat_router.py:74-104 | each step, cancellations included, keeps what is driven, carried and queued a subsequence of the arrivals |
| TurnOrder.NeverOutOfOrder | tinyagentos/agent_chat_router.py:63-104 | from the fresh state, over every run, the driven sequence is a subsequence of the arrivals, whatever is cancelled; without cancellation it is a prefix of them |
| TurnOrder.ProgressStep | tinyagentos/agent_chat_router.py:74-97 | a turn that ends, whether it returns or raises, and a wait that ends strictly decrease the measure of work left |
| TurnOrder.EveryMessageIsDriven | tinyagentos/agent_chat_router.py:73-104 | once arrivals stop, runs are no longer than the measure, and when nothing can happen any more the loop is idle and every message was driven once, in order |
| TurnOrder.EveryMessageIsDrivenFromStart | tinyagentos/agent_chat_router.py:63-104 | the same for every run from the fresh state followed by one without arrivals |
| TurnOrder.FineMachineMayReorder | tinyagentos/agent_chat_router.py:93-104 | with a switch between safe point and resubmission, a concrete run drives a later arrival first and puts the earlier one back into the queue |
| ChatRouters.ResubmitAllSettles | tinyagentos/agent_chat_router.py:94-97 | the resubmission loop is the run of single resubmission steps |
| ChatRouters.ChatRouter.SubmitMessage | tinyagentos/agent_chat_router.py:63-73 | the start of a task, in place, is one step of the machine |
| ChatRouters.ChatRouter.EndTurn | tinyagentos/agent_chat_router.py:74-104 | the end of a turn with its drain and resubmissions, in place, is one step of the coarse machine |
| ChatRouters.ChatRouter.EndWait | tinyagentos/agent_loop.py:356-364 | the same for the end of the wait for subagents |
| ChatRouters.ChatRouter.CancelDuringWait | tinyagentos/agent_loop.py:353-354 | a cancellation there ends the turn-holder and touches the loop no more |
| CrashDisks.SettledSurvives | tinyagentos/atomic_io.py:79-84 | a name whose file and directory entry are durable shows the same bytes after any power loss (POSIX.1-2017, rename and fsync) |
| CrashDisks.CoveredIff | tinyagentos/atomic_io.py:54-92 | a power loss leaves one of any set of contents under a name exactly when every replay of the directory's pending changes gives it a synced file with one of them, or an unsynced one and the set allows all bytes |
| CrashDisks.SettledIsCovered | tinyagentos/atomic_io.py:79-84 | a settled name is covered by its present contents alone |
| CrashDisks.SettledLeft | tinyagentos/atomic_io.py:79-84 | all a power loss may leave under a settled name is what it shows |
| AtomicIo.CreatedKeeps | tinyagentos/atomic_io.py:58-59 | creating the temporary file changes nothing a power loss may leave under the target, and its inode is not the target's whatever survives |
| AtomicIo.RenamedAdds | tinyagentos/atomic_io.py:71 | the rename of a synced file adds exactly its bytes to what a power loss may leave |
| AtomicIo.UnsyncedRenameMayTear | tinyagentos/atomic_io.py:65 | renaming a file that was not synced can leave any bytes at all, which is why the sync comes first |
| AtomicIo.DirSyncedSettles | tinyagentos/atomic_io.py:85-87 | when the target's file is synced, whatever was pending before, the directory sync makes what the target shows the only thing a power loss may leave |
| AtomicIo.WriteAndSync | tinyagentos/atomic_io.py:61-65 | the short-write loop ends having written all the data, in order, and every state on the way is safe and keeps the temporary file's permissions narrow |
| AtomicIo.ChmodAndRename | tinyagentos/atomic_io.py:68-71 | the temporary file gets its final permissions before it takes the target's name |
| AtomicIo.WriteAndRename | tinyagentos/atomic_io.py:55-71 | whichever call fails, the target is untouched, and a temporary name that exists ends it with EEXIST; otherwise the rename is issued and the temporary name is gone |
| AtomicIo.AtomicWriteBytes | tinyagentos/atomic_io.py:33-92 | on any well-formed disk, a target last written without any sync included, a power loss in any state of the call leaves what it could have left before or exactly the new bytes, so over a settled target the old bytes or the new ones; after a directory sync only the new bytes, after an error before the rename only the old; a temporary name held by somebody else is removed; a call that asks for a mode ends with exactly that mode and never shows a wider temporary file, one that does not keeps the target's lowest nine bits or gives a new file 0o666 less the umask; the call ends normally, by a directory sync let pass (EINVAL, ENOTSUP, EOPNOTSUPP or EBADF) or by raising the error that the first failing system call gave, and unlinks the temporary name exactly when it fails before the rename |
| AtomicIo.WritersDoNotShare | tinyagentos/atomic_io.py:52-54 | two writers of one target use the same temporary name only with the same random suffix |
| OrgGraphs.ChainBound | tinyagentos/agent_registry_store.py:1003-1006 | in an acyclic graph a chain of managers is shorter than the number of agents |
| OrgGraphs.WalkDecides | tinyagentos/agent_registry_store.py:1085-1099 | on any graph, cyclic ones included, the walk meets the agent exactly when it is among the first cap managers above |
| OrgGraphs.SetReportingDecides | tinyagentos/agent_registry_store.py:1070-1106 | on any graph each error is raised exactly for its own reason, an unknown agent, the agent itself, a manager without a row, or a manager below the agent within cap stops, and an accepted edit writes exactly the edge asked for, clearing included |
| OrgGraphs.CycleSlipsThroughIff | tinyagentos/agent_registry_store.py:1074-1106 | in a graph of any size an edit that closes a cycle is accepted if and only if the agent is above the manager by cap stops or more, and every edit refused would close one |
| OrgGraphs.SetReportingIsExact | tinyagentos/agent_registry_store.py:1074-1106 | with at most cap agents an edit is accepted exactly when the new graph is acyclic |
| OrgGraphs.SetReportingKeepsAcyclic | tinyagentos/agent_registry_store.py:1070-1106 | an accepted edit keeps the graph acyclic exactly when it clears the manager or the agent is not above it beyond the cap |
| OrgEdits.ProceedKeepsInv | tinyagentos/agent_registry_store.py:1069-1106 | each stretch between two awaits of a lock holder closes a cycle exactly when it writes such an edit, and otherwise keeps the walk's knowledge current |
| OrgEdits.ReportingStaysAcyclicIff | tinyagentos/agent_registry_store.py:1065-1106 | a run of edits, registrations below existing agents and deletions interleaved at their awaits is acyclic in every state exactly when no such edit is written |
| OrgEdits.ShallowRunStaysAcyclic | tinyagentos/agent_registry_store.py:1003-1006 | a run whose chains of managers are no longer than the walk before each step never has a cycle after one, however many agents there are |
| OrgEdits.RowClosesCycleIff | tinyagentos/agent_registry_store.py:534-536 | whoever writes it, a row closes a cycle exactly when the chain of its manager already leads to its id |
| OrgEdits.AnyRunStaysAcyclicIff | tinyagentos/agent_registry_store.py:527-591 | a run with registrations under any manager is acyclic in every state exactly when no edit or registration closes a cycle at the moment it writes |
| OrgEdits.RegistrationsCloseCycle | tinyagentos/agent_registry_store.py:534-536 | two registrations that name each other are accepted and leave a cycle |
| OrgEdits.RegistryStaysAcyclic | tinyagentos/agent_registry_store.py:1003-1106 | both equivalences for every run from an empty registry and every cap, and acyclicity whenever registrations name existing agents and there are at most cap agents at a time |
| OrgEdits.UncheckedPairClosesCycle | tinyagentos/agent_registry_store.py:1065-1069 | without the lock two edits that both pass the guard close a cycle |
| OrgEdits.CapPlusOneLetsCycleThrough | tinyagentos/agent_registry_store.py:1003-1006 | for every cap, a chain of cap plus one agents accepts an edit that closes a cycle |
| OrgEdits.AgentRegistryStore.SetReportsTo | tinyagentos/agent_registry_store.py:1070-1106 | the walking loop, in place, writes exactly the edge asked for or raises the error whose reason holds, the cap being 50, and leaves the table alone when it does |
| OrgEdits.UndisturbedCallIsSetReporting | tinyagentos/agent_registry_store.py:1065-1106 | a call that takes the lock and is not disturbed at any of its awaits runs to its end, frees the lock and makes the same edit as the uninterrupted one |
| OrgEdits.StepWrites | tinyagentos/agent_registry_store.py:1065-1106 | a registration and a deletion write their own row, an accepted edit writes its manager into the row of its agent if there still is one, and no other step writes anything |
| OrgTrees.OrgTreeEmitsOnce | tinyagentos/agent_registry_store.py:1119-1158 | on any table with unique ids a row appears once if its column reports_to leads, row by row and within the cap, to a row that names no manager with a row, and never otherwise |
| OrgTrees.OrgTreeNested | tinyagentos/agent_registry_store.py:1141-1158 | on any table every node below another is a row that names it, and every node at the top a row whose reports_to is absent, empty or the id of no row |
| OrgTrees.OrgTreeIsComplete | tinyagentos/agent_registry_store.py:1130-1158 | the whole forest from the column alone: the top level lists exactly the rows whose reports_to is absent, empty or the id of no row, every node down to the cap exactly the rows that name it, each in the order of the table, and below the cap nothing |
| OrgTrees.GetOrgTree | tinyagentos/agent_registry_store.py:1130-1158 | the two passes and the recursion build that forest with a cap of 50, also on cyclic tables |
| Lifecycle.HistoriesArePaths | tinyagentos/agent_registry_store.py:77-98 | over every interleaving of reads and conditional updates each agent's committed statuses form a path of the transition table, and it is revoked exactly when revoked_at is set |
| Lifecycle.HistoriesBeginAsRegistered | tinyagentos/agent_registry_store.py:576 | over every run the history of a row begins pending if its last registration was a self-join, and active otherwise |
| Lifecycle.TrustOnlyShrinks | tinyagentos/agent_registry_store.py:883-998 | unless the row is deleted, a revoked agent stays revoked and the token cutoff never moves back |
| Lifecycle.LifecycleStore.BeginSetStatus | tinyagentos/agent_registry_store.py:870-875 | a missing agent and a forbidden transition are refused, each with its own error, and nothing else is; the table is untouched and the status read is remembered |
| Lifecycle.LifecycleStore.CommitIntent | tinyagentos/agent_registry_store.py:878-900 | the update takes place exactly when the row is still in the state the call read, or for a revocation not revoked yet; it writes the new status, a first revocation time, and nothing else |
| Lifecycle.LifecycleStore.BumpTokenMinIat | tinyagentos/agent_registry_store.py:980-998 | the cutoff becomes the larger of the two, and no other field or row changes |
| TokenAuth.WithdrawalIsFinal | tinyagentos/agent_token_auth.py:109-134 | once an agent is revoked or its cutoff passed a token's iat, no header that presents the token passes a scope check again in any run that does not delete the row |
| TokenAuth.ScopeAcceptsIff | tinyagentos/agent_token_auth.py:109-160 | a scope check accepts for an agent exactly a signed, active, unsuperseded bearer token of that agent, when it holds the scope |
| TokenAuth.ScopeAcceptsExactly | tinyagentos/agent_token_auth.py:92-134 | in terms of the header, payload, row and grants alone: after the word bearer in any capitals the header carries a token, which is let in for an agent exactly when it is signed, names that agent, the agent is active, the cutoff is not after its iat, and a grant of the scope never expires or expires later than now |
| TokenAuth.ScopeRefusesExactly | tinyagentos/agent_token_auth.py:99-134 | 401 is given exactly for an unsigned or nameless token and for a superseded one of an active agent, 403 exactly for an agent that is unknown, not active or without a current grant |
| TokenAuth.NoTokenNoDecision | tinyagentos/agent_token_auth.py:92-94 | there is no decision exactly when the header does not say bearer |
| TokenAuth.ProjectAcceptsIff | tinyagentos/agent_token_auth.py:205-248 | the project check, whose two lists of grants may differ, accepts exactly such a token when the agent holds the scope in the first list and the scope for the project in the second |
| TokenAuth.ProjectAcceptsExactly | tinyagentos/agent_token_auth.py:228-248 | the same with a second grant that names the project and has not expired at the later moment |
| TokenAuth.GrantsOpenProjects | tinyagentos/agent_token_auth.py:205-248 | so while no grant is added in between, one such token opens exactly the projects its agent still holds a current grant of the scope for, and no other token opens any |
| TokenAuth.ProjectClaimIsAdvisory | tinyagentos/agent_token_auth.py:234-248 | changing the token's own project claim changes no decision |
| TokenAuth.IdentityIgnoresCutoff | tinyagentos/agent_token_auth.py:163-202 | the identity check accepts a header that no scope check would ever accept if and only if it bears a superseded token of an active agent |
| Base64Url.EncodeIsUnpadded | tinyagentos/agent_registry_store.py:312-320 | encoded text holds neither padding nor dot, and the padding the decoder adds restores the padded encoding |
| Base64Url.DecodeInvertsEncode | tinyagentos/agent_registry_store.py:312-322 | decoding undoes encoding for every byte string (section 5 of RFC 4648) |
| Base64Url.EncodeIsInjective | tinyagentos/agent_registry_store.py:312-314 | different byte strings have different encodings |
| Base64Url.LetterIsFromAlphabet | tinyagentos/agent_registry_store.py:312-314 | the letter of each value is the one of table 2 of RFC 4648 |
| Base64Url.GroupsSpellBits | tinyagentos/agent_registry_store.py:312-314 | the letters of a group spell the 24 bits of its bytes, the first byte leading and missing bytes zero |
| RegistryToken.MintedParts | tinyagentos/agent_registry_store.py:352-372 | a minted token splits at its dots into exactly the three encoded parts (section 7.1 of RFC 7515) |
| RegistryToken.VerifyInvertsMint | tinyagentos/agent_registry_store.py:325-399 | verifying a minted token returns the claims it was minted with |
| RegistryToken.NewTokenNames | tinyagentos/agent_registry_store.py:357-366 | the verified claims of a new token are those it was minted with, by the issuer taos-registry, and name a project exactly when a non-empty one was given |
| RegistryToken.VerifiedIsSigned | tinyagentos/agent_registry_store.py:384-399 | whatever verifies has three parts whose signature covers the first two and whose claims are the ones returned |
| RegistryToken.MintIsInjective | tinyagentos/agent_registry_store.py:325-372 | equal tokens carry equal claims |
| AgentIds.SlugifyShape | tinyagentos/agent_registry_store.py:406-410 | every slug is non-empty, of lower-case letters, digits and single inner hyphens |
| AgentIds.SlugifySpells | tinyagentos/agent_registry_store.py:406-410 | collapsing, stripping and trimming amount to one pass over the lower-cased name: letters and digits are copied, with one hyphen exactly where something else stood between two of them; a name without any is called agent |
| AgentIds.SlugifyKeepsLetters | tinyagentos/agent_registry_store.py:406-410 | the letters and digits of the lower-cased name are those of its slug, in order |
| AgentIds.SlugifyIdempotent | tinyagentos/agent_registry_store.py:409-410 | a slug is its own slug |
| AgentIds.CandidatesDiffer | tinyagentos/agent_registry_store.py:560-573 | no two probes of the id loop try the same id |
| AgentIds.FreeId | tinyagentos/agent_registry_store.py:562-573 | the loop ends within one probe more than there are rows, with the first candidate no row holds |
| SlugLookup.GlobIsExact | tinyagentos/agent_registry_store.py:657-666 | the pattern finds the ids minted from the slug and from the slug extended by a hyphen and a block of eight digits that starts the tail again, and no others |
| SlugLookup.GetBySlug | tinyagentos/agent_registry_store.py:650-678 | the oldest matching row of the wanted status, none if there is none or the slug is malformed |
| SlugLookup.LookupIsExact | tinyagentos/agent_registry_store.py:650-678 | the oldest row of the wanted status minted from the slug is the answer if and only if no older row of that status has a slug that extends it so |
| SlugLookup.NobodyAnswersIff | tinyagentos/agent_registry_store.py:650-678 | no row matches exactly when none of the wanted status was minted from the slug or from such an extension |
| SlugLookup.SlugsAreAcceptable | tinyagentos/agent_registry_store.py:652-656 | every minted slug passes the lookup's guard |
| SlugLookup.DatedNameAnswersForShorter | tinyagentos/agent_registry_store.py:657-666 | every id minted from a slug with a hyphen and a date behind it answers for the slug without them |
| Sessions.StepAgrees | tinyagentos/auth.py:72-128 | every operation, pruning on load and save included, keeps the file and the never-pruned log equal on what has not expired |
| Sessions.PrunedFileRefinesLog | tinyagentos/auth.py:72-97 | over every run with a clock that does not run back, validating against the file answers as the log would |
| Sessions.SessionHoldsIff | tinyagentos/auth.py:747-814 | over every run of creates, checks, revokes and startups, the file lets a client in as a user exactly when a session of that user was created under the token, has not expired, is not bound to another client, and neither the token nor the user was revoked since |
| Sessions.RevokedUserStaysOut | tinyagentos/auth.py:802-814 | after a user's sessions are revoked no token validates to that user until one is created |
| SessionRaces.DroppingIsRevokingAtOnce | tinyagentos/auth.py:802-814 | however other threads interleave with the drops, once the last token is dropped every token is answered for as if all the sessions listed had ended together when they were listed; sessions created since are answered for |
| SessionRaces.DroppedUserStaysOut | tinyagentos/auth.py:802-814 | so no token validates to that user, unless a session was created for them since the listing |
| SessionRaces.LateDeleteIsHarmless | tinyagentos/auth.py:783-789 | an entry found expired can be deleted any time later, whatever happened in between, without touching what still answers |
| Sessions.PersistentSessions.CreateSession | tinyagentos/auth.py:747-758 | the log gains exactly that session, expiring seven or thirty days after a moment of the call, and the file holds exactly what has not expired, bare expiry times aside |
| Sessions.PersistentSessions.RevokeUserSessions | tinyagentos/auth.py:802-814 | exactly the entries of that user leave the log, bare expiry times belonging to the empty id, although each removal reloads and prunes the file |
| Sessions.PersistentSessions.ValidateSession | tinyagentos/auth.py:772-797 | at some moment of the call: a user is answered exactly when the log has an entry of that user for the token, which expires later and has no client hash, an empty one or the caller's, or the caller gives none; the log is untouched, the file gains nothing, and an expired bare time is deleted |
| Sessions.PersistentSessions.PruneOnStartup | tinyagentos/auth.py:230-244 | the file is left with exactly its unexpired entries and bare expiry times |
| Accounts.OpKeepsInv | tinyagentos/auth.py:446-741 | every mutator keeps names and ids unique, each record full or pending, and either no admin or one admin, first and with a password |
| Accounts.StoreStaysConsistent | tinyagentos/auth.py:446-741 | over every run from an empty store names and ids are unique, each record is full or pending, and there is no admin or exactly one, first and with a password |
| Accounts.SetupIsForGood | tinyagentos/auth.py:307-328 | after a successful setup there is one admin for ever, onboarding is never offered again and setup never succeeds again |
| Accounts.PendingCannotChangePassword | tinyagentos/auth.py:681-697 | an account without a password cannot change it |
| AccountEffects.MutatorEffect | tinyagentos/auth.py:446-741 | for every mutator on a sound store: each error is raised exactly for its stated reason; otherwise exactly the user it is about changes, in exactly the stated fields, and every other record, its place and the legacy file stay |
| AccountEffects.PasswordIsAcceptedIff | tinyagentos/auth.py:150-167 | an argon2 hash accepts what argon2 verifies, any other text exactly a password whose salted digest it is, the salt being free of colons |
| AccountEffects.ChangeSucceedsIff | tinyagentos/auth.py:681-697 | a password is changed exactly by whoever knows it, to one of at least eight characters |
| Accounts.InviteBeforeSetupLocksOut | tinyagentos/auth.py:448-450 | an invite on the empty store succeeds, and in every run after it setup is refused and there is no admin |
| Accounts.AdminCanAppearIff | tinyagentos/auth.py:446-468 | from a consistent store some run has an admin exactly when there is no user at all or an admin already |
| LoginUpgrades.StoreStaysSound | tinyagentos/auth.py:646-664 | over every interleaving of mutators with the three stages of logins' hash upgrades, names and ids are unique, each record has a password or an invite, and there is no admin or one, first and with a password |
| LoginUpgrades.SetupIsForGood | tinyagentos/auth.py:446-468 | after a successful setup no such interleaving takes the admin away or offers setup again |
| LoginUpgrades.NothingIsLostIff | tinyagentos/auth.py:655-662 | the write-back equals an upgrade in one step exactly when the list it overwrites differs from the one re-read in that password at most |
| LoginUpgrades.DeletedUserComesBack | tinyagentos/auth.py:655-662 | any user deleted between the re-read and the write-back is there again |
| LoginUpgrades.CheckedPasswordIsBack | tinyagentos/auth.py:646-662 | whatever became of the password since the check, the user has the checked one, and is otherwise as re-read |
| LoginUpgrades.StaysFullOrPendingIff | tinyagentos/auth.py:646-662 | every record stays either full or pending exactly when the user is gone or still has a password at the re-read |
| LoginUpgrades.ResetIsUndone | tinyagentos/auth.py:531-556 | a reset by the admin between check and re-read leaves the checked password beside the new invite |
| AuthManagers.AuthManager.SetupUser | tinyagentos/auth.py:446-468 | in place, the effect stated for the mutator, or exactly its error and no change |
| AuthManagers.AuthManager.CompleteInvite | tinyagentos/auth.py:496-529 | the same, finding the first matching pending record |
| AuthManagers.AuthManager.AdminResetPassword | tinyagentos/auth.py:531-556 | the same, and exactly the sessions of that user end |
| AuthManagers.AuthManager.RecoverPassword | tinyagentos/auth.py:568-611 | the same for the record found by name or the only one; a legacy store changes its password file and no session |
| AuthManagers.AuthManager.ChangeOwnPassword | tinyagentos/auth.py:681-697 | true exactly for a new password of at least eight characters and the current one, and then just that user's hash is the new one |
| AuthManagers.AuthManager.DeleteUser | tinyagentos/auth.py:716-741 | the same for a deletion, which never removes the caller or the last admin |
| Globs.Compile | scripts/check_doc_gate.py:263-286 | the index loop, which rewrites a slash it has already emitted, produces the parts the pattern means |
| Globs.CompiledGlob | scripts/check_doc_gate.py:255-286 | on every newline-free path the joined expression matches exactly when the declarative glob does |
| Globs.SingleStarStaysInSegment | scripts/check_doc_gate.py:258-261 | a path matched without a double star has exactly the slashes of its pattern |
| Globs.PlainMatchesItself | scripts/check_doc_gate.py:283-285 | a pattern without wildcards matches only itself |
| Globs.StarBetween | scripts/check_doc_gate.py:278-280 | between plain texts a star stands for any text without a slash, also none, and nothing else |
| Globs.QuestionBetween | scripts/check_doc_gate.py:281-282 | and a question mark for exactly one character that is no slash |
| Globs.TwoStarsBetween | scripts/check_doc_gate.py:274-276 | and a double star for any text at all |
| Globs.TailBehind | scripts/check_doc_gate.py:270-273 | and a slash and double star at the end for nothing or for a slash and any text |
| Globs.PatternSplits | scripts/check_doc_gate.py:263-286 | any pattern splits in front of any slash: a path matches exactly when it splits into a match of each half |
| Globs.InnerIsGlob | scripts/check_doc_gate.py:270-273 | before such a slash the first half means what it means alone, unless it ends in a slash and a double star |
| Globs.InnerIsBeforeSlash | scripts/check_doc_gate.py:263-286 | and in any case what it means with a slash behind it |
| Globs.TrailingDoubleStar | scripts/check_doc_gate.py:270-273 | for any pattern, a slash and double star behind it match what the pattern matches and everything below that, and nothing else |
| Globs.LeadingDoubleStar | scripts/check_doc_gate.py:274-276 | for any pattern but a double star itself, a double star and a slash in front of it match exactly what has a slash with a match of the pattern behind it |
| Globs.MiddleDoubleStar | scripts/check_doc_gate.py:274-276 | for any two patterns, a double star between them needs both of its slashes around whatever it stands for |
| Globs.DoubleStarIsNotZeroSegments | scripts/check_doc_gate.py:258-259 | so between or in front of patterns without a double star it never matches zero segments, whatever paths the patterns match |
| Globs.UsualPatterns | scripts/check_doc_gate.py:258-259 | two concrete cases |
| StoreWiring.InheritsBaseStore | scripts/check_store_wiring.py:187-202 | with one visited set shared by all branches, on cyclic class graphs too, true exactly when BaseStore is reachable |
| StoreWiring.AliasPass | scripts/check_store_wiring.py:127-134 | a pass adds only names that hold an instance, and reports no change exactly when the set is closed under assignment |
| StoreWiring.InstanceVars | scripts/check_store_wiring.py:113-134 | the loop ends with exactly the names reachable from an instantiation through assignments, in any statement order |
| Timestamps.FieldOrderIsTimeOrder | tinyagentos/agent_model_key_store.py:61-73 | comparing fields from year to microsecond compares instants |
| Timestamps.TextOrderIsTimeOrder | tinyagentos/agent_model_key_store.py:61-73 | for all UTC instants text order is time order although a zero fraction is omitted, beyond what section 5.1 of RFC 3339 promises |
| ModelKeys.NormalizeIsCanonical | tinyagentos/agent_model_key_store.py:61-73 | two accepted expiries are stored alike exactly when they name the same instant |
| ModelKeys.NormalizedInstant | tinyagentos/agent_model_key_store.py:61-73 | text without an offset is refused; any other is stored as the UTC text of the caller's local time less its offset, unless that lies outside the years 1 to 9999 |
| ModelKeys.ResolveIsExact | tinyagentos/agent_model_key_store.py:146-167 | comparing text, a row is selected exactly when a usable key was issued for the token |
| ModelKeys.AgentModelKeyStore.Mint | tinyagentos/agent_model_key_store.py:97-144 | succeeds exactly with at least one agent, well-formed ids, a timezone-aware expiry and a new token; stores one row that grants what was asked, and nothing on failure |
| ModelKeys.AgentModelKeyStore.Revoke | tinyagentos/agent_model_key_store.py:169-178 | revokes exactly that row, and reports whether it was the first to |
| ModelKeys.AgentModelKeyStore.Resolve | tinyagentos/agent_model_key_store.py:146-167 | returns a row exactly when the token was minted, is not revoked and has not expired |
| Changelog.ParseFragment | scripts/collate_changelog.py:41-57 | each section gets exactly the notes below its heading, each without the blanks at its end, once and in order; a fragment is refused exactly when no line is a note |
| Changelog.ParseReadsLines | scripts/collate_changelog.py:41-54 | from the raw lines alone: every line that is neither blank nor a heading stands, stripped at the end, once and in order in the section of the nearest heading above it, or Added where there is none, and nothing else is in the result |
| Changelog.CollectGathers | scripts/collate_changelog.py:60-68 | each section of the merged map holds the fragments' lines, fragment after fragment |
| Changelog.SectionsReadTheSameWay | scripts/collate_changelog.py:35-37 | sections appear in the conventional order, unknown ones after them by text |
| Changelog.RenderedOrder | scripts/collate_changelog.py:35-37 | Added, Changed, Fixed, Removed, Security, then the others by text |
| Changelog.RenderedFirstLine | scripts/collate_changelog.py:71-72 | the version's header with the date, a blank line, and the body |
| Changelog.BodyLayout | scripts/collate_changelog.py:73-80 | every section is its heading, a blank line, its notes and a blank line, at the place its predecessors leave it, with nothing in between |
| Changelog.ParseInvertsRender | scripts/collate_changelog.py:71-80 | parsing the body of a rendered section gives the merged map back |
| Changelog.RenderEmitsEveryLineOnce | scripts/collate_changelog.py:60-80 | so rendering emits, section by section, exactly the collected lines |
| FoldedSections.FrontIsWhole | scripts/collate_changelog.py:117-123 | every line of the fold in front of all lines like version headers is a whole line of what a rerun takes for the version's section |
| FoldedSections.MarkHidesTheRest | scripts/collate_changelog.py:117-123 | and no line behind the first of them is |
| FoldedSections.FoldKeeps | scripts/collate_changelog.py:138-142 | a fold leaves every line of the changelog a whole line |
| FoldedSections.FoldsBelowFirstAnchor | scripts/collate_changelog.py:138-142 | a fold puts a blank line and the section right behind the first anchor line and changes nothing else; without one it changes nothing |
| FoldedSections.SectionTextIs | scripts/collate_changelog.py:121-123 | a rerun reads from the version's first header to the next line that begins like a version header, or to the end |
| CollateSafety.CutKeepsSafe | scripts/collate_changelog.py:105-147 | a run cut short after any action keeps a note, in a fragment or as a whole line, that was a line already or has a fragment no present section contains |
| CollateSafety.NoteIsKeptIff | scripts/collate_changelog.py:105-147 | every sequence of such runs for any versions, with fragments landing in between, keeps the note if and only if that condition holds or a malformed fragment stops all runs |
| NoteFronts.FiledIff | scripts/collate_changelog.py:117-147 | a complete fold makes a note a line of the version's section, as a rerun reads it, exactly when no line like a version header is rendered in front of it |
| VersionNotes.LandKeepsFront | scripts/collate_changelog.py:60-80 | a fragment that lands later, without such lines, keeps the note in front, wherever its own lines are merged in |
| VersionNotes.NoteIsKeptForVersionIff | scripts/collate_changelog.py:110-147 | all runs for one version keep a note, in a fragment or as a line of that section, exactly when, before the section is written, it is in front or a malformed fragment stops all runs, and afterwards, it is such a line or a fragment of it is not wholly contained in the section |
| VersionNotes.WithoutMarksAllAreInFront | scripts/collate_changelog.py:117-123 | where no fragment has such a line, every note is in front |
| NoteLosses.HiddenNoteExample | scripts/collate_changelog.py:117-123 | a concrete fragment whose note one complete run loses to its version |
| CollateSafety.RerunKeepsNoteIff | scripts/collate_changelog.py:124-136 | a complete rerun keeps a note exactly when it is a line of the section or a fragment carrying it is kept |
| CollateSafety.RerunKeepsEveryNoteIff | scripts/collate_changelog.py:124-136 | it keeps all notes exactly when each bullet it overlooks, part of a line of the section but no line, is also in a fragment it keeps |
| NoteLosses.ShorterNoteLost | scripts/collate_changelog.py:124-136 | a concrete changelog and late fragment whose note a rerun deletes with exit code 0 |
| CollateSafety.FoldKeepsNotesIff | scripts/collate_changelog.py:138-147 | a complete fold writes new notes down exactly when the anchor line ends in a newline |
| NoteLosses.NotesLostExample | scripts/collate_changelog.py:138-147 | a concrete changelog and fragment whose note is deleted with exit code 0 |
| CollateSafety.RerunConsumesFolded | scripts/collate_changelog.py:111-136 | a rerun removes exactly the fragments each of whose notes, as raw lines stripped at the end, is part of the version's section, and leaves the text alone |
| CollateSafety.ExitZeroIffConsumed | scripts/collate_changelog.py:83-147 | the exit code is 0 when no fragment is left and 1 otherwise |
| Collate.CollectsAll | scripts/collate_changelog.py:60-68 | the loop that gives up at a malformed fragment merges all of them or finds one exactly when there is one |
| Collate.Checkout.CollateFragments | scripts/collate_changelog.py:83-147 | the script, in place and cut short after any number of actions, leaves the files the specification says, with its exit code |
| RateLimit.RateLimiter.RateLimitOk | tinyagentos/auth_middleware.py:375-391 | a key without a window, or whose window is over, starts one with this request, any other counts it; no other key changes, and the request is admitted up to the cap |
| RateLimit.RateLimiter.Serve | tinyagentos/auth_middleware.py:375-391 | a whole run is told, call by call, what the specification of that call's history says |
| RateLimit.KeysAreIndependent | tinyagentos/auth_middleware.py:386-390 | what a key is told depends on its own requests only |
| RateLimit.WindowInvariant | tinyagentos/auth_middleware.py:386-391 | the counter is the number of requests in the current window, of which exactly the first cap are admitted |
| RateLimit.BurstIsBounded | tinyagentos/auth_middleware.py:375-391 | with a clock that does not run back, a closed interval of one window length admits at most twice the cap per key |
| RateLimit.BoundIsMet | tinyagentos/auth_middleware.py:375-391 | for every cap and window a run admits exactly twice the cap in such an interval |
| RateLimit.OnlyBurstsAreRefused | tinyagentos/auth_middleware.py:386-391 | whoever is refused made more than cap requests within the last window length |

## Left out

- Hashing, signatures and JSON are parameters with the correctness law they need and nothing else: `Injective` for SHA-256 of tokens, `Sound` for Ed25519 with JSON.
- Random values (ids, tokens, invite codes, temporary suffixes) are drawn by the caller; new account ids are required to be fresh.
- Clocks do not run back where a theorem says so; times are whole numbers, and reals in the limiter, so rounding of floats is not modelled.
- Several agents: the router's map from agent to loop is modelled for one agent; loops of different agents share nothing.
- The redirect flag of a resubmitted message is dropped, as the source drops it; subagent handles, worker tasks and progress streaming are not modelled, only the wait for their cancellation.
- Waiters of an asyncio lock are modelled by the holder alone: who gets the lock next is not determined.
- OrgEdits.ReportingStaysAcyclicIff: assumes registrations under no manager or an existing one, of an id nobody names yet; `AnyRunStaysAcyclicIff` assumes no such thing.
- AtomicIo.AtomicWriteBytes: creating missing parent directories, closing descriptors and a failure to open the directory for its sync are not separate steps.
- A file system that reorders a rename with a later one is not modelled: the directory's operations are replayed in order, any subset of them.
- Account fields that no check reads (creation time, capabilities, current user, who invited) are not modelled; neither is a store file that cannot be parsed.
- The lookup by e-mail of `check_password` is not modelled, and a password recovery run from another process counts as one more serialised mutator.
- Accounts.SetupIsForGood: runs of whole operations; `LoginUpgrades.SetupIsForGood` interleaves the hash upgrades of logins.
- Legacy session entries are kept and answered for, but the dictionary shapes of still older files are not.
- The decoder of Base64Url is the lenient one of the standard library for text that is not an encoding; its error texts are not modelled.
- Case folding in `_slugify` is a parameter; idempotence assumes only that it keeps slugs.
- Changelog files use `\n`; a write of CHANGELOG.md cut short halfway, the dry run and a missing fragment directory are not modelled.
- VersionNotes.NoteIsKeptForVersionIff: fragments that land before the section is written are assumed to have no line that begins with `## [`; those already there, and all that land later, may.
- Fragments edited after they landed are not modelled; a landing under a name already taken changes nothing.
- The test that follows the alias loop, which looks for `app.state` itself, is not modelled.
- HTTP routing, middleware dispatch, route allow-lists, recipient selection, notifications and the desktop side would add only easy members.
