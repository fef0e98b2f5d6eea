# MCP Gate: a verified model

MCP Gate executes commands on SSH hosts for AI agents, behind a whitelist, deny rules, parameter policies and an approval
queue. This project models its decision logic in Dafny and proves what an operator relies on. `dafny verify dfyconfig.toml`
checks everything.

Most components appear twice: as functions on values (what a step means), and as methods or classes in the shape of the
program (loops over lists, fields updated in place, staged routes), each proved to compute exactly those functions. Theorems
are about the functions and about runs: sequences of steps of any length and in any order.

## The parts

- **Approval protocol** (`Approvals`, `SharedState`, `Protocol`, `Invariant`, `Safety`, `Grounds`, `Theorems`, `Traces`,
  `Wakeups`, `Finality`, `Verdicts`, `LateChanges`).
  `Approvals` gives the storage functions and the synchronous stretches of the coroutines as functions of the shared state;
  `SharedState.Gate` is the code that changes that state in place; `Protocol` interleaves submitters, waiters, operators, the
  expiry sweep (with its aborts), executor threads, clock ticks and configuration changes. `Invariant` projects a state on one
  approval id and says what holds of it; `Safety` shows that every step keeps this and moves items forward only; `Grounds`
  tracks why an execution was allowed, `Traces` from which steps of the run it comes; `Theorems`, `Wakeups`, `Finality`,
  `Verdicts` and `LateChanges` state the results for every run. While the sweep has the event loop, up to the end of an
  item's re-check, only itself, the clock and the threads can act.
- **Admission** (`Registry`, `CommandSets`, `DenyRules`, `Text`, `ShellWords`, `Templates`, `Params`, `ValuePolicy`,
  `Substitution`, `Holes`, `Secrets`, `Overlaps`, `Executor`, `AdmissionStages`): authorization as set algebra, deny rules on
  every simple command of the resolved text, parameters substituted one after the other, the policy for values and paths,
  quoting against an independent reader of POSIX shell words, secrets and the scrubbing of output, the staged pipeline that
  ties them together, and for each of its stages the exact causes in the records an administrator edits.
- **Windows** (`SlidingWindow`, `RateLimit`, `Lockout`): one argument for the request limiter and the login lockout.
- **Administrator authentication** (`TwoFactor`, `Sessions`, `AuthRoutes`): one-time codes, session tokens as the set of issued
  records, epochs, and the routes that change all of it.
- **Events** (`Flood`, `EventBus`, `Outbox`): flood aggregation, and delivery with backoff.
- **Caches** (`YamlCache`, `SetCache`), **timed grants** (`Grants`) and **output draining** (`Drain`).

## What the proofs show about the code

Some expected properties fail; the model keeps the code's behaviour and states exactly when they hold.

- "Approved, still executing" is not a final answer, because the sweep writes `approved` before its re-check. Whenever others
  than the sweep can act, and so whenever that answer is given, an approved item stays approved in every continuation exactly
  when the sweep does not hold it with its re-check still to come (`Finality.ApprovedIsFinalExactly`,
  `Finality.StillExecutingIsFinalExactly`); `Finality.ATakenBackApproval` is a run from an empty gate that takes an announced
  approval back while another item is executed. What an aborted sweep dropped stays as it is (`Finality.DroppedForGood`).
- A rejected item is reported as "rejected by operator" whenever its timeout did not reject it. An operator decided on it, that
  is called reject, or approve for an inactive agent (app/main.py:217-225), while it was pending, exactly when it has no
  automatic mark; with the mark of an optimistic timeout it was the re-check (`Verdicts.RejectedByOperatorExactly`, with the
  input of `Verdicts.RecheckIsReportedAsOperator` and the run of `Verdicts.AWrongAnswer`).
- An auto-approved item whose host is gone stays approved and never runs (`Theorems.GoneHostStaysApproved`).
- Dry run, the switched-on host and the deny rules on the resolved text are looked at when a request is submitted, and not
  again. A queued item runs on whatever host the registry then lists under its id: by an operator exactly when the agent may
  act, on expiry exactly when host, agent and the command's name pass the re-check (`LateChanges.ApprovalRunsExactly`,
  `LateChanges.ExpiryRunsExactly`). So a host switched off and to dry run in the meantime is still written to
  (`LateChanges.ADryRunHostIsWrittenTo`), and the re-check sees a new deny rule only if it is the command's very name
  (`LateChanges.RecheckSeesNamesOnly`).
- An MCP token is accepted only while its agent is active (app/mcp_transport.py:117-122), but the request body is awaited after
  that, and the calls of a batch follow one another. A request in the name of an agent that is not turned away has this agent
  active at the call exactly unless the agent was deleted in between (`Executor.NamedAgentIsActiveExactly`). Then it is treated
  as one without an agent, and in auto mode executed at once (`Executor.DeletedAgentIsExecuted`). A queued one is refused by
  approval and re-check as long as the agent is gone.
- Words in front of a command leave the target of the deny rules as it is exactly when each of them is a wrapper, starts with a
  dash, is a number or an assignment (`DenyRules.WrappersDoNotHideExactly`). The value of an option need not be one: the rule
  `rm` hits `sudo rm` and not `sudo -u root rm` (`DenyRules.OptionValueHides`).
- Sequential substitution differs from filling all holes at once exactly when a value names a placeholder that sorts later
  (`Substitution.ReturnedIsSimultaneousExactly`; `Substitution.LaterMentionIsExpanded` is accepted input where it does).
- "Every value becomes exactly one shell word" (app/params.py:131) holds exactly for holes outside quotes and comments of the
  template (`Holes.OneWordExactly`, `Holes.TemplateSafeExactly`; `Holes.QuotedPlaceholderFails` is a template where it fails).
- Scrubbing bracket-free values is complete exactly when no value is part of the mark. For a single value of any kind it is
  complete exactly when value and mark do not overlap in one of three ways (`Secrets.ScrubbingCompleteExactly`,
  `Overlaps.OneValueCompleteExactly`, with the leaking value of `Secrets.BracketsCanLeak`).
- Disabling an allow-set can enable commands, exactly when it was the agent's last one (`CommandSets.DisablingEnablesExactly`).
- `/api/exec` charges the host's window twice, so a host limit of L lets at most L/2 such commands through a minute, and a
  limit of 1 lets none through (`RateLimit.ApiRunsAtHalfTheLimit`, `RateLimit.LimitOneAdmitsNothing`).
- A suppressed flood count is lost exactly when an event re-opens an expired window before it is drained
  (`Flood.DroppedExactly`, `Flood.ACountCanBeLost`).
- A timed agent may be active on another agent's toggle: exactly if it was copied from an agent with an end of grant and has
  not been toggled since (`Grants.ActiveOnlyInsideAGrant`, `Grants.CopyInheritsTheGrant`).
- After an import a cached command set differs from the stored one exactly while a cached answer that the import changed has
  not expired, at most five seconds (`SetCache.ImportLagsExactly`, `SetCache.ImportMayLag`). A file changed behind the
  program's back is missed exactly when its modification time does not change (`YamlCache.UnnoticedExactly`).
- A session can outlive the absolute lifetime of its login: only through a confirmed enrollment or a password change on its
  lineage, and each of them does restart it (`Sessions.OutlivesLoginOnlyByRestart`, `Sessions.RestartLives`,
  `Sessions.ConfirmationOutlivesLogin`).
- `create_approval_event` is documented as called before the item is queued; the code calls it afterwards
  (app/mcp_transport.py:316). No wake-up is lost by that, because the waiter looks at the item before it sleeps.

## Model

| member | source | states |
|---|---|---|
| `SharedState.Gate.AddToQueue` | app/storage.py:948-953 | a fresh id is appended as a pending item; every other item keeps its place and content |
| `SharedState.Gate.ResolveApproval` | app/storage.py:956-963 | only a pending item is decided, and it is returned exactly then |
| `SharedState.Gate.SetQueueResult` | app/storage.py:970-980 | the result of exactly one item changes; reports whether the id exists |
| `SharedState.Gate.GetQueueItem` | app/storage.py:983-985 | the item with the id, or nothing if there is none |
| `SharedState.Gate.UpdateQueueStatus` | app/storage.py:988-997 | the status of exactly one item is overwritten, whatever it was |
| `SharedState.DecideExpired` | app/storage.py:1000-1013 | one pass changes exactly the expired items where they stand and collects them in queue order |
| `SharedState.Gate.CleanupExpired` | app/storage.py:1000-1014 | the queue after the pass, and the returned list of decided items |
| `SharedState.LapsedInDistinct` | app/storage.py:1000-1014 | the sweep's batch holds no id twice |
| `SharedState.CleanupIsSweepBegin` | app/tasks.py:29 | what the in-place code returns and writes is the first step of the protocol's sweep |
| `SharedState.Gate.SignalApproval` | app/app_state.py:72-79 | a registered event is taken out and set; without one nothing changes |
| `SharedState.Gate.CreateApprovalEvent` | app/app_state.py:64-69 | registers the event of one id |
| `SharedState.Gate.Approve` | app/main.py:214-228 | approval up to its first await: decide, or reject for an inactive agent and signal, or refuse |
| `SharedState.Gate.StoreAndWake` | app/main.py:234-235 | result stored, then waiter signalled |
| `SharedState.Gate.Reject` | app/main.py:250-254 | a pending item is rejected and signalled; anything else is refused without change |
| `SharedState.Gate.TakeExpired` | app/tasks.py:30-71 | re-check of an auto-approved item (host, authorization, agent) up to the next await |
| `SharedState.Gate.StoreExpired` | app/tasks.py:57-58 | the sweep's write after an execution |
| `SharedState.Gate.StartWaiting` | app/mcp_transport.py:316-320 | registers, and sleeps only on a pending item |
| `SharedState.Gate.StopWaiting` | app/mcp_transport.py:323-336 | unregisters and turns the item into the client's answer |
| `Safety.StepKeeps` | app/tasks.py:29-71 | every step of every coroutine keeps the invariant of all items, and every item only moves forward |
| `Grounds.StepGrounded` | app/main.py:215-226 | every step keeps that decisions in flight and in the log were allowed to be taken |
| `Theorems.RunKeeps` | app/tasks.py:24-75 | the invariant, the grounds and the order of statuses hold along every run |
| `Theorems.AtMostOnce` | app/main.py:226-235 | no item is ever executed twice; an executed item is approved; a stored result is that of its one execution |
| `Theorems.RejectedIsFinal` | app/storage.py:956-963 | in every continuation a rejected item keeps its record and is never executed |
| `Theorems.AnswersStayTrue` | app/mcp_transport.py:325-336 | a waiter's "rejected" means it never runs; a result it reported stays the item's and tells who decided |
| `Theorems.NoLostWakeUp` | app/mcp_transport.py:316-322 | who sleeps on an unset event waits for an item pending, held by an approver or the sweep, or dropped by an abort |
| `Theorems.WokenFindsDecision` | app/mcp_transport.py:318-329 | a woken waiter finds a decided item, with its result if a manual approval ran it |
| `Theorems.EveryRunIsJustified` | app/executor.py:82-98 | each execution: cleared submission, over MCP only for a host its agent is bound to, the very text the deny rules let pass, on the host it names as the registry had it, by a decision made on valid grounds |
| `Traces.EveryRunIsTraced` | app/main.py:226-231 | behind each execution stand three steps of the run in this order, its submission, the decision, the execution, with the registries and times of the log those of the states they were taken in |
| `Theorems.QueuedRequestIsCleared` | app/executor.py:250-257 | what is queued was cleared and is never in auto mode |
| `Theorems.FateAtRest` | app/tasks.py:29-74 | with nothing in flight every item is pending, rejected unrun, approved with its only result, dropped or skipped unrun |
| `Theorems.GoneHostStaysApproved` | app/tasks.py:34-35 | an auto-approved item without its host stays approved, never runs, and its waiter is woken |
| `Wakeups.FinishItem` | app/tasks.py:29-71 | from any point the sweep can finish its item and has then signalled it |
| `Wakeups.DrainSweep` | app/tasks.py:29-71 | a sweep that does not abort ends with every item it held signalled |
| `Wakeups.FinishApproval` | app/main.py:230-235 | an approver in flight can finish, and then has signalled its item |
| `Wakeups.SleeperCanBeWoken` | app/app_state.py:72-79 | once the sweep goes on, any sleeper whose item was not dropped is woken by the sweep, by the operator's next decision, or by the approver in flight |
| `Wakeups.ApprovalDelivers` | app/main.py:226-235 | approving leads to one execution of the queued text, its stored result, a woken waiter and that result as its answer |
| `Wakeups.ExpiryDelivers` | app/tasks.py:33-60 | a passing re-check leads to execution of the queued text, its stored result, and the automatic answer |
| `Wakeups.ExpiryDecides` | app/storage.py:1000-1014 | on expiry an item is approved iff optimistic, rejected iff neither optimistic nor strict, and then in the batch |
| `Finality.StillExecutingIsNotFinal` | app/tasks.py:38-49 | from any state in which a sleeper's approved item awaits its re-check, steps by which it is reported as approved and still executing and then rejected |
| `Finality.TheGapIsReachable` | app/storage.py:1008-1010 | steps that lead there from any resting state with two expired items, the first of which passes its re-check, and a sleeper on the second |
| `Finality.ApprovedIsFinalExactly` | app/tasks.py:29-49 | whenever others than the sweep can act, an item stays approved in every continuation iff it is approved and the sweep does not hold it before its re-check |
| `Finality.CanBeTakenBack` | app/tasks.py:33-49 | steps, from any point where others than the sweep can act, that reject an approved item whose re-check is still to come |
| `Finality.StillExecutingIsFinalExactly` | app/mcp_transport.py:326-330 | the step that answers "approved, still executing" tells of an approved item without a result, and is final iff no re-check is to come |
| `Finality.ATakenBackApproval` | app/storage.py:1008-1010 | a run from an empty gate in which an approval announced to an agent ends rejected and unrun |
| `Verdicts.RejectedByOperatorExactly` | app/mcp_transport.py:331-333 | a rejected item is reported so iff its timeout did not reject it, and truly, by a decision of an operator in the run, iff it has no automatic mark |
| `Verdicts.MarkTellsWhoDecided` | app/main.py:217-225 | from any good state: an item that gets decided has an automatic mark iff no step of the run was an operator's decision on it while pending |
| `Verdicts.AnswerExactly` | app/mcp_transport.py:323-336 | each answer of a waiter, iff the item's status, result and mark are those it tells of |
| `Verdicts.RecheckIsReportedAsOperator` | app/tasks.py:42-49 | a failing re-check at the item's turn leaves an item that is reported as rejected by operator |
| `Verdicts.AWrongAnswer` | app/tasks.py:33-49 | a run from an empty gate that ends with this answer though no operator decided |
| `LateChanges.ApprovalRunsExactly` | app/main.py:217-231 | under any registries at approval and execution: approved, it runs iff the agent may act at the approval, on the host as listed at the execution, if one is |
| `LateChanges.ExpiryRunsExactly` | app/tasks.py:33-54 | the same on expiry: executed iff the re-check passes, on the host as listed at the execution |
| `LateChanges.RecheckExactly` | app/tasks.py:33-41 | the re-check passes iff host, deny-sets, allow-sets and agent still permit the command, on the records |
| `LateChanges.NothingNewRuns` | app/executor.py:222-228 | on a host switched off or in dry run, no request but the console's is executed or queued |
| `LateChanges.SwitchedOffHostRunsApproved` | app/executor.py:82-98 | steps from any state with a pending item: its host is switched off and to dry run, and the approved item runs there |
| `LateChanges.SwitchedOffHostRunsExpired` | app/tasks.py:34-54 | the same for an optimistic item that expires |
| `LateChanges.ADryRunHostIsWrittenTo` | app/main.py:226-231 | such a run from an empty gate, for any request that is queued |
| `LateChanges.RecheckSeesNamesOnly` | app/tasks.py:37-40 | the re-check refuses for a deny rule added since exactly if it is the command's name, though it now counts for the text of a new request |
| `Finality.ClosedForGood` | app/tasks.py:29-71 | a decided item that neither an approver nor the sweep has never changes and is never run again |
| `Finality.DroppedForGood` | app/tasks.py:73-74 | an item an aborted sweep dropped keeps its status and result and is never run again |
| `CommandSets.CollectCommands` | app/storage.py:607-620 | exactly the commands of the enabled sets of one type |
| `CommandSets.CheckCommandAuthorized` | app/storage.py:647-687 | the verdict on the records, each with its one cause: not listed by the host, listed by a deny-set of the host, of the agent, or missing from the agent's allow-sets |
| `CommandSets.AuthorizedExactly` | app/storage.py:662-687 | authorized iff the host's entries or an enabled allow-set of it list the command, no enabled deny-set of host or agent does, and an agent with an enabled allow-set has it in one |
| `CommandSets.DeniedIsListed` | app/executor.py:206-208 | the rules matched against the text are those of the host's and the agent's enabled deny-sets |
| `CommandSets.GetEffectiveWhitelist` | app/storage.py:623-639 | the merged list, own entries first, set entries only for commands not seen |
| `CommandSets.FindWhitelistEntry` | app/storage.py:690-695 | the first entry for the command |
| `CommandSets.EntryExactly` | app/storage.py:623-639 | the entry that decides: the host's first own one, else the first in the first enabled allow-set that lists the command; none iff nobody lists it |
| `CommandSets.SetEntriesAreNew` | app/storage.py:635-638 | behind its own entries a host shows one entry for each command not seen before |
| `CommandSets.EffectiveWhitelistIsHostAllow` | app/storage.py:623-665 | the displayed whitelist and the verdict's host allow hold the same commands |
| `CommandSets.AuthorizedHasEntry` | app/executor.py:144-165 | an authorized command has its entry, so the pipeline's fallback entry is dead for agents |
| `CommandSets.TighteningNeverEnables` | app/storage.py:663-687 | more denies, fewer allows, an agent instead of none: nothing becomes allowed, as long as an agent with an allow-set keeps one |
| `CommandSets.DisablingEnablesExactly` | app/storage.py:678-685 | disabling an allow-set enables a command exactly if it was the agent's last one and the host still allows it |
| `DenyRules.SegmentsOfSequence` | app/executor.py:59-66 | each of the eight separators, standing by itself, cuts a line into the segments of its parts |
| `DenyRules.SegmentsAreTheText` | app/executor.py:59-66 | the segments with separators between them are the text, and no segment contains a separator |
| `DenyRules.RuleWordsExactly` | app/executor.py:64 | a rule falls into words at white space and only there |
| `DenyRules.SkippedExactly` | app/executor.py:60-72 | skipped are the nine wrappers by name or path, options, numbers and assignments, and nothing else |
| `DenyRules.HitsExactly` | app/executor.py:63-79 | hit iff, in some segment, the first word not skipped begins the words of some rule, the path of the command cut off |
| `DenyRules.Rules` | app/executor.py:64 | the non-empty rules as word lists |
| `DenyRules.TargetOf` | app/executor.py:67-75 | the loop drops exactly the leading wrappers, options, numbers and assignments |
| `DenyRules.DenyHit` | app/executor.py:63-79 | a hit exists iff some rule is a word prefix of some segment's real command; the hit names such a rule |
| `DenyRules.HitsCompose` | app/executor.py:59-66 | a list, pipeline or substitution is hit iff one of its parts is |
| `DenyRules.HitsMonotone` | app/executor.py:63-79 | a union of rule sets hits exactly what one of them hits |
| `DenyRules.WrappersDoNotHideExactly` | app/executor.py:71-75 | words in front leave every command's target unchanged iff each is a wrapper, starts with a dash, is a number or an assignment |
| `DenyRules.OptionValueHides` | app/executor.py:71-77 | the rule rm hits `sudo rm` and not `sudo -u root rm`, whose target is `root rm` |
| `ShellWords.QuoteIsOneLiteral` | app/params.py:131-132 | in unquoted context a quoted value adds exactly its characters, literally, and opens or ends nothing |
| `ShellWords.QuoteRoundTrip` | app/params.py:131-132 | quoting and reading back gives one word, the value (section 2.2.2 of POSIX.1 XCU) |
| `ShellWords.SafeIsUnchanged` | app/params.py:132 | quoting leaves exactly the texts of letters, digits and ten marks as they are |
| `Templates.SequentialIsSimultaneousExactly` | app/params.py:103-143 | in any order, one-by-one substitution equals filling at once if that filling holds no placeholder; for a result without placeholders, exactly then |
| `Templates.NoNamesNoPlaceholder` | app/params.py:74-75 | the leftover check finds nothing iff no placeholder is left |
| `Templates.FillingIsClean` | app/params.py:131-136 | brace-free literals and placeholder-free values leave no placeholder |
| `Params.SortedNamesEnumerate` | app/params.py:104 | the sorted placeholder names list each name once |
| `Params.FillDefaults` | app/params.py:91-97 | arguments completed by defaults, or a required parameter that is missing |
| `Params.CompleteArgs` | app/params.py:84-101 | accepted iff every placeholder has a spec and every argument a placeholder, with the cause otherwise |
| `Params.SubstituteAll` | app/params.py:103-132 | succeeds iff every value passes its checks, with the sequential substitution |
| `Params.ValidateAndSubstitute` | app/params.py:78-143 | returns the resolved command iff the specification has one; every refusal is explained |
| `ValuePolicy.ResolvedExactly` | app/params.py:76-143 | a command is resolved iff exactly its placeholders get a value, given or by default, every value passes its specification, and no placeholder is left |
| `ValuePolicy.ValueExactly` | app/params.py:106-130 | a value passes iff it is short enough, not empty without a default, free of the eleven shell characters unless they are allowed, fully matched by a pattern there is, and no refused path |
| `ValuePolicy.ErrorApplies` | app/params.py:108-130 | the reason given for a refusal applies |
| `ValuePolicy.ProtectedExactly` | app/params.py:32-48 | in any spelling, a path is protected iff its components lie in a listed directory, are a listed file, begin with a listed stem or contain a listed name |
| `Params.ResolvedFillsAtOnce` | app/params.py:104-143 | no leftover placeholder; equal to filling at once iff that is clean |
| `Params.AcceptedPathIsOutside` | app/params.py:27-51 | however spelled, an accepted absolute path lies in no protected directory, contains no protected name, is no protected file and begins with no protected prefix |
| `Params.ArgumentsCannotReshape` | app/params.py:131-132 | with unquoted holes, no choice of values changes the words and operators the shell sees |
| `Substitution.ReturnedIsSimultaneousExactly` | app/params.py:103-143 | with brace-free literals: equal to filling at once iff no value names a later placeholder |
| `Substitution.LaterMentionIsExpanded` | app/params.py:78-143 | accepted input where a value naming a later placeholder is expanded by the later pass |
| `Substitution.ReturnedReadsAsTemplate` | app/params.py:131-143 | the shell reads the returned command as the template with literal values in its holes |
| `Holes.OneWordExactly` | app/params.py:131-132 | a value is added literally to one word, whatever it is, iff the reader is outside quotes |
| `Holes.TemplateSafeExactly` | app/params.py:131-132 | every value in every filling is added as it stands iff every hole is outside quotes and comments |
| `Holes.QuotedPlaceholderFails` | app/params.py:131-132 | a template with a quoted placeholder and a value that ends the word |
| `Secrets.ScrubOutput` | app/storage.py:762-766 | the loop computes the scrubbing of the list in order |
| `Secrets.ScrubbingIsComplete` | app/storage.py:762-766 | no scrubbable listed value survives, whatever the order and overlaps |
| `Secrets.CleanTextIsUnchanged` | app/storage.py:762-766 | a text without listed values is left as it is |
| `Secrets.ScrubbingCompleteExactly` | app/storage.py:762-766 | for bracket-free values: nothing is left on any text iff no value is part of the mark |
| `Overlaps.OneValueCompleteExactly` | app/storage.py:762-766 | scrubbing one value of any kind is complete iff value and mark do not overlap in one of three ways |
| `Secrets.BracketsCanLeak` | app/storage.py:765 | a value with a bracket that scrubbing leaves in the text |
| `Secrets.SubstitutionExact` | app/storage.py:745-759 | succeeds iff every referenced secret exists, is linked and decrypts; the scrub list is their values in order |
| `Secrets.RefusalTells` | app/storage.py:749-756 | a refusal names a reference of the command that is missing, not linked to the host, or cannot be decrypted |
| `Secrets.RefLengthExactly` | app/storage.py:759 | a reference is the mark, an id of at least one character without a brace, and a brace |
| `Secrets.SubstitutionInPlace` | app/storage.py:745-759 | the substituted command is the command with exactly its references replaced by their values |
| `Secrets.NoSecretComesBack` | app/executor.py:101-112 | whatever the remote prints, no scrubbable secret of the command comes back |
| `Executor.ExecuteCommand` | app/executor.py:115-272 | the staged pipeline on the limiter's windows: the specified verdict; only authorized requests are charged, the agent only if the host had room |
| `Executor.Decide` | app/executor.py:191-272 | the stages after the limiter: parameters, deny rules, dry run, mode |
| `Executor.ApiExec` | app/main.py:163-182 | /api/exec: one check with the default limit before the pipeline, and on its window the pipeline's own |
| `Executor.WriteSandboxFile` | app/mcp_transport.py:422-466 | the file tool's verdict, with the same authorization and modes |
| `Executor.AdmittedIsCleared` | app/executor.py:143-260 | what runs at once or is queued for an agent was cleared; at once exactly in auto mode; timeout 0 only when strict |
| `Executor.AdmittedExactly` | app/executor.py:143-260 | an agent's request runs or is queued iff it passes transport, caller and limiter and is cleared |
| `AdmissionStages.CallerRefusesExactly` | app/mcp_transport.py:382-392 | a caller turns a request away for the listed causes and no other: unknown or disabled host, missing field, unusable agent, host outside the agent's list |
| `AdmissionStages.StaysOnAllowedHosts` | app/mcp_transport.py:437-438 | over MCP an agent with a list of hosts gets no command and no file onto another host |
| `AdmissionStages.RuleRefusesExactly` | app/executor.py:144-162 | what the rule refuses, on the records; the console is asked for a whitelist entry only |
| `AdmissionStages.RateRefusesExactly` | app/executor.py:167-189 | refused by the limiter iff the host, or the agent if there is one, has no room; the console never |
| `AdmissionStages.ParametersRefuseExactly` | app/executor.py:192-203 | refused iff the entry has parameters and its template cannot be filled in |
| `AdmissionStages.DenyRulesRefuseExactly` | app/executor.py:205-217 | refused iff a command listed in an enabled deny-set of host or agent hits the text that would run |
| `AdmissionStages.CommandOutcomeExactly` | app/executor.py:219-257 | what is not refused is shown, executed or queued, in the entry's mode before the host's, with the host's timeout unless strict |
| `AdmissionStages.FileOutcomeExactly` | app/mcp_transport.py:449-468 | the same for a file, into the host's directory or the default one |
| `AdmissionStages.MayActExactly` | app/main.py:215-217 | who may act at approval and re-check: no agent, the global key, or a usable one |
| `Executor.ConsoleIsStillBounded` | app/main.py:195-203 | the console skips approval and dry run but never whitelist and host denies |
| `Executor.NamedAgentIsActiveExactly` | app/mcp_transport.py:117-122 | a named agent's request that is not turned away has its agent active iff it was not deleted since the token was accepted |
| `Executor.DeletedAgentIsExecuted` | app/mcp_transport.py:340-343 | a request of an agent deleted in between, executed at once in auto mode although the agent may not act |
| `SlidingWindow.StoredShowsHistory` | app/app_state.py:54-58 | the pruned list shows exactly the recent part of everything recorded |
| `SlidingWindow.AllowedExactly` | app/app_state.py:55-56 | refused iff the limit is reached among the recent records |
| `SlidingWindow.AtMostLimitPerWindow` | app/app_state.py:46-59 | every half-open window holds at most the limit of records |
| `RateLimit.RateLimiter.Check` | app/app_state.py:46-59 | the limiter: verdict and new window of its key, other keys untouched, no limit means no record |
| `RateLimit.ApiNeedsTwoPlaces` | app/main.py:172 | /api/exec passes iff there is room at the first check, and at the second for one more beside it; without a limit, iff fewer than ten |
| `RateLimit.LimitOneAdmitsNothing` | app/executor.py:169-171 | with a limit of 1, /api/exec never passes |
| `RateLimit.ApiRunsAtHalfTheLimit` | app/executor.py:167-171 | per minute, twice the /api/exec commands plus the MCP commands stay within the limit, unauthorized calls in between included |
| `Lockout.Lockouts.Locked` | app/auth.py:230-233 | prunes one address's failures and compares |
| `Lockout.Lockouts.RecordFailure` | app/auth.py:236-237 | one more failure for one address |
| `Lockout.Lockouts.Clear` | app/auth.py:240-241 | forgets one address |
| `Lockout.RequestsAreTheirOps` | app/routes_auth.py:56-77 | what the routes leave of an address's failures, request by request, is what the windows' uses leave |
| `Lockout.FailuresAreBounded` | app/routes_auth.py:56-69 | between clears at most the allowed failures per window; the routes' list refuses iff that many are recent |
| `Lockout.GuessingLocks` | app/auth.py:230-237 | after as many wrong requests as allowed, none of them turned away, the next one within the window is |
| `TwoFactor.SecondFactor.CheckCode` | app/auth.py:159-172 | accepts the first matching step iff it is newer than the last accepted one |
| `TwoFactor.CodeAcceptedExactly` | app/auth.py:159-172 | accepted iff the first of the three steps it fits is newer than the last accepted |
| `TwoFactor.StepsAreHalfMinutes` | app/auth.py:163-166 | the three steps are the half minute of the clock, the one before and the one after |
| `TwoFactor.CheckedExactly` | app/auth.py:175-189 | accepted iff a fresh code of the factor, or long enough and verifying a stored hash; the first such hash goes, and nothing else |
| `TwoFactor.ConfirmedExactly` | app/auth.py:207-215 | confirmed iff within 15 minutes and with a fresh code of the pending secret, which becomes the factor's |
| `TwoFactor.SecondFactor.CheckSecondFactor` | app/auth.py:175-189 | code, else the first recovery hash that verifies, which is removed |
| `TwoFactor.VerifyingIsListed` | app/auth.py:182-186 | the hash found is listed and verifies; none is found iff none verifies |
| `TwoFactor.SecondFactor.ConfirmEnrollment` | app/auth.py:207-215 | a pending enrollment becomes the factor within 15 minutes and with a fresh code |
| `TwoFactor.AcceptedStepsIncrease` | app/auth.py:167-171 | accepted steps strictly increase over any run, enrollments included (section 5.2 of RFC 6238) |
| `TwoFactor.FewCodesPerStretch` | app/auth.py:163-171 | in any stretch of time at most its number of steps plus two codes are accepted |
| `TwoFactor.RecoveryOnce` | app/auth.py:182-188 | each recovery hash is accepted at most once |
| `Sessions.StepKeeps` | app/auth.py:260-288 | every step keeps how each token relates to the one it was issued for; clock, epoch and issue list only grow |
| `Sessions.NewSessionLives` | app/auth.py:260-279 | a new session is accepted exactly until its shorter lifetime is over |
| `Sessions.RefreshLives` | app/auth.py:309-315 | a refreshed one until the old absolute or the new idle lifetime is over |
| `Sessions.StepUpLives` | app/auth.py:347-352 | a step-up permits sensitive actions for exactly its time, within the session's lifetimes |
| `Sessions.LifetimeIsAbsolute` | app/auth.py:309-315 | a chain of refreshes and step-ups is never accepted beyond its start plus the absolute lifetime |
| `Sessions.OutlivesLoginOnlyByRestart` | app/routes_auth.py:116-154 | a lifetime counts from the login iff no confirmation or password change lies on the lineage, else from the last such restart |
| `Sessions.RestartLives` | app/routes_auth.py:154 | the token of a restart lives as long as that of a new login |
| `Sessions.ConfirmationOutlivesLogin` | app/routes_auth.py:142-154 | login, step-up, confirmation: still logged in after twice the absolute lifetime |
| `Sessions.StepUpIsRecent` | app/auth.py:347-352 | a sensitive action goes back to one step-up, no longer ago than granted |
| `Sessions.EnrollmentNeedsConfirmation` | app/routes_auth.py:141-154 | an enrollment session yields a full one only through a confirmed enrollment |
| `Sessions.BumpEndsSessions` | app/auth.py:106-108 | after an epoch bump no earlier token is ever accepted again |
| `AuthRoutes.AuthRoutes.LogIn` | app/routes_auth.py:42-79 | each reply iff its cause; a wrong password or code adds one failure, a login clears them, a question for the code leaves them; effect on sessions and factor |
| `AuthRoutes.AuthRoutes.StepUp` | app/routes_auth.py:93-105 | granted iff unlocked, full session, password and code; else one more failure, or none if locked; the code spent iff it was checked |
| `AuthRoutes.AuthRoutes.BeginTotp` | app/routes_auth.py:131-138 | enrollment starts from an enrollment session or after a step-up |
| `AuthRoutes.AuthRoutes.ConfirmTotp` | app/routes_auth.py:142-154 | a confirmed enrollment becomes the factor, switches 2FA on and issues a full session; a refused one changes nothing |
| `AuthRoutes.AuthRoutes.ChangePassword` | app/routes_auth.py:116-127 | needs a stepped-up session and the current password; bumps the epoch |
| `AuthRoutes.AuthRoutes.RevokeSessions` | app/routes_auth.py:179-185 | needs a full session; bumps the epoch |
| `Flood.EveryEventIsAccountedFor` | app/events.py:157-163 | events = first messages + summarised + still counted + dropped |
| `Flood.FlushSendsTheCount` | app/events.py:172-179 | draining closes a window that is over with a summary of its count, after which all events are sent, summarised or dropped; it leaves an open one alone |
| `Flood.EmitExactly` | app/events.py:157-163 | an event is sent at once iff its key has no open window, else counted |
| `Flood.DroppedExactly` | app/events.py:159-162 | nothing is dropped iff no event re-opens an expired window that holds a count |
| `Flood.ACountCanBeLost` | app/events.py:159-162 | three events that lose one |
| `Flood.FirstsAreSpaced` | app/events.py:158-163 | first messages of a key are at least a window apart |
| `EventBus.EventBus.Emit` | app/events.py:157-163 | the key's window and messages change as modelled, no other key's |
| `EventBus.EventBus.FlushAgg` | app/events.py:172-179 | every key is drained as modelled |
| `Outbox.PostsAreBounded` | app/events.py:377-403 | at most max_tries posts, each after its pause, the failed ones counted; given up only after a final error or all of them |
| `Outbox.PostedExactly` | app/events.py:377-399 | a row is posted in a pass that reaches it iff it is pending, the gate is there, and its time or the pause after its last post has come |
| `Outbox.DecidedIsFinal` | app/events.py:380-381 | a row that left pending keeps its state and is never posted again |
| `Outbox.StatusTellsWhatHappened` | app/events.py:384-403 | sent, skipped, fallback or failed: each iff the deciding pass went that way |
| `Outbox.WaitsSum` | app/events.py:399 | the first n pauses sum to 5(2^n - 1), and to 635 + 600(n - 7) from the seventh on |
| `Outbox.WaitsNeverShrink` | app/events.py:399 | pauses never shrink and never exceed ten minutes |
| `Outbox.PostsAreApart` | app/events.py:398-399 | no post comes earlier than the sum of the pauses after the first |
| `Outbox.Table.Select` | app/events.py:379-381 | the first twenty due rows in id order |
| `Outbox.Table.Deliver` | app/events.py:377-403 | one pass visits each selected row once and no other |
| `YamlCache.LoadTellsTheTruth` | app/storage.py:82-102 | after any atomic writes a load returns what the file says, equal modification times included |
| `YamlCache.UnnoticedExactly` | app/storage.py:90-92 | a foreign write is missed iff it keeps the cached modification time and changes the data |
| `YamlCache.YamlFile.LoadFile` | app/storage.py:82-95 | the load through the cache returns the file's content |
| `YamlCache.YamlFile.WriteFile` | app/storage.py:98-102 | writing drops the cache entry |
| `SetCache.LookupIsCurrent` | app/storage.py:574-604 | cached lookup = uncached lookup under upsert and delete; again from 5 s after an import |
| `SetCache.ImportLagsExactly` | app/storage.py:1050-1052 | after an import a lookup differs iff an unexpired cached answer is one the import changed |
| `SetCache.ImportMayLag` | app/storage.py:1050-1052 | a removed set still answered within the 5 s after an import |
| `SetCache.CommandSetStore.GetCommandSet` | app/storage.py:574-581 | the cached answer and the refreshed entry |
| `SetCache.CommandSetStore.UpsertCommandSet` | app/storage.py:584-594 | the first set with the id is replaced in place, or the set appended; its entry is dropped |
| `SetCache.CommandSetStore.DeleteCommandSet` | app/storage.py:597-604 | all sets with the id go, and the entry; reports whether there was one |
| `SetCache.FindExactly` | app/storage.py:574-581 | the lookup finds the first set with the id, and none iff there is none |
| `SetCache.RemovedExactly` | app/storage.py:597-600 | deleting keeps the sets with other ids, in their order |
| `Grants.NextKeeps` | app/routes_admin.py:265-345 | every operation keeps that an end of grant goes back to a toggle-on |
| `Grants.BorrowedExactly` | app/routes_admin.py:332-345 | an end of grant is borrowed iff the agent was copied from one with an end of grant and not toggled since |
| `Grants.ActiveOnlyInsideAGrant` | app/storage.py:402-409 | a timed agent is active only within the minutes configured at a toggle-on, of another agent exactly if it was copied from a granted one and not toggled since |
| `Grants.ToggleGrantsExactly` | app/routes_admin.py:318-320 | toggled on, a timed agent is active for exactly its minutes; toggled off, its grant is gone |
| `Grants.ToggleSwitches` | app/routes_admin.py:313-321 | toggling switches an agent and touches nothing else; a permanent one is usable exactly while switched on |
| `Grants.CopyInheritsTheGrant` | app/routes_admin.py:332-345 | a copy enabled by an update is active on the original's grant |
| `Grants.ExpiryChangesNoVerdict` | app/tasks.py:78-99 | the expiry loop changes no agent's verdict from then on |
| `Grants.AgentStore.CreateAgent` | app/routes_admin.py:266-277 | a new agent has no grant |
| `Grants.AgentStore.UpdateAgent` | app/routes_admin.py:281-300 | an update keeps the grant of a timed agent and clears that of a permanent one |
| `Grants.AgentStore.ToggleAgent` | app/routes_admin.py:313-321 | toggling a timed agent on starts a grant, toggling off ends it |
| `Grants.AgentStore.DuplicateAgent` | app/routes_admin.py:332-343 | a copy under a longer id is off and carries the original's end of grant |
| `Grants.AgentStore.ExpireGrants` | app/tasks.py:85-92 | exactly the expired and ungranted timed agents are switched off and lose their end of grant |
| `Drain.ReadReady` | app/ssh_client.py:450-459 | a reading loop fills the buffer up to the limit and notes whether more came |
| `Drain.RunChannel` | app/ssh_client.py:448-466 | output = first bytes of stdout, error likewise, cut iff more came; ends in the first settled round or at the deadline |
| `Drain.SettlesExactly` | app/ssh_client.py:460-464 | the loop is done after a quiet round with closed streams, or more than half a second after the first quiet round |

## Left out

- HTTP routing, request parsing, templates, translations, exports, Prometheus text, OAuth registration and the consent page's
  redirects, Telegram and SMTP sending: plumbing around the decisions modelled here.
- SSH itself: an execution is an arbitrary outcome appended to a log. `exec_delay` is part of the time between a decision and
  its execution; nothing is re-checked after it, in the code or here.
- `stepup_https_only` and the origin check, which refuse requests by scheme and origin, and authentication by a reverse proxy.
- Cryptography: tokens are unforgeable records, one-time codes a function of secret and step, hash verification a function of
  hash and code. Whether a password verifies is an input of the routes.
- Process crashes, restarts (which forget the limiter, the lockouts, the last accepted step and waiting events), exceptions
  inside a storage function, and writes by several processes. The abort of the sweep by an exception is modelled.
- Backup restore and bulk import, except for their effect on the command-set cache.
- Retention: trimming of audit, queue and outbox rows by age.
- `resolved_at` and other display fields of queue items; the audit trail.
- `scrub_generic` and administrators' patterns: pattern matching is a function given to the model; generic scrubbing comes
  after the scrubbing proved here.
- Aliasing: the YAML cache hands out objects that callers change before writing them back; here every load is a value.
  `Grants.AgentStore` holds agents by id, not in file order.
- Characters outside ASCII in identifiers, digits and white space; shell expansions inside template text that is not a value.
- The clock is assumed not to run backwards where an order of times matters (windows, flood windows, sessions, set cache); a
  route reads it once.
- Secrets.ScrubbingCompleteExactly: characterizes complete lists among bracket-free values; for a value with brackets
  `Overlaps.OneValueCompleteExactly` does so alone, and `Secrets.ScrubbingIsComplete` covers the other values of its list.
- SharedState.Gate.SetQueueResult: does not model which fields of a result are kept, nor that the payload is dropped.
- Wakeups.SleeperCanBeWoken: says that a wake-up stays possible by finishing what is in motion, not that a scheduler performs it.
- Lockout.FailuresAreBounded: for a fixed window length and number of attempts, as long as the administrator keeps the settings.
- Outbox.PostsAreBounded: for a fixed `max_tries`, and as long as no exception interrupts a pass between a post and its mark.
- Flood.FirstsAreSpaced: for a fixed window length.
