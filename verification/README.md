# Verified models of the stateful kernels

A Dafny project that models the small stateful kernels of the repository and proves what they are
meant to guarantee: over every run, every input, every reachable state. `dafny verify dfyconfig.toml`
checks all of it. One file per component, each a module of the same name.

| files | component |
|---|---|
| `EditDistance`, `Agent` | the Levenshtein drift of a prompt and how it reaches the kernel |
| `WindowRing`, `RiskAggregate`, `Hysteresis`, `CoherenceKernel` | windowed counters, risk aggregate, regime machine |
| `AuditLedger`, `Simulation` | the hash-chained audit ledger and simulated plans |
| `PathNormalize`, `ForbiddenScan`, `Risk`, `Policy`, `Refusals` | path normalisation, policy evaluation, risk, and all that can be wrong with a proposal |
| `Sealing`, `ExecutionPlan`, `Snapshot` | confirmation, sealed plans, manifests, receipts |
| `Proposal`, `DriveProposal` | the way of a parsed proposal to its plan, and one whose plan is refused |
| `LedgerChecks`, `PressureStore`, `CorpusStore` | guarded ledgers and their independent reconcilers |
| `Anonymizer`, `RotateMemory` | case export anonymiser, monthly shard rotation |
| `ReleaseGate`, `IndexPayload`, `IndexReader`, `IndexMerge` | release state machine, site index payload, how it is read back, and merge |
| `Resolver`, `Governor`, `ClockLock` | constraint packs, activation governor, clock lock |
| `Text`, `Json`, `Wrappers` | strings, order, replacement, strip; parsed documents; optional values |

Code that changes things step by step is modelled by methods and classes, each proved against a
specification function or a declarative predicate; the laws are lemmas about those. Everything the
code calls but does not show is a parameter: hashes (assumed collision-free only where a lemma says
so), schema validation, the clock, file-system answers, `exp`, scope patterns, rule predicates.

## What the code does not do

Some promises hold only under a condition. The code is modelled as it is; each of these is a lemma or
a contract with the condition, and most come with a lemma about a concrete input that fails.

- A refused append to a missing audit ledger leaves an empty file behind. That file verifies clean,
  while a missing one does not (`AuditLedger.Ledger.Append`, `AuditLedger.Ledger.Verify`).
- A simulation can start and never be closed. The session id of a plan may have 120 characters, but it is
  only a part of the event ids, which may not be longer either. On a clean ledger of n events, where
  nothing but the length of its ids can speak against the events of the plan, a simulation succeeds exactly
  when the session id and the digits of n + 1 take at most 99 characters, and it leaves
  `simulation_started` alone exactly when that event still fits and `simulation_finished` does not
  (`Simulation.SessionFitsExactly`, `Simulation.LongSessionIsNeverClosed`).
- `./C:/x` normalises to `C:/x`, which the same function refuses (`PathNormalize.DriveResult`). The
  normal form is a fixed point exactly when it does not look like a drive path
  (`PathNormalize.NormalizedTwice`). So a proposal that reads `./C:/x` is admissible, and the schema of
  plans refuses its plan whatever the hash (`DriveProposal.DrivePlanIsRefused`); among plans that it could
  refuse for nothing else, it refuses exactly those with a path that is not its own normal form
  (`Proposal.PlanRefusedExactly`).
- On Windows a part such as `D:` replaces the path it is joined to. The lookup of a declared path stays
  below an absolute root exactly when no part names another drive (`Snapshot.InsideWindowsExactly`,
  `Snapshot.NormalPathLeavesDrive`).
- The pressure ledgers look ids up in stripped form but store them as given. A reference with
  surrounding whitespace passes the guards and breaks the reconciler's check at once, and only such a
  reference does (`PressureStore.AppendExactly`, `PressureStore.PaddedReferenceBreaks`); an id with
  surrounding whitespace, and no other, passes the duplicate guard a second time
  (`PressureStore.TwiceExactly`, `PressureStore.PaddedIdBreaks`). The corpus ledgers do not have this gap.
- The anonymiser replaces one name at a time. A replacement never brings back a name, whatever the
  text and whatever is replaced, exactly when the name does not overlap the alias: neither lies inside
  the other and no end of one is a beginning of the other (`Anonymizer.ApartExactly`,
  `Anonymizer.NeverLeaksExactly`). A name that does overlap can come back: the exporter's own map for a
  service `xS` turns `xxS` into `xSVC_01` (`Anonymizer.OverlappingNameLeaks`).
- Also when names and aliases do not overlap, exported files can name a service. In `incident.json` and
  `memory.json` values are rewritten, keys are not: the document leaks a name exactly when a key mentions it (`Anonymizer.JsonLeaksThroughKeysOnly`,
  `Anonymizer.KeyLeaks`). In `outcomes.jsonl` only the notes are rewritten, and lines that do not parse
  are kept: the file leaks a name exactly when such a line, or another field of an entry, mentions it
  (`Anonymizer.OutcomesLeakExactly`, `Anonymizer.OutcomeValueLeaks`).
- Adding rules loosens a decision exactly when it was not ALLOW, an emergency allowance now applies and
  no rule fails (`Resolver.LoosensExactly`, `Resolver.EmergencyLoosens`).
- The clock lock is exclusive, through a run and whatever follows it short of another removal, exactly
  when no process removes the file of a process that holds the lock (`ClockLock.ExclusionExactly`). It is
  lost in two ways: a cycle longer than the stale limit is joined by a second process
  (`ClockLock.StolenFromStart`); and after one failed pid write, two processes that both read the stale
  age recover the file one after the other and both get inside (`ClockLock.RecoverersRace`).
- The plan builder compares the confirmation with the decision but neither with the proposal: one hash
  runs through the plan exactly when the decision was made about that proposal
  (`ExecutionPlan.OneHashExactly`, `ExecutionPlan.MixedHashes`). The approve command always meets that.
- The receipt builder accepts any verified manifest next to any verified plan
  (`Snapshot.BuildReceipt`); a simulation always takes the manifest from its own plan
  (`Snapshot.Simulate`).
- Declarations of a binding that are not about a parameter raise issues that the evaluator drops; they
  never refuse anything (`Policy.ResolveDeclaredPaths`).

## Model

| member | source | states |
|---|---|---|
| `EditDistance.Levenshtein` | app/agent.py:77-92 | the two-row loop, with its swapped call, returns exactly the recursive minimum number of insertions, deletions and substitutions |
| `EditDistance.DistIsLeastEdits` | app/agent.py:77-92 | that number is reached by single edits of the text, and no shorter sequence of edits reaches the other text |
| `EditDistance.DistSymmetric` | app/agent.py:79-80 | the distance does not depend on the order of the arguments, which the swapped call relies on |
| `EditDistance.DistTriangle` | app/agent.py:77-92 | triangle inequality, for all three texts |
| `EditDistance.DistZero` | app/agent.py:77-92 | zero exactly for equal texts |
| `EditDistance.CellAtMost` | app/agent.py:77-92 | no distance between prefixes exceeds the longer of the two |
| `EditDistance.NormalisedDrift` | app/agent.py:100-104 | the normalised drift lies in the unit interval, is zero exactly for the template itself, and times the longer length gives the distance back |
| `Agent.SignalAgent.NoteDrift` | app/agent.py:100-107 | one call moves the kernel's drift signal: zero exactly for the template, one exactly when the distance reaches the configured share of the longer text; history and regime stay |
| `Hysteresis.FailureExactly` | app/audit/coherence_kernel.py:227-252 | over a whole run, FAILURE holds exactly when some risk so far reached `failure_enter`: it is absorbing and entered at the first such value |
| `Hysteresis.RegimeExactly` | app/audit/coherence_kernel.py:227-252 | over a whole run, which of the three other regimes holds, by thresholds and risk values alone: STABLE when it was never left or PRESSURE was released and the risk has been quiet since, PRESSURE when it was entered from below or above and the risk has stayed in its band since, UNSTABLE when it was entered from PRESSURE and the risk has stayed above its exit since |
| `Hysteresis.FirstSwitches` | app/audit/coherence_kernel.py:227-252 | quiet values and then one that reaches the entry threshold give PRESSURE; the next value leads to UNSTABLE, back to STABLE or nowhere, by the thresholds |
| `Hysteresis.ReversalsBounded` | app/audit/coherence_kernel.py:227-252 | reversals of direction among regime switches, times the smaller of the two hysteresis gaps (PRESSURE and UNSTABLE, entry minus exit), never exceed the total variation of the risk, for any thresholds and any run, FAILURE included |
| `Hysteresis.ReversalDown` | app/audit/coherence_kernel.py:227-252 | the bound is the best possible: falling from the entry threshold below the exit is one reversal, at the price of just that way |
| `Hysteresis.ReversalUp` | app/audit/coherence_kernel.py:227-252 | and so is coming back |
| `Hysteresis.TrailFollowsRun` | app/audit/coherence_kernel.py:227-252 | the machine whose reversals are counted is the kernel's own |
| `Hysteresis.DefaultGap` | app/audit/coherence_kernel.py:54-70 | with the default thresholds that gap is 0.05 |
| `WindowRing.Advanced` | app/audit/coherence_kernel.py:137-145 | moving to the next slot and clearing it keeps the ring equal to the windowed part of the full log |
| `WindowRing.Recorded` | app/audit/coherence_kernel.py:147-152 | so does adding to the current slot |
| `WindowRing.RingSumIsWindowTotal` | app/audit/coherence_kernel.py:169-172 | the sum of the ring equals the total recorded in the current and the previous slots-1 tick steps of a full unbounded log |
| `RiskAggregate.AggregateWithin` | app/audit/coherence_kernel.py:193-205 | the aggregate stays between any bounds of the five signals and is not clamped then |
| `RiskAggregate.AggregateMonotone` | app/audit/coherence_kernel.py:193-205 | raising any signal never lowers the aggregate |
| `RiskAggregate.AggregateIs` | app/audit/coherence_kernel.py:193-205 | the risk times the total weight is the share 1 - alpha of the signals, each with its own weight, and the share alpha of the largest signal |
| `RiskAggregate.AggregateInUnit` | app/audit/coherence_kernel.py:193-205 | whatever the weights, the risk lies in the unit interval and is the blend itself where that does |
| `RiskAggregate.DefaultsConvex` | app/audit/coherence_kernel.py:27-77 | the default weights meet the condition of the two laws above |
| `CoherenceKernel.TruncationKeepsSlope` | app/audit/coherence_kernel.py:207-225 | cutting the history back never changes the slope computed from it |
| `CoherenceKernel.SlopeExactly` | app/audit/coherence_kernel.py:207-219 | the slope times the time is the rise of the risk, zero when it fell or there are too few samples |
| `CoherenceKernel.SlotsCoverWindow` | app/audit/coherence_kernel.py:109-112 | the slots cover the window but for a part of a tick, and there is at least one |
| `CoherenceKernel.SignalsExplained` | app/audit/coherence_kernel.py:169-191 | what the five signals are: the first one minus the exponential of the violations, the second and third as stored, the retries zero, one or their share of the largest rate, the staleness above or below one half by the target time |
| `CoherenceKernel.ReportExactly` | app/audit/coherence_kernel.py:254-285 | the reported stability is one half exactly where the raw one is one, and grows with it |
| `CoherenceKernel.Kernel.constructor` | app/audit/coherence_kernel.py:105-128 | a new kernel mirrors empty logs and starts STABLE |
| `CoherenceKernel.Kernel.AdvanceSlot` | app/audit/coherence_kernel.py:137-145 | one step of that loop |
| `CoherenceKernel.Kernel.AdvanceSlots` | app/audit/coherence_kernel.py:137-145 | the loop of `tick` advances by any number of steps, also past the whole window, and keeps the mirrors |
| `CoherenceKernel.Kernel.Tick` | app/audit/coherence_kernel.py:130-145 | a tick advances by the whole steps that have passed and leaves 0 <= now - tick_ts < tick_seconds; earlier times change nothing |
| `CoherenceKernel.Kernel.RecordRequest` | app/audit/coherence_kernel.py:147-149 | the request and its retries enter the logs at the current step, negative counts as zero |
| `CoherenceKernel.Kernel.RecordConstraintViolation` | app/audit/coherence_kernel.py:151-152 | as above for violations |
| `CoherenceKernel.Kernel.UpdateContextDrift` | app/audit/coherence_kernel.py:154-156 | the drift signal is zero exactly for no drift, one exactly from the largest drift on, and its share in between |
| `CoherenceKernel.Kernel.UpdateToolInstabilityRatio` | app/audit/coherence_kernel.py:158-159 | likewise for the open share of the tools |
| `CoherenceKernel.Kernel.RecordBreakerReset` | app/audit/coherence_kernel.py:161-162 | notes the time of the reset |
| `CoherenceKernel.Kernel.ComputePhi` | app/audit/coherence_kernel.py:169-191 | the signals are those of the full logs over the window |
| `CoherenceKernel.Kernel.SignalsFromLogsInUnit` | app/audit/coherence_kernel.py:169-191 | all five signals lie in the unit interval |
| `CoherenceKernel.Kernel.ComputeEscalation` | app/audit/coherence_kernel.py:207-225 | the escalation reads the slope of the full history off the truncated one |
| `CoherenceKernel.Kernel.UpdateRegime` | app/audit/coherence_kernel.py:227-252 | one step of the machine keeps the regime equal to the run over the history |
| `CoherenceKernel.Kernel.Stability` | app/audit/coherence_kernel.py:254-285 | the raw and the reported stability; the reported one lies in the unit interval |
| `CoherenceKernel.Kernel.AbsorbRisk` | app/audit/coherence_kernel.py:207-252 | escalation and regime step together |
| `CoherenceKernel.Kernel.Assess` | app/audit/coherence_kernel.py:254-285 | the snapshot's part after the window has been advanced: every reported field and the new history and regime |
| `CoherenceKernel.Kernel.TakeSnapshot` | app/audit/coherence_kernel.py:254-285 | one snapshot appends its risk to the history, moves the regime by one step of the machine and reports risk, coherence, escalation and stability of the full logs; each of its signals is what the counts in the window and the stored values make it |
| `CoherenceKernel.Kernel.RegimeOfAnyRun` | app/audit/coherence_kernel.py:227-285 | for a kernel after any sequence of calls: FAILURE exactly when some snapshot reached the threshold, and the reversals of its regime, times the smaller hysteresis gap, bounded by the movement of its risk |
| `CoherenceKernel.Kernel.RegimeFromRisks` | app/audit/coherence_kernel.py:227-285 | for a kernel after any sequence of calls: STABLE, PRESSURE and UNSTABLE by when they were entered and the bounds the risks of the history have kept since |
| `CoherenceKernel.Kernel.HistoryKept` | app/audit/coherence_kernel.py:207-212 | the kept history is the end of the full one: 20 samples, or two more than the slope looks back |
| `AuditLedger.SameHeadSameLedger` | app/governed_shell/logstore.py:37-49 | with a collision-free hash, two non-empty clean ledgers with the same last record hash are equal record for record |
| `AuditLedger.SameHashSamePrefix` | app/governed_shell/logstore.py:37-49 | equal hashes at two positions of two clean ledgers mean equal positions and equal records up to there |
| `AuditLedger.AppendCleanIff` | app/governed_shell/logstore.py:121-141 | an attempted append gives a clean ledger exactly when the ledger was clean before |
| `AuditLedger.AcceptedOnClean` | app/governed_shell/logstore.py:121-141 | on a clean ledger an event is accepted exactly when its index is the length and its sealed form passes the schema |
| `AuditLedger.AcceptedExactly` | app/governed_shell/logstore.py:92-141 | on any ledger, by its last line that is not blank: which event is accepted, and the exact event that is written |
| `AuditLedger.ReachableIsClean` | app/governed_shell/logstore.py:273-287 | every ledger reachable by attempted appends is clean |
| `AuditLedger.Ledger.Append` | app/governed_shell/logstore.py:273-287 | the lines after an append, when it is accepted and what it returns; a refused append adds nothing but still leaves a file, so the file verifies afterwards exactly when it did before or did not exist |
| `AuditLedger.Ledger.Verify` | app/governed_shell/logstore.py:178-270 | clean exactly when the file exists and the declarative chain predicate holds; clean or not, the reported count is the number of lines before the first unreadable one, the head is the hash of the last of them, and the issues are exactly those of each line, with its number |
| `AuditLedger.Ledger.ReadEvents` | app/governed_shell/logstore.py:144-175 | reading succeeds exactly when every line is valid |
| `AuditLedger.Ledger.NextEventIndex` | app/governed_shell/executor.py:40-43 | the length, available exactly when every line is valid, so always on a clean ledger |
| `Simulation.AppendSimulationEvent` | app/governed_shell/executor.py:46-73 | on any ledger: exactly when the event is written, and the exact lines afterwards |
| `Simulation.FitsOnClean` | app/governed_shell/executor.py:46-73 | on a clean ledger an event fits exactly when the schema accepts it unchained and chained |
| `Simulation.CloseSimulation` | app/governed_shell/executor.py:246-291 | the part after `simulation_started`: on any ledger the exact closing event and the outcome |
| `Simulation.SimulatePlan` | app/governed_shell/executor.py:207-291 | on any ledger and for every exit path: success exactly when plan and builders are fine and both events fit one behind the other, the exact lines left, and a chain neither broken nor repaired |
| `Simulation.LinesTellOutcome` | app/governed_shell/executor.py:207-291 | the lines tell the outcome: nothing new exactly when it never started, started and finished with their hashes exactly when it succeeded, otherwise started alone or followed by the failure with its class name, which is there whenever it fits |
| `Simulation.UnreadableStaysAsItIs` | app/governed_shell/executor.py:40-73 | a ledger with an unreadable line gets no event from a simulation |
| `Simulation.SessionFitsExactly` | app/governed_shell/schemas/audit_event.v1.json:40-45 | on a clean ledger, when only the length of event ids can be refused: the exact session lengths for success and for a started event that stays alone |
| `Simulation.LongSessionIsNeverClosed` | app/governed_shell/executor.py:207-291 | a plan with a session id of 99 characters, on an empty ledger: the started event stays alone and the simulation fails |
| `Sealing.Verify` | app/governed_shell/execution_plan.py:216-244 | no issue exactly when the shape holds and the seal is the recomputed hash |
| `Sealing.SealDetermines` | app/governed_shell/execution_plan.py:121-133 | under a collision-free hash, two verified documents are equal exactly when their seals are |
| `PathNormalize.NormalizeRelativePath` | app/governed_shell/normalize.py:33-58 | the segment loop computes the normal form, with the same refusals |
| `PathNormalize.RefusedExactly` | app/governed_shell/normalize.py:33-58 | each of the three refusals exactly under its condition on the characters of the path |
| `PathNormalize.NormalizedParts` | app/governed_shell/normalize.py:33-58 | the parts of an accepted path are exactly its non-empty, non-dot segments in order, none of them dot-dot or holding a separator or forbidden character |
| `PathNormalize.NormalizedTwice` | app/governed_shell/normalize.py:33-58 | normalising again gives the same path, or is refused as absolute, exactly according to the drive-letter form of the result |
| `PathNormalize.PlainIsNormal` | app/governed_shell/normalize.py:33-58 | any plain segments that do not look like a drive make a normal form and come apart into themselves |
| `PathNormalize.DriveResult` | app/governed_shell/normalize.py:33-58 | an accepted path whose normal form is refused: `./C:/x` |
| `PathNormalize.NormalizedAlike` | app/governed_shell/normalize.py:33-58 | two accepted paths have the same normal form exactly when they keep the same segments |
| `PathNormalize.SplitJoin` | app/governed_shell/normalize.py:33-58 | splitting a joined path gives its segments back |
| `ForbiddenScan.ScanFields` | app/governed_shell/policy.py:132-143 | the matches are exactly the paths, at any depth, to fields with a forbidden name |
| `ForbiddenScan.ScanTokens` | app/governed_shell/policy.py:146-158 | the matches are exactly the texts at any depth whose stripped lower-case form is a forbidden token |
| `ForbiddenScan.LowerExactly` | app/governed_shell/policy.py:146-158 | lower case changes the capital letters, by their codes, and nothing else |
| `Risk.DeriveEffectiveRisk` | app/governed_shell/risk.py:75-149 | the level is critical exactly with a native operation or a destructive identifier, else high exactly with a declared write, a write parameter or a capability, else medium exactly with a recursive listing, else low; the factors are those present, without repetition; confirmation is spared exactly where the rule of the level says so |
| `Risk.RiskByFields` | app/governed_shell/risk.py:75-128 | that reading of the levels on the fields of the bindings is the same as the weight of the heaviest factor |
| `Risk.FactorByFields` | app/governed_shell/risk.py:89-128 | each factor on the fields of one binding |
| `Json.FalsyExactly` | app/governed_shell/risk.py:48-61 | which values count as false |
| `Risk.OrderIrrelevant` | app/governed_shell/risk.py:89-128 | neither the order of the bindings nor their repetition changes the risk |
| `Risk.AddingNeverLowers` | app/governed_shell/risk.py:89-128 | adding bindings anywhere never lowers the risk |
| `Risk.RiskUnique` | app/governed_shell/risk.py:89-128 | the declarative maximum determines the level |
| `Risk.NoteRequests` | app/governed_shell/risk.py:96-106 | three of the checks of one binding, noted exactly when they apply |
| `Risk.NoteCapabilities` | app/governed_shell/risk.py:108-119 | three further checks |
| `Risk.NoteListing` | app/governed_shell/risk.py:121-128 | the checks of the listing binding |
| `Risk.Dedupe` | app/governed_shell/risk.py:64-72 | keeps each factor once |
| `Policy.RootPathMap` | app/governed_shell/policy.py:99-107 | each id maps to the last reference that carries it |
| `Policy.RefsUnique` | app/governed_shell/policy.py:99-107 | that condition determines the map |
| `Policy.CheckParameter` | app/governed_shell/policy.py:615-666 | one parameter fits, or the refusal names what is wrong with it |
| `Policy.CheckRoots` | app/governed_shell/policy.py:403-425 | every reference must lie under an enabled root |
| `Policy.ParameterMap` | app/governed_shell/policy.py:110-129 | duplicates are reported exactly when names repeat among the named objects of the first collection that is a list; otherwise the map is those objects in order |
| `Policy.CheckParameters` | app/governed_shell/policy.py:615-666 | passes exactly when every parameter is allowed, has the rule's type and refers to an allowed root; otherwise blames the first parameter that does not fit |
| `Policy.CheckRequired` | app/governed_shell/policy.py:668-678 | every required parameter is there |
| `Policy.CheckRequests` | app/governed_shell/policy.py:475-518 | network, privilege, write and native requests are refused with their reasons, in that order |
| `Policy.ResolveDeclaredPaths` | app/governed_shell/policy.py:161-211 | fails exactly when a declared parameter path cannot be resolved; otherwise gives the surfaces in order and skips other declarations |
| `Policy.CheckBinding` | app/governed_shell/policy.py:572-743 | a binding matches exactly when it is enabled, of the cmdlet type, fits the parameters, requests no network or privilege and resolves its paths; otherwise the first of these that fails gives the reason |
| `Policy.CheckOperation` | app/governed_shell/policy.py:442-570 | an operation gets as far as its binding exactly when it is a cmdlet that requests nothing; otherwise the reason given has its condition |
| `Policy.EvaluateCmdlet` | app/governed_shell/policy.py:572-743 | a cmdlet that requests nothing is matched exactly when its binding exists and fits |
| `Policy.CheckCapabilities` | app/governed_shell/policy.py:680-743 | capabilities of the binding and its declared paths |
| `Policy.EvaluateOperation` | app/governed_shell/policy.py:442-743 | one operation is matched exactly when it is admissible; otherwise the first condition that fails, in the order of the code, gives the reason |
| `Policy.EvaluateOperations` | app/governed_shell/policy.py:427-743 | accepted exactly when all operations are admissible, with reads and writes concatenated in order; otherwise refused at the first inadmissible one, with a reason that is true of it |
| `Policy.CheckDocument` | app/governed_shell/policy.py:356-401 | policy, paths, forbidden fields and tokens |
| `Policy.EvaluatePolicy` | app/governed_shell/policy.py:329-786 | clean exactly when every declarative admission condition holds; a clean decision reports reads and writes in order, the risk and its confirmation, and any other decision declares nothing and gives the first condition that fails |
| `Policy.RefsAllowedExactly` | app/governed_shell/policy.py:403-425 | the roots are in order exactly when every reference names a root whose entry has `enabled: true` |
| `Policy.RiskOfDecision` | app/governed_shell/policy.py:745-786 | the level and the verdict of a clean decision, on the operations and the catalogue entries they name |
| `Policy.DeclaredWithinRoots` | app/governed_shell/policy.py:642-732 | every path an admitted operation declares lies under an enabled root that its binding allows |
| `Policy.WritesRaiseRisk` | app/governed_shell/risk.py:96-98 | a clean decision that declares a write reports a risk of at least high |
| `Policy.MoreOperationsMoreRisk` | app/governed_shell/policy.py:745-751 | adding operations anywhere in a clean proposal never lowers the reported risk |
| `Policy.OrderOfOperationsIrrelevant` | app/governed_shell/policy.py:745-786 | reordering the operations of a clean proposal changes neither risk nor verdict nor the need for confirmation |
| `Refusals.AdmissibleExactly` | app/governed_shell/policy.py:329-743 | a proposal is admitted exactly when nothing is wrong with policy, references, document or operations, each stated on the parsed documents |
| `Refusals.PolicyExactly` | app/governed_shell/policy.py:235-322 | a policy is valid exactly when none of its sections is missing, permissive or of the wrong type |
| `Refusals.OperationExactly` | app/governed_shell/policy.py:442-743 | an operation is admissible exactly when nothing is wrong with it, its arguments or its binding |
| `Refusals.ParametersExactly` | app/governed_shell/policy.py:110-129 | the parameters are just the named objects among the parameters or, without such a list, the arguments |
| `Refusals.RepeatsExactly` | app/governed_shell/policy.py:110-129 | names are distinct exactly when no two of these carry the same one |
| `Refusals.DeclaredExactly` | app/governed_shell/policy.py:161-211 | the reads and writes of an operation are just those that its binding's declarations make of the arguments |
| `Refusals.AllReads` | app/governed_shell/policy.py:427-751 | a clean decision declares the reads of its operations, no more and no less |
| `Refusals.AllWrites` | app/governed_shell/policy.py:427-751 | likewise the writes |
| `ExecutionPlan.CheckConfirmation` | app/governed_shell/confirm.py:20-74 | clean exactly when confirmation is not required or the supplied hash is the proposal's |
| `ExecutionPlan.CheckConfirmationAllows` | app/governed_shell/execution_plan.py:88-105 | no issue exactly when hash, requirement and mode agree and a required confirmation is clean |
| `ExecutionPlan.BuildExecutionPlan` | app/governed_shell/execution_plan.py:153-213 | when a plan is built and its whole content; it always verifies; a refusal names the first guard that fails |
| `ExecutionPlan.OneHashExactly` | app/governed_shell/execution_plan.py:184-213 | a built plan carries one proposal hash throughout exactly when the decision was made about that proposal |
| `ExecutionPlan.MixedHashes` | app/governed_shell/execution_plan.py:184-213 | the builder accepts a decision about another proposal; that plan carries two hashes |
| `ExecutionPlan.Approve` | app/governed_shell/cli.py:228-279 | a plan is approved exactly when its only possible content is sanctioned and accepted by the plan schema; it then verifies, is admissible, carries one proposal hash and the exact supplied hash whenever its risk requires confirmation; an admissible proposal is turned down exactly for a hash that does not suffice or because the schema refuses its plan |
| `ExecutionPlan.PlanForUnique` | app/governed_shell/cli.py:228-279 | proposal, policy, supplied hash, session and time determine the plan |
| `ExecutionPlan.WrongHashHasNoPlan` | app/governed_shell/confirm.py:20-74 | with a hash that does not suffice for the risk there is no plan |
| `Proposal.ValidatePathRefs` | app/governed_shell/normalize.py:75-161 | over the parsed document: no issue exactly when references and operations have their shapes, every path normalises, no id repeats and every used id is defined; the dictionary then holds exactly the normal forms |
| `Proposal.PathsCleanExactly` | app/governed_shell/normalize.py:75-161 | the paths are clean exactly when no reference, id, operation or use of a reference is wrong |
| `Proposal.ValidateRefs` | app/governed_shell/normalize.py:96-124 | the loop over the references, with the ids that are defined |
| `Proposal.ValidateUses` | app/governed_shell/normalize.py:132-153 | the loop over one collection of an operation: no issue exactly when every path reference in it is defined |
| `Proposal.CanonicalizedCopy` | app/governed_shell/normalize.py:164-188 | the copy is the proposal with every reference's path in its own normal form |
| `Proposal.CanonicalRefKeeps` | app/governed_shell/normalize.py:164-178 | canonicalising changes the relative path of a reference and nothing else |
| `Proposal.CanonicalKeeps` | app/governed_shell/normalize.py:164-178 | and of a proposal only the references |
| `Proposal.NormalizeAndHash` | app/governed_shell/normalize.py:210-227 | succeeds exactly for proposals that pass the schema with clean paths, and gives the canonical copy with its hash |
| `Proposal.PlannedPathsAreGiven` | app/governed_shell/cli.py:228-279 | every path in the plan is the normal form of a path that the proposal gives under the same id and an enabled root |
| `Proposal.GivenIsNormalExactly` | app/governed_shell/normalize.py:33-58 | such a path is its own normal form exactly when it does not read as absolute |
| `Proposal.ApprovedPathsAreNormal` | app/governed_shell/cli.py:228-279 | an accepted plan declares only paths that are their own normal forms, with plain parts |
| `Proposal.PlanRefusedExactly` | app/governed_shell/schemas/execution_plan.v1.json:199-216 | when only absolute paths can be refused: a plan is accepted exactly when all its paths are their own normal forms |
| `Proposal.ApproveProposal` | app/governed_shell/cli.py:228-279 | from the parsed proposal to the plan: approved exactly when schema, paths, policy, hash and plan schema agree, and then every declared path is given by the proposal, in normal form, under an enabled root |
| `DriveProposal.DrivePlanIsRefused` | app/governed_shell/cli.py:228-279 | a proposal that reads `./C:/x`: clean and admissible, its own hash suffices, and no plan of it is accepted |
| `Snapshot.CollectTargets` | app/governed_shell/snapshot.py:39-57 | reads and then writes, each in plan order |
| `Snapshot.ResolvedPath` | app/governed_shell/snapshot.py:60-66 | the root's directory followed by the parts of the path |
| `Snapshot.LookedUpInsideRoot` | app/governed_shell/snapshot.py:60-66 | for a normalised path every step goes down by one plain name, which below a POSIX root stays inside it |
| `Snapshot.InsideWindowsExactly` | app/governed_shell/snapshot.py:60-66 | joined as on Windows, the lookup stays inside an absolute root exactly when no part names another drive |
| `Snapshot.PlainLookup` | app/governed_shell/snapshot.py:60-66 | without drives the lookup goes down by the parts themselves |
| `Snapshot.OwnDrive` | app/governed_shell/snapshot.py:60-66 | the root's own drive in front of a part, in either case, is left out |
| `Snapshot.NormalPathLeavesDrive` | app/governed_shell/snapshot.py:60-66 | `a/D:` is a normal form whose lookup leaves a root on drive C |
| `Snapshot.ObserveAll` | app/governed_shell/snapshot.py:134-148 | succeeds exactly when no target is of an unsupported kind; each target is then observed once, with its index |
| `Snapshot.BuildManifest` | app/governed_shell/snapshot.py:134-169 | built exactly from a verified plan none of whose declared reads and writes is of an unsupported kind; then each is observed once, in order, at its resolved place, and the manifest verifies |
| `Snapshot.ManifestVerifiesExactly` | app/governed_shell/snapshot.py:172-220 | a manifest verifies exactly with its seal, metadata only, and one supported observation per target in order |
| `Snapshot.BuildReceipt` | app/governed_shell/executor.py:91-134 | built exactly from a verified plan and a verified manifest, which need not be of the same plan; the receipt names both seals and verifies |
| `Snapshot.ReceiptVerifiesExactly` | app/governed_shell/executor.py:137-204 | a receipt verifies exactly with its seal and the claims that nothing was executed, invoked, accessed or written |
| `Snapshot.Simulate` | app/governed_shell/executor.py:224-244 | in a simulation the receipt, the manifest and the plan are tied together |
| `Snapshot.ReceiptPinsDown` | app/governed_shell/executor.py:137-204 | under collision-free hashes the seal of a receipt determines receipt, plan and manifest |
| `LedgerChecks.AppendedIntact` | app/retention/jsonl_store.py:103-128 | appending to an intact chain is never refused and keeps it intact |
| `LedgerChecks.AppendedExactly` | app/retention/jsonl_store.py:103-128 | when an append is refused, and the exact record it adds otherwise |
| `LedgerChecks.ChainSnoc` | app/reflective_pressure/reconcile.py:161-191 | a longer chain is intact exactly when the shorter one is and the new record links to it |
| `LedgerChecks.DetectHashIssues` | app/reflective_pressure/reconcile.py:161-191 | the issues name exactly the lines with a wrong hash or a wrong link; none exactly for intact chains |
| `LedgerChecks.DetectDuplicateIds` | app/reflective_pressure/reconcile.py:194-223 | every line that repeats an earlier id, and only those; none exactly when ids are distinct |
| `PressureStore.LatestExactly` | app/reflective_pressure/store.py:395-405 | the last-match loop finds a record exactly when one matches, and gives a matching one |
| `PressureStore.LatestIsNewest` | app/reflective_pressure/store.py:395-405 | of several matches it is the newest, and of equally new ones the last |
| `PressureStore.FindExactly` | app/reflective_pressure/store.py:289-326 | on a clean ledger a lookup finds a record exactly when one has the stripped id |
| `PressureStore.FindCases` | app/reflective_pressure/store.py:289-326 | when a ledger cannot be searched, and what a missing record means |
| `PressureStore.PassedIsResolved` | app/reflective_pressure/store.py:43-184 | on a clean state, passing the guards with bare references means that every reference exists with a matching input |
| `PressureStore.AcceptedExactly` | app/reflective_pressure/store.py:43-184 | on a state with the invariant a bare record is accepted exactly when it is valid, resolved and new |
| `PressureStore.EventIsNew` | app/reflective_pressure/store.py:364-392 | the derived id of the event of an accepted record is not in the event ledger yet |
| `PressureStore.EventExactly` | app/reflective_pressure/store.py:43-184 | which ids the event of a record carries, by its kind |
| `PressureStore.EventRefersBack` | app/reflective_pressure/store.py:364-392 | every id in the event of an accepted bare record is that of a record of the same input, the new one included |
| `PressureStore.AppendExactly` | app/reflective_pressure/store.py:43-184 | an accepted append leaves a clean state exactly when the references carry no surrounding whitespace |
| `PressureStore.PaddedReferenceBreaks` | app/reflective_pressure/store.py:43-184 | from the empty state, an input and then a classification of it with a padded reference: accepted, and no longer clean |
| `PressureStore.AppendKeepsInvariant` | app/reflective_pressure/store.py:43-184 | attempted appends of bare records keep the run invariant |
| `PressureStore.ReachableClean` | app/reflective_pressure/store.py:43-184 | any sequence of attempted appends of bare records leaves a state that the reconciler calls clean |
| `PressureStore.TwiceExactly` | app/reflective_pressure/store.py:43-57 | the duplicate guard refuses a second copy exactly when the id is bare; with a padded id the second append breaks the state |
| `PressureStore.PaddedIdBreaks` | app/reflective_pressure/store.py:43-57 | from the empty state, the same input twice with a padded id: no longer clean |
| `PressureStore.Store.RequireInput` | app/reflective_pressure/store.py:59-62 | passes exactly when the input is found |
| `PressureStore.Store.RequireFor` | app/reflective_pressure/store.py:329-361 | passes exactly when the record is found and belongs to the input |
| `PressureStore.Store.CheckReferences` | app/reflective_pressure/store.py:329-361 | the reference guards, in code order |
| `PressureStore.Store.Write` | app/reflective_pressure/store.py:43-184 | the record and then its event are written; never refused on a state with the invariant |
| `PressureStore.Store.Append` | app/reflective_pressure/store.py:43-184 | the six guarded appends with their event: the whole new state, when the record is accepted, and the invariant kept |
| `PressureStore.ByIdExactly` | app/reflective_pressure/reconcile.py:226-240 | with distinct ids the reconciler's dictionaries agree with the ledgers |
| `PressureStore.NoReferenceIssue` | app/reflective_pressure/reconcile.py:243-457 | for valid records under distinct ids no reference issue is reported exactly when all references are resolved |
| `PressureStore.UnblamedExactly` | app/reflective_pressure/reconcile.py:226-457 | for valid records under distinct ids the lookups of one ledger all succeed exactly when its references are resolved in the ledgers themselves |
| `PressureStore.ValidateRecords` | app/reflective_pressure/reconcile.py:116-158 | no issue exactly when every record is valid and in its own ledger |
| `PressureStore.RecordIssuesExactly` | app/reflective_pressure/reconcile.py:116-158 | each issue about a record exactly under its condition |
| `PressureStore.ValidateAll` | app/reflective_pressure/reconcile.py:116-158 | all ledgers at once |
| `PressureStore.HashesAndDuplicates` | app/reflective_pressure/reconcile.py:161-223 | no issue exactly when all chains are intact and all ids distinct |
| `PressureStore.DetectReferences` | app/reflective_pressure/reconcile.py:226-457 | the reference detector on one ledger: silent exactly when every lookup in the dictionaries gives a record of the same input |
| `PressureStore.CollectIssues` | app/reflective_pressure/reconcile.py:243-457 | the loop shared by the detectors reports nothing exactly when no row gives it anything to report |
| `PressureStore.AllReferences` | app/reflective_pressure/reconcile.py:226-457 | likewise for all ledgers together |
| `PressureStore.StagesExactly` | app/reflective_pressure/reconcile.py:49-89 | shapes, then chains and ids, then references: the three stages together find nothing exactly when the declarative clean predicate holds |
| `PressureStore.Reconcile` | app/reflective_pressure/reconcile.py:49-89 | although later checks are skipped when records are invalid, no failure is reported exactly when the declarative clean predicate holds |
| `CorpusStore.GuardsExactly` | app/reflective_corpus/store.py:27-77 | on an intact corpus the guards accept exactly the valid, resolved records with a new id |
| `CorpusStore.FindCases` | app/reflective_corpus/store.py:139-185 | when a ledger cannot be searched, and when an id is found in it |
| `CorpusStore.AppendKeepsIntegrity` | app/reflective_corpus/store.py:27-77 | every attempted append keeps the integrity of the corpus, with no condition on the record, and changes it exactly when the guards pass |
| `CorpusStore.ReachableIntact` | app/reflective_corpus/store.py:27-77 | every reachable corpus is intact |
| `CorpusStore.Store.CheckReferences` | app/reflective_corpus/store.py:163-178 | all ids are found, or the refusal is about the first one that is not, with the ledger unreadable or that id named as unknown |
| `CorpusStore.Store.CheckAllReferences` | app/reflective_corpus/store.py:51-77 | the reference checks of each kind of record |
| `CorpusStore.Store.Append` | app/reflective_corpus/store.py:27-77 | the four guarded appends: the whole new state and when the record is accepted |
| `CorpusStore.ValidateRecords` | app/reflective_corpus/reconcile.py:117-209 | no issue exactly when every record is valid and in its own ledger |
| `CorpusStore.RecordIssuesExactly` | app/reflective_corpus/reconcile.py:117-209 | each issue about a record exactly under its condition |
| `CorpusStore.DetectReferences` | app/reflective_corpus/reconcile.py:273-339 | for valid records, no issue exactly when every reference is resolved |
| `CorpusStore.ReconcileLedger` | app/reflective_corpus/reconcile.py:54-90 | all detectors on one ledger: silent exactly when the ledger is intact |
| `CorpusStore.Reconcile` | app/reflective_corpus/reconcile.py:54-90 | the failure list is empty exactly when the declarative integrity predicate holds |
| `Anonymizer.NothingNew` | oil/run_export_cases.py:200-204 | replacing anything by an alias never creates an occurrence of a name that does not overlap that alias |
| `Anonymizer.ApartExactly` | oil/run_export_cases.py:200-204 | a name never comes back, over all texts and all replaced patterns, exactly when it does not overlap the alias |
| `Anonymizer.Gone` | oil/run_export_cases.py:200-204 | a replaced name that does not overlap its alias no longer occurs |
| `Anonymizer.NoLeak` | oil/run_export_cases.py:200-204 | after all replacements no name occurs, whatever the text, when names and aliases do not overlap |
| `Anonymizer.Idempotent` | oil/run_export_cases.py:200-204 | anonymising again changes nothing, under the same condition |
| `Anonymizer.ExactName` | oil/run_export_cases.py:200-204 | a text that is a mapped name becomes exactly its alias, when no name lies inside an alias; this needs the longest-first order |
| `Anonymizer.AliasInjective` | oil/run_export_cases.py:190-197 | distinct numbers give distinct aliases, for any count |
| `Anonymizer.PaddedExactly` | oil/run_export_cases.py:190-197 | one digit gets a zero in front, more digits none |
| `Anonymizer.CollectServices` | oil/run_export_cases.py:178-193 | the set holds exactly the non-empty names the cases mention |
| `Anonymizer.SortedNames` | oil/run_export_cases.py:194-196 | the names of the set in strictly increasing order |
| `Anonymizer.BuildAnonMap` | oil/run_export_cases.py:176-197 | the names of all selected cases, sorted and numbered from one |
| `Anonymizer.SafeNamesSeparated` | oil/run_export_cases.py:190-197 | names without a character of the alias alphabet never overlap an alias of the built map |
| `Anonymizer.AnonMapUnique` | oil/run_export_cases.py:176-197 | the map depends on the set of names only |
| `Anonymizer.SortKeeps` | oil/run_export_cases.py:200-204 | the longest-first order is a reordering of the map |
| `Anonymizer.ApplyAnonToStr` | oil/run_export_cases.py:200-204 | the replacement loop computes the specified text |
| `Anonymizer.AnonymiseLaws` | oil/run_export_cases.py:200-204 | for a map of distinct names none of which overlaps an alias: no leak, idempotence and exact names together, for every text |
| `Anonymizer.NeverLeaksExactly` | oil/run_export_cases.py:200-204 | exact condition for a map of a name and a one-character name: it leaks no text exactly when the first name does not overlap the second alias |
| `Anonymizer.OverlappingNameLeaks` | oil/run_export_cases.py:176-204 | the map built for a service `xS` leaks: `xxS` becomes `xSVC_01` |
| `Anonymizer.ManifestAgrees` | oil/run_export_cases.py:340-348 | the alias in the manifest is the anonymised form of the case's origin, when no name lies inside an alias |
| `Anonymizer.JsonLeaksThroughKeysOnly` | oil/run_export_cases.py:207-215 | an anonymised document mentions a name exactly when one of its keys does: values are rewritten, keys are not |
| `Anonymizer.KeyLeaks` | oil/run_export_cases.py:207-215 | a document whose key is the service name still mentions it after export |
| `Anonymizer.ExportedCase.Anonymize` | oil/run_export_cases.py:218-247 | the files of a case that exist are rewritten: documents and summary whole, of the outcomes only the notes; blank lines are dropped |
| `Anonymizer.OutcomesLeakExactly` | oil/run_export_cases.py:233-247 | the rewritten outcomes mention a name exactly when a line that does not parse or another field than the notes did |
| `Anonymizer.OutcomeValueLeaks` | oil/run_export_cases.py:233-247 | an outcome whose action names the service still names it afterwards |
| `RotateMemory.PerShard` | oil/run_rotate_memory.py:113-170 | each shard file is what deduplicated appending of its own entries gives, whatever the shard key |
| `RotateMemory.SameKeyExactly` | oil/run_rotate_memory.py:113-170 | when two entries have the same key: by the run id in the index, by run id, time and kind among the outcomes |
| `RotateMemory.DedupedUnique` | oil/run_rotate_memory.py:124-145 | appending keeps keys unique |
| `RotateMemory.DedupedCovers` | oil/run_rotate_memory.py:124-145 | no keyed entry is lost |
| `RotateMemory.RotationLaws` | oil/run_rotate_memory.py:113-170 | over all shards: files grow by suffix, unique keys stay unique, every keyed entry is in its shard |
| `RotateMemory.SecondRotation` | oil/run_rotate_memory.py:113-170 | a second rotation appends, per shard, exactly the entries without a key |
| `RotateMemory.OutcomesFixedPoint` | oil/run_rotate_memory.py:147-170 | outcome shards do not change on a second rotation |
| `RotateMemory.OfferEntry` | oil/run_rotate_memory.py:124-145 | one step: the lazily loaded seen sets stay equal to the key sets of the files and the counts to what was written |
| `RotateMemory.OfferNext` | oil/run_rotate_memory.py:124-145 | the same step in terms of the entries read so far: shards and skip count stay those of the specification |
| `RotateMemory.RotateLog` | oil/run_rotate_memory.py:113-170 | the loop: resulting shards, and written plus skipped equals the entries read |
| `RotateMemory.MemoryDir.Rotate` | oil/run_rotate_memory.py:113-200 | both logs and the pruning of the originals |
| `ReleaseGate.LawfulIsJustified` | app/letters_of_light/release.py:170-448 | along any lawful event log, `approved` holds exactly in the protected states, and a published state has an approval, then an export, then a publication since the last demotion |
| `ReleaseGate.PublicationDateStable` | app/letters_of_light/release_site.py:575-586 | later events never change the first publication date |
| `ReleaseGate.ReleaseRecord.CreateCandidate` | app/letters_of_light/release.py:170-282 | the event it leaves; an eligible letter keeps a protected state with its approval and is a candidate otherwise, an ineligible one is demoted; the stored state stays the replay of the log |
| `ReleaseGate.ReleaseRecord.Approve` | app/letters_of_light/release.py:285-326 | as above, creating the candidate first when there is none; an approved letter never goes back |
| `ReleaseGate.ReleaseRecord.Export` | app/letters_of_light/release.py:329-448 | exports exactly an approved, still eligible letter, which moves it forward to exported or leaves it in publication; otherwise demotes or refuses |
| `ReleaseGate.ReleaseRecord.PublishSite` | app/letters_of_light/release_site.py:648-727 | publishes exactly an approved, exported letter with a page, with the date of its first publication |
| `ReleaseGate.ReleaseRecord.RecordJustified` | app/letters_of_light/release.py:170-448 | every reachable record: state and approval are the replay of its events, with the evidence they need |
| `ReleaseGate.ReleaseLetter` | app/letters_of_light/release.py:170-448 | from any state, an eligible letter with a page goes through creation, approval, export and publication without a refusal and is published |
| `IndexPayload.EscapeCloseless` | app/letters_of_light/release_site.py:471-472 | the escaped payload contains no `</` |
| `IndexPayload.RoundTrip` | app/letters_of_light/release_site.py:337-362 | the reader's replacement restores a text in which no `<` is followed by a backslash and slash |
| `IndexPayload.DumpEntriesSolid` | app/letters_of_light/release_site.py:471-472 | dumped JSON is such a text: a backslash after `<` is never followed by a slash (section 7 of RFC 8259) |
| `IndexPayload.PageRoundTrip` | app/letters_of_light/release_site.py:337-362 | behind the opening tag, what the reader finds and restores is exactly the dumped JSON, whatever the entries and whatever follows |
| `IndexPayload.WholePageRoundTrip` | app/letters_of_light/release_site.py:450-540 | the same for a whole page: templates without a script tag and HTML-escaped entry texts in any order before the data, so that cards cannot pass for the data |
| `IndexReader.StringBack` | app/letters_of_light/release_site.py:471-472 | an escaped string is read back by a reader of JSON strings (section 7 of RFC 8259) |
| `IndexReader.ListBack` | app/letters_of_light/release_site.py:337-362 | a dumped list of entries is read back as JSON: the same entries, members and order |
| `IndexReader.EntriesBack` | app/letters_of_light/release_site.py:337-362 | the reader finds in a rendered page the very entries that were written into it |
| `IndexReader.HtmlBack` | app/letters_of_light/release_site.py:450-468 | the escaped text of a card stands for the text that was given |
| `IndexMerge.SortSorted` | app/letters_of_light/release_site.py:438-446 | the order is descending |
| `IndexMerge.SortFixed` | app/letters_of_light/release_site.py:438-446 | a sorted list is left as it is |
| `IndexMerge.SameKeyExactly` | app/letters_of_light/release_site.py:414-447 | when two entries are the same one: by the letter id, or without one by the link |
| `IndexMerge.MergeLaws` | app/letters_of_light/release_site.py:414-447 | keys stay distinct, the result is sorted, and its entries are exactly the current one, with the date it had, and the collected ones with another key |
| `IndexMerge.MergeIdempotent` | app/letters_of_light/release_site.py:414-447 | merging the same entry again changes nothing |
| `IndexMerge.Assign` | app/letters_of_light/release_site.py:414-437 | one dictionary assignment with its order list changes the listed entries as intended |
| `IndexMerge.DateFrom` | app/letters_of_light/release_site.py:428-432 | the current entry takes the publication date of the entry under its key, if that has one |
| `IndexMerge.MergeEntries` | app/letters_of_light/release_site.py:414-447 | the loop over dictionary and order list computes the merge |
| `Governor.OverrideExactly` | app/governor/activation_governor.py:169-318 | `override_used` is returned exactly for a mutating, undrifted request under a held lock that no authorised pattern but an unused, unexpired, matching token covers, on the stored fields |
| `Governor.BlockedExactly` | app/governor/activation_governor.py:169-318 | a request is blocked exactly on drift or when neither lock scopes nor token cover it |
| `Governor.ReasonsExactly` | app/governor/activation_governor.py:169-318 | each of the other reasons exactly under its condition on the stored fields |
| `Governor.UsesBounded` | app/governor/activation_governor.py:169-318 | over any run of review, override and enforce, the steps that use a token never outnumber those that issue one |
| `Governor.PendingIsLive` | app/governor/activation_governor.py:169-318 | a token that could still be used was issued in the run and not used, replaced or cleared since |
| `Governor.UseOfLiveToken` | app/governor/activation_governor.py:268-318 | every use is of a token issued earlier in the run, not used, replaced or cleared since, unexpired and for a matching scope without drift |
| `Governor.OneUsePerIssue` | app/governor/activation_governor.py:268-318 | between two uses lies an issue of the token that the second one uses |
| `Governor.Store.Review` | app/governor/__init__.py:85-163 | replaces the state and clears any token; refuses a missing or invalid state unless told to initialise, and an invalid new one |
| `Governor.Store.Override` | app/governor/__init__.py:166-212 | stores a fresh unused token in place of the previous one, when state and token are valid |
| `Governor.Store.Enforce` | app/governor/activation_governor.py:169-318 | the decision with its lock and token, and that the only thing ever written is the used flag of that token |
| `ClockLock.RunsAreExclusive` | app/daemon/clock.py:25-51 | over all interleavings of the file-system steps of any number of processes, stale recoveries included: if no process removes the file of a holder, at most one process holds, and the file exists exactly while one does or after a failed write |
| `ClockLock.MutualExclusion` | app/daemon/clock.py:54-106 | no two processes are inside the cycle, under the same condition |
| `ClockLock.ExclusionExactly` | app/daemon/clock.py:25-51 | that condition is exact: it holds of a run exactly when at every point of the run, and of every continuation without a removal, at most one process holds |
| `ClockLock.NeverStaleIsExclusive` | app/daemon/clock.py:25-51 | runs in which no process reads a stale age meet it |
| `ClockLock.StatLeads` | app/daemon/clock.py:25-39 | where the reading of the age leads, by the file and the limit |
| `ClockLock.FreshLockHolds` | app/daemon/clock.py:25-39 | a process that finds a file that is not too old is turned away, and the file stays |
| `ClockLock.HandOver` | app/daemon/clock.py:25-51 | a process that is done gives the lock back, and the next one gets in |
| `ClockLock.StaleLockIsStolen` | app/daemon/clock.py:25-51 | behind a stale lock file any idle process gets inside next to the holder |
| `ClockLock.StolenFromStart` | app/daemon/clock.py:25-51 | from the start: a cycle longer than the limit is joined by a second process |
| `ClockLock.RecoverersRace` | app/daemon/clock.py:25-51 | from the start: after one failed write two processes recover the file one after the other and both get inside |
| `ClockLock.FileLock.Acquire` | app/daemon/clock.py:25-39 | when one uninterrupted acquire succeeds, and what it leaves: the new file and its descriptor exactly when there was no file or a stale one, also after a failed write; otherwise nothing changes |
| `ClockLock.FileLock.Release` | app/daemon/clock.py:41-51 | removes the file and forgets the descriptor |
| `ClockLock.GuardedBody` | app/daemon/clock.py:86-106 | the gates are asked in order, each result exactly under its condition, and the cycle is evaluated exactly when all are clear |
| `ClockLock.TickOnce` | app/daemon/clock.py:73-106 | every exit path, a system halt included, releases an acquired lock; after a failed write the file stays, and otherwise a refused tick leaves it alone |
| `Resolver.PermutationInvariant` | debug_engine.py:51-170 | any permutation of the packs gives the same decision |
| `Resolver.DecisionExactly` | debug_engine.py:51-170 | the decision on rules, verdicts and metrics themselves: failing rules deny, then an emergency allowance allows, then DENY rules and broken limits deny, then approval is required |
| `Resolver.LimitDenies` | debug_engine.py:158-165 | a limit whose metric is missing or larger denies, unless an emergency allowance applies and no rule fails |
| `Resolver.OnlyLimits` | debug_engine.py:158-165 | where nothing but well-formed limits applies, the decision is DENY exactly when one of them is broken |
| `Resolver.MissingMetricDenies` | debug_engine.py:161-163 | a limit on a metric that the snapshot does not have denies |
| `Resolver.LoosensExactly` | debug_engine.py:51-170 | adding rules loosens the decision exactly when it was not ALLOW, an emergency allowance now applies and no rule fails |
| `Resolver.AddingNeverLoosens` | debug_engine.py:51-170 | adding rules, none of which is an emergency allowance that applies, never loosens the decision under DENY over REQUIRE_APPROVAL over ALLOW |
| `Resolver.EmergencyLoosens` | debug_engine.py:51-170 | an emergency pack that turns DENY into ALLOW |
| `Resolver.EmergencyInert` | debug_engine.py:51-170 | with the override flag off, emergency packs decide nothing |
| `Resolver.LeastLimitsSuffice` | debug_engine.py:120-165 | checking, per key, the first rule with the least limit is the same as checking every applicable limit rule |
| `Resolver.SortOrdered` | debug_engine.py:23-27 | sorted packs are in order of priority |
| `Resolver.SortByScope` | debug_engine.py:23-27 | global packs first, then domain, task, session and emergency packs, and all others |
| `Resolver.SortStable` | debug_engine.py:23-27 | packs of one priority keep their order |
| `Resolver.LiveHasTurn` | debug_engine.py:65-82 | a rule counts for the decision exactly when it has a turn in the loops |
| `Resolver.ConsiderRule` | debug_engine.py:73-140 | one rule: what is collected stays exact for the rules so far, in their order, or the rule stops the evaluation with its outcome |
| `Resolver.ConsiderNext` | debug_engine.py:65-140 | one turn of the inner loop; the rules of a pack that is not enabled are passed over |
| `Resolver.ConsiderPack` | debug_engine.py:65-140 | one pack: the collection stays exact, or the first rule that stops gives the outcome |
| `Resolver.ConsiderPacks` | debug_engine.py:65-140 | all active packs, likewise |
| `Resolver.CheckLimits` | debug_engine.py:158-165 | finds the first exceeded limit in key order, or none exactly when none is exceeded |
| `Resolver.Conclude` | debug_engine.py:142-170 | the checks after the loops give the declarative decision, with its reason, the rules that account for it and the packs |
| `Resolver.Resolve` | debug_engine.py:51-170 | the loops raise only on a malformed limit, and whatever they return is the decision of the declarative order of rules; the whole result is that of the first rule that stops, or the first reason that holds with all its rules and packs in order |

## Left out

- JSON Schema, YAML and date validation: abstract predicates on records; a policy file is its typed content.
- Files that do not parse, blank and glued lines in the reflective ledgers; the audit ledger models unreadable and non-object lines.
- I/O errors and exceptions beyond those a contract names; file encoding.
- Rounding and the actual `exp`: reals, and a positive monotone function that is one at zero.
- Unicode whitespace and case folding: `strip` and `lower` are the ASCII ones.
- Python's loose equality between booleans and numbers, and unhashable operation types (the code raises there; the model refuses the operation).
- Issue texts and their sorting by ledger and line; issues are data with the same content.
- Listing with filters and limits (the `list_*` functions beyond what the guards use), `get_theme_by_name`.
- `is_unstable_by_condition`, the panic log, priorities; the list of applied limits in a resolver result.
- Provider calls, circuit breakers and logging in the agent.
- The snapshot's timestamps, plan and receipt identifiers derived from hashes, canonical JSON text (the hash of a body stands for the hash of its text).
- The canonical JSON text of a proposal; its re-parsing after canonicalisation is the identity.
- Media copying, the wording of page templates, social exports, markup fallback of the index reader, entry normalisation.
- The rotation report, hot months and the parsing of dates into shard keys: the shard key is any function.
- Case selection, verification status and summaries of the exporter.
- Events written by governor, review and override next to the state.
- Governor.Store.Enforce: one atomic step; two overlapping calls in different processes are not interleaved, so the single-use law is about sequences of completed calls.
- Anonymizer.AnonymiseLaws: overlap-freedom is exact for one replacement over all texts and patterns (ApartExactly) and for maps as in NeverLeaksExactly; for other maps it is sufficient, and whether a map of overlapping names leaks depends on its order and its other names.
- CoherenceKernel.Kernel.SignalsFromLogsInUnit: needs a non-negative violation rate, as the default configuration has.
- Agent.SignalAgent.NoteDrift: the drift part of `generate` only.
- PressureStore.ReachableClean: about records whose id and references are bare, as the builders produce; AppendExactly and TwiceExactly say what happens otherwise.
- CoherenceKernel.Kernel.Tick: a clock that runs backwards changes nothing until it catches up, as in the code; windows are exact for non-decreasing times.
- IndexMerge.MergeIdempotent: for entries that have a letter id or a link, as every release entry does.
- Snapshot.InsideWindowsExactly: drives only; UNC roots, relative roots, reserved names and links are not modelled.
- Anonymizer.ExportedCase.Anonymize: outcome entries are objects whose notes are a text; the code raises on others.
- Simulation.SimulatePlan: the content of an event is the plan's text followed by the one detail that varies, a hash or a class name.
