# Guardrail verification

The guard scripts of this repository are small static analysers and state
machines that stand between a change and production: they must not print OK when
the property they name does not hold. This project models nine of them in Dafny
and proves what their verdicts mean, over every input, every run of the system they
judge, or every history of their own use.

`dafny verify dfyconfig.toml` checks the whole project.

## How it is laid out

| file | what it models |
|---|---|
| `Program.dfy` | a statement language for the Python functions the guards read, with a run semantics driven by an oracle |
| `GateCheck.dfy`, `DialReport.dfy`, `GateSound.dfy`, `GateExact.dfy`, `GateLimits.dfy` | every dial passes the compliance gate: the guard, its report on a module told from the text, what its approval implies for all runs, an exact account of what can happen at a dial, and accepted programs that show where approval stops |
| `ScopeCheck.dfy` | every idempotency claim is scoped by `scope_key` |
| `Traversal.dfy` | two tree walks that both name a node's enclosing function |
| `ErasureWalk.dfy`, `ErasureVerdict.dfy` | the erasure call-graph walk and the verdict on the schema |
| `RunRecord.dfy`, `Ratchet.dfy` | the pytest recorder, the manifest and the trust check; budgets, waivers, the gate and the command line |
| `Ledger.dfy` | trigger facts against what triggers do to statements |
| `JobWiring.dfy` | enqueue sites and registries against running queues and workers |
| `OpenApi.dfy`, `ContractEdits.dfy`, `GeneratedNames.dfy` | the JSON quotient and the exact diff, the edits the quotient forgets, and the reader of generated TypeScript against a printer |
| `TreeWalk.dfy` | the pruned directory walk |
| `Ordering.dfy`, `Wrappers.dfy` | Python's string order, `sorted` and `str.strip`; optional values |

Three modelling choices run through the project.

*Runs.* A run of a Python function is `Exec` under an oracle: a finite tree of bits
that decides the gate's answers, opaque conditions, loop turns, which handlers match and
which statements raise -- the gate call, the producer call, the dial and the claim
included; a name whose assignment raises keeps its old value. An exhausted oracle cuts
the observation, so every finite prefix of a diverging run is covered and nothing is
bounded. A nested function's own names are kept apart from the observed function's, as
Python scopes them; it can be called by name, any number of times and recursively, while
the observed function is active, and every nested function is also observed in its own
right. Apart from its log a state of a given function is one of finitely many, so what
its runs can log is computed from the text (`GateExact.Possible`), exactly and for every
function of the language.

*What a guard reads.* Each guard's small tests are proved to find what they are meant to
find, in terms of the text, rows or fields themselves: line numbers and occurrences
(`DialReport`), assigned values (`ScopeCheck.AcceptedIff`), nodes that name a table
(`ErasureWalk.TablesAre`), registers (`ErasureVerdict.DeservedIff`), catalog bits
(`Ledger.VerdictIs`), lines of a block (`GeneratedNames.KeysSpecIff`), counts over a history
(`RunRecord.CountersAre`). The reports are stated in those terms.

*Where a guard is wider than its promise.* Some verdicts approve of more than they
should. There the code is modelled as it is, accepted programs or states that break the
promise are exhibited, and the exact (if and only if) condition under which the promise
holds is proved for all inputs:

| guard | breaks | exact condition |
|---|---|---|
| the gate (`_terminates` documents "does this branch stop" and asks whether a jump occurs anywhere) | `GateLimits`, nine accepted programs | `ObeysIff`, `VouchedIff` |
| the scope | `SometimesBoundIsAccepted`, `BoundElsewhereIsAccepted` | `AcceptedClaimIff` |
| the ratchet, when an area leaves the list | `DroppedAreaIsForgotten` | `AcceptKeepsIff`, `LeastEverIff` |
| the trust check, when no session start was recorded | `UnprobedRunIsTrusted` | `TrustIffClean` |
| the ledger, when a trigger function raises conditionally | `ConditionalRaisePasses` | `AppendOnlyIff` |
| the TypeScript reader | names it cannot read back | `KeyLineIff` |

## Model

| member | source | states |
|---|---|---|
| GateCheck.DecisionIsObeyed | scripts/check_compliance_invariants.py:880-896 | the loop over the walk answers as the first `if` that decides does |
| GateCheck.JudgeFunction | scripts/check_compliance_invariants.py:916-933 | one enclosing function gates the dial iff an earlier raising gate call is in it or some earlier bound gate call is obeyed; otherwise says whether the gate is called at all |
| GateCheck.JudgeDial | scripts/check_compliance_invariants.py:912-947 | over the whole stack: gated iff some enclosing function gates; "never asked" only if no enclosing function calls the gate earlier |
| GateCheck.WalkIs | scripts/check_compliance_invariants.py:880-882 | the walk of a function yields exactly the statements that occur in it, nested functions and handlers included |
| DialReport.ObeyedIff | scripts/check_compliance_invariants.py:849-896 | the decision is found obeyed iff the first `if` of the walk that mentions it and holds the dial, or says `not` and jumps on an earlier line, says `not` exactly when the dial is not in its body |
| DialReport.OneGuardIff | scripts/check_compliance_invariants.py:880-896 | the accepted shapes of a function with one such `if`: positive test with the dial in the body; negated test with the dial in the `else` or below a jump; never a positive test beside another `not` |
| DialReport.SiteGatedIff | scripts/check_compliance_invariants.py:912-935 | a dial is gated iff a function around it asserts on an earlier line, or asks on an earlier line into a name and obeys it; the gate counts as called iff it is, on an earlier line |
| GateSound.ObeyedIsSafe | scripts/check_compliance_invariants.py:836-896 | one approving `if` in the fragment is enough, whatever others there are: if the decision is no parameter, no run of the function, nested functions included, places the dial unless the decision then held allows it |
| GateSound.GuardAndDial | scripts/check_compliance_invariants.py:893-895 | a gate call, a refusing guard that always leaves, and the dial anywhere below in the function's own code are in the fragment |
| GateSound.BranchAndDial | scripts/check_compliance_invariants.py:888-892 | so are a gate call and the dial anywhere in the body of a positive test or the `else` of a negated one |
| GateSound.AssertedIsSafe | scripts/check_compliance_invariants.py:921-923 | behind `assert_dispatch_allowed` in the same or an enclosing block, every run dials only after the assertion returned |
| GateSound.GatedIsSafe | scripts/check_compliance_invariants.py:903-935 | where an assertion stands in the same or an enclosing block, or one gate call has an approving `if` in the fragment, every run dials only after a returned assertion or only under an allowing decision of a gate call |
| DialReport.UngatedDials | scripts/check_compliance_invariants.py:903-947 | over a module, in order: exactly the dials with no assertion and no obeyed decision on an earlier line in a function around them, each "ignored" iff the gate is called on such a line; none iff every dial has one |
| DialReport.SitesExact | scripts/check_compliance_invariants.py:550-570 | the walk finds exactly the dials of the module, each with its line and the whole chain of functions around it |
| DialReport.SiteIsInside | scripts/check_compliance_invariants.py:550-570 | every function on a dial's stack contains the dial |
| DialReport.DialHasSite | scripts/check_compliance_invariants.py:550-570 | no dial of the module is missed |
| GateSound.CleanDialIsSafe | scripts/check_compliance_invariants.py:903-947 | with no offender, each dial has an enclosing function that contains it and has a reason to be found gating; if a reason there is in the fragment, every run of that function is gated |
| GateExact.PossibleExact | scripts/check_compliance_invariants.py:880-947 | for every function of the language, an event can be logged by some run iff it is computed from the text: loops, unmatched handlers, raising calls, copies, nested functions and recursion included |
| GateLimits.ObeysIff | scripts/check_compliance_invariants.py:880-896 | all runs obey the decision iff every dial computed from the text holds an allowing one; no side condition |
| GateLimits.VouchedIff | scripts/check_compliance_invariants.py:921-923 | all runs dial after a returned assertion iff every dial computed from the text does |
| GateLimits.CompoundTestIsAccepted | scripts/check_compliance_invariants.py:849-858 | a test that merely mentions the decision is accepted, and a run dials refused |
| GateLimits.ConditionalStopIsAccepted | scripts/check_compliance_invariants.py:871-877 | a branch that only sometimes leaves is accepted, and a run dials refused |
| GateLimits.SiblingGuardIsAccepted | scripts/check_compliance_invariants.py:893-895 | a guard in a branch of its own is accepted by line number, and a run dials refused |
| GateLimits.AskedAgainIsAccepted | scripts/check_compliance_invariants.py:888-890 | a gate asked again after the guard is accepted, and a run dials refused |
| GateLimits.FailOpenIsAccepted | scripts/check_compliance_invariants.py:893-895 | a default value, a gate call that raises inside a `try`, and a guard that always leaves: accepted, and a run dials on the default |
| GateLimits.SwallowedRefusalIsAccepted | scripts/check_compliance_invariants.py:871-895 | a refusal that raises past a handler that does not match and is swallowed further out is accepted, and a run dials refused |
| GateLimits.ParameterIsAccepted | scripts/check_compliance_invariants.py:836-846 | a parameter the gate replaces on one branch only is accepted, and a run dials on the parameter |
| GateLimits.StaleClosureIsAccepted | scripts/check_compliance_invariants.py:880-896 | a closure defined in an allowed turn of a loop is accepted, and a run calls it after a refused turn |
| GateLimits.ConditionalAssertIsAccepted | scripts/check_compliance_invariants.py:916-923 | a raising gate call under a condition gates the dial, and a run dials without it |
| ScopeCheck.LocalBindings | scripts/check_idempotency_scope.py:145-162 | the dictionary holds for each name exactly the values it is assigned anywhere in the function, in walk order |
| ScopeCheck.AcceptedIff | scripts/check_idempotency_scope.py:165-180 | a claim is accepted iff its scope is a producer call, or a name with an assignment in the function and none but from the producer |
| ScopeCheck.ClaimProblems | scripts/check_idempotency_scope.py:237-264 | reports exactly the claims that occur in the function with a scope that is missing, another expression, or a name not so assigned; counts the claims |
| ScopeCheck.AcceptedClaimIsScoped | scripts/check_idempotency_scope.py:165-180 | per claim: if it is accepted and the name it passes is no parameter and bound only by assignment, every run that reaches it passes a produced key, whatever the function's other claims do |
| ScopeCheck.AcceptedClaimsAreScoped | scripts/check_idempotency_scope.py:165-180 | the same for all claims of a function at once |
| ScopeCheck.ModuleProblems | scripts/check_idempotency_scope.py:237-264 | over all functions of a module, nested ones included: exactly the claims with a bad scope by that function's own assignments, none iff every function is accepted |
| ScopeCheck.NestedIsFunction | scripts/check_idempotency_scope.py:141-142 | a function nested in a function of the module is visited in its own right |
| ScopeCheck.CleanModuleIsScoped | scripts/check_idempotency_scope.py:165-264 | in a module without problems, per claim of every function, a nested one in its own right included: if the names it passes are no parameters and bound only by assignment, every run passes a produced key; in any case the names are assigned in that function or inside it |
| ScopeCheck.AcceptedClaimIff | scripts/check_idempotency_scope.py:165-180 | whatever binds the name and wherever, all runs claim a produced key iff no other value reaches the claim as computed from the text |
| ScopeCheck.SometimesBoundIsAccepted | scripts/check_idempotency_scope.py:176-180 | a parameter replaced on one branch only is accepted, and a run claims the raw parameter |
| ScopeCheck.BoundElsewhereIsAccepted | scripts/check_idempotency_scope.py:145-162 | an assignment inside a nested function vouches for a global of the same name, and a run claims the raw global |
| Traversal.AstWalk | scripts/check_audit_ip.py:150-153 | the breadth-first walk yields every node exactly once, by non-decreasing depth |
| Traversal.MarkBelow | scripts/check_audit_ip.py:152-154 | one function overwrites the entry of every hit below it and of nothing else |
| Traversal.LastWriterIsDeepest | scripts/check_audit_ip.py:150-154 | because the walk goes by depth, the last writer of an entry is the deepest enclosing function |
| Traversal.PeerReads | scripts/check_audit_ip.py:147-162 | every hit once, in walk order, with the name of its innermost enclosing function |
| Traversal.CallSitesExact | scripts/check_compliance_invariants.py:550-570 | the depth-first walk yields every hit below the root exactly once, with its full chain of functions |
| Traversal.BothWalks | scripts/check_compliance_invariants.py:559-570 | run on one tree, the two walks yield the same nodes once each and name the same function for each; the exceptions are exactly a hit at the root and a root that is the only function above the node |
| ErasureWalk.TakeKeepsInv | scripts/check_erasure_coverage.py:790-818 | every worklist step, whichever entry it takes, keeps visited inside the closure, the frontier complete and the sums exact |
| ErasureWalk.TakeProgresses | scripts/check_erasure_coverage.py:789-793 | every step visits a new function or shortens the queue, cycles and duplicates included |
| ErasureWalk.AnyOrderIsExact | scripts/check_erasure_coverage.py:780-818 | any emptying order visits exactly the reachable functions, finds exactly their tables and counts each one's statements once |
| ErasureWalk.TablesAre | scripts/check_erasure_coverage.py:796-806 | a table is found iff some function holds a literal that names it or a reference to a module constant that does |
| ErasureWalk.CountIs | scripts/check_erasure_coverage.py:796-806 | the statement count is the number of positions whose node names some table |
| ErasureWalk.WalkFrom | scripts/check_erasure_coverage.py:780-818 | the last-in-first-out loop terminates with the closure, exactly the tables its nodes name, and the number of their positions |
| ErasureWalk.ErasureReach | scripts/check_erasure_coverage.py:753-777 | each entrypoint's answer is what the nodes of its own closure name; the blind spots are exactly the entrypoints that are undefined or reach no table |
| ErasureWalk.SharedSeenIsDifference | scripts/check_erasure_coverage.py:760-763 | with one seen-set the second walk visits the difference; the union stays right, and the second answer is right iff the closures are disjoint |
| ErasureWalk.SharedSeenLosesTables | scripts/check_erasure_coverage.py:760-763 | a table is lost iff only shared helpers name it |
| ErasureWalk.SharedSeenExample | scripts/check_erasure_coverage.py:760-763 | two erasures with one helper: the second finds no table |
| ErasureVerdict.DeservedIff | scripts/check_erasure_coverage.py:837-929 | each failure is deserved iff what it says is so of the handle, linked and prose tables, the reach and the registers |
| ErasureVerdict.Evaluate | scripts/check_erasure_coverage.py:821-929 | the report holds exactly the failures that are so and is empty iff the schema is covered |
| ErasureVerdict.CleanIff | scripts/check_erasure_coverage.py:837-929 | no failure is deserved iff reasons meet the floor, registered entrypoints are walked, exempt tables are in scope and unreached, and for each entrypoint the scope splits into reached, exempt and registered |
| ErasureVerdict.CleanCertificates | scripts/check_erasure_coverage.py:837-865 | with scope drawn from existing tables, a table is reached by an erasure iff it is neither exempt nor registered against it, and then the reason is reviewable |
| ErasureVerdict.CertificatesAreHonest | scripts/check_erasure_coverage.py:753-929 | with the computed reach, a clean report means a callable function names the table iff no reviewed reason excuses it |
| RunRecord.Recorder.OnSessionStart | scripts/check_coverage_ratchet.py:1716-1725 | the probes replace the record's stores |
| RunRecord.Recorder.OnCollectReport | scripts/check_coverage_ratchet.py:1736-1741 | a failed or skipped collection is counted |
| RunRecord.Recorder.OnLogReport | scripts/check_coverage_ratchet.py:1744-1767 | each phase report is counted where the hook counts it |
| RunRecord.Recorder.Observe | scripts/check_coverage_ratchet.py:1716-1767 | any sequence of hook calls leaves the record of that history |
| RunRecord.CountersAre | scripts/check_coverage_ratchet.py:1728-1760 | each counter is the number of the history's reports of its kind; deselections add up, and the last collection's size stands |
| RunRecord.SkipReasonsWritten | scripts/check_coverage_ratchet.py:1762-1819 | the manifest keeps at most five skip reasons with their counts over the history, and drops none more frequent than one it keeps |
| RunRecord.ParseReadsBack | scripts/check_coverage_ratchet.py:741-765 | the strict reader returns every field the writer wrote |
| RunRecord.ParseIsStrict | scripts/check_coverage_ratchet.py:741-765 | a manifest is read only if it has every key, the five inside `outcomes` included |
| RunRecord.Vouch | scripts/check_coverage_ratchet.py:801-861 | exactly the reasons that hold, and none iff the run is trusted |
| RunRecord.TrustIffClean | scripts/check_coverage_ratchet.py:782-890 | for every hook history, writing, parsing and vouching gives no reason iff the history is clean and the stores, if probed, were up and empty |
| RunRecord.TrustedRunHadEmptyStores | scripts/check_coverage_ratchet.py:850-890 | once a session start was recorded, trust implies both stores were reachable and empty |
| RunRecord.UnprobedRunIsTrusted | scripts/check_coverage_ratchet.py:1539-1552 | a record that saw no session start is trusted without any store |
| Ratchet.EveryUnitCountsOnce | scripts/check_coverage_ratchet.py:547-566 | a missing line, a partial branch and a suppressed line each add one to the number, and nothing else does |
| Ratchet.EvaluateGate | scripts/check_coverage_ratchet.py:1202-1252 | exactly the failures of the equality gate, over the rows' lines, branches and suppressions; none iff every row is at its budget and no budget is orphaned |
| Ratchet.GreenIsEquality | scripts/check_coverage_ratchet.py:1202-1252 | for one row per area, green iff the baseline equals the measurement |
| Ratchet.BaselineFile.Save | scripts/check_coverage_ratchet.py:1302-1356 | the file becomes the accepted budgets; refused are exactly the rows above their budget without a waiver of sufficient ceiling and an 80-character reason |
| Ratchet.AcceptThenGate | scripts/check_coverage_ratchet.py:1302-1356 | for one row per area, after an accept the gate on the same rows fails for exactly the refused ones, each as a regression |
| Ratchet.CleanAcceptIsGreen | scripts/check_coverage_ratchet.py:1302-1356 | for one row per area, an accept refuses nothing iff it leaves the ratchet green |
| Ratchet.AcceptIsIdempotent | scripts/check_coverage_ratchet.py:1302-1356 | for one row per area, repeating an accept changes nothing and refuses the same rows |
| Ratchet.AcceptKeepsIff | scripts/check_coverage_ratchet.py:1314-1333 | for one row per area, an accept keeps, lowers or raises under a waiver every budget there is iff no area has left the list |
| Ratchet.BudgetIsMinimum | scripts/check_coverage_ratchet.py:1317-1333 | after any accepts, each with one row per area, an unwaived area has a budget iff the last accept lists it, and it is the least number seen since the area was last missing |
| Ratchet.LeastEverIff | scripts/check_coverage_ratchet.py:1317-1333 | that budget is the least of its initial value and everything ever measured iff nothing smaller was seen before the gap |
| Ratchet.FixedListKeepsMinimum | scripts/check_coverage_ratchet.py:1302-1333 | while every accept lists an area and none waives it, its budget is the least of its initial value and everything measured |
| Ratchet.DroppedAreaIsForgotten | scripts/check_coverage_ratchet.py:1314-1333 | an area that leaves the list and returns is accepted at any number |
| Ratchet.EveryRaiseIsWaived | scripts/check_coverage_ratchet.py:1317-1333 | over any history with changing waivers and areas, a larger budget means the area had none at some point in between, or an accept raised it under a waiver with a long reason and a ceiling at least the raised budget |
| Ratchet.StaleWaivers | scripts/check_coverage_ratchet.py:1275-1299 | for each waiver exactly the first thing wrong with it; none iff every waiver names an area, argues its case and is still the budget |
| Ratchet.RaiseLeavesNoHeadroom | scripts/check_coverage_ratchet.py:1202-1332 | a raise followed by a green gate with the waiver listed makes budget, measurement and ceiling one number |
| Ratchet.RunScript | scripts/check_coverage_ratchet.py:1439-1521 | refuse, accept or judge, in that order; refused iff unmeasured, not vouched for, without branch data, older than a guarded source, or with an area that matched or executed nothing; a changed file only after a scored update |
| Ratchet.RunHistory | scripts/check_coverage_ratchet.py:1439-1482 | over any sequence of invocations on one file, each code is the refusal code iff that run was refused, the baseline moves only at scored updates, and ends as those updates alone make it |
| Ratchet.HistoryKeepsMinimum | scripts/check_coverage_ratchet.py:1302-1482 | over any sequence of invocations, an unwaived budget is the least number a scored update measured since one last missed the area |
| Ratchet.HistoryRaisesAreWaived | scripts/check_coverage_ratchet.py:1302-1482 | over any sequence of invocations, a larger budget means the area was missing in between or a scored update raised it under a waiver with a long reason and a sufficient ceiling |
| Ratchet.ChangeNeedsCleanHistory | scripts/check_coverage_ratchet.py:893-915 | once a session start was recorded, a baseline changes only after a session whose recorded history was clean and whose stores were empty |
| Ledger.JudgeTable | scripts/check_ledger_immutability.py:437-475 | the verdict on one table in the order asked, none iff every removing verb is covered and no blocking trigger is origin-only |
| Ledger.EvaluateTriggers | scripts/check_ledger_immutability.py:425-476 | the verdicts of all tables; none iff all are clean |
| Ledger.AppendOnlyIff | scripts/check_ledger_immutability.py:425-435 | a table keeps its rows under every run iff UPDATE, DELETE and TRUNCATE each meet an always-raising trigger under either replication role |
| Ledger.RoleKeepsRows | scripts/check_ledger_immutability.py:399-403 | a guard awake in one replication role keeps the rows while nobody switches to the other |
| Ledger.InsertIff | scripts/check_ledger_immutability.py:425-435 | rows can be added iff no awake trigger that always raises has the INSERT bit |
| Ledger.CleanIsAppendOnly | scripts/check_ledger_immutability.py:384-476 | among rows that mix tables, where every function whose text raises always does, a clean verdict on a table makes it append-only under every run of statements and role switches |
| Ledger.CheckTriggers | scripts/check_ledger_immutability.py:418-476 | from catalog rows to report: exactly the failures the rows' enabled letters, type bits and texts say; none iff every listed table is clean; if also every function whose text raises always does, every listed table is append-only |
| Ledger.TruncateDemandIsNeeded | scripts/check_ledger_immutability.py:455-457 | all demands but TRUNCATE: one statement empties the ledger |
| Ledger.MutationDemandsAreNeeded | scripts/check_ledger_immutability.py:449-454 | all demands but DELETE, or but UPDATE: one statement takes or rewrites a row |
| Ledger.ReplicaTriggersDoNotGuard | scripts/check_ledger_immutability.py:391-391 | replica-only triggers are not taken for enabled, and one statement of an ordinary session empties the table |
| Ledger.AlwaysDemandIsNeeded | scripts/check_ledger_immutability.py:468-475 | all demands but ENABLE ALWAYS: the table is guarded until a SET, and then a statement empties it |
| Ledger.ConditionalRaisePasses | scripts/check_ledger_immutability.py:405-405 | a function that mentions RAISE and does not always raise passes and protects nothing |
| JobWiring.RegistryProblems | scripts/check_job_wiring.py:242-267 | each of the four failures iff its disagreement holds, once; none iff the workers hold the lists the guard reads and the bulk worker answers exactly the bulk names with registered objects |
| JobWiring.NeverDropsIff | scripts/check_job_wiring.py:441-455 | no run of queues, drain and workers drops a job iff every name a site can say is answered where it is routed |
| JobWiring.CleanIffNeverDrops | scripts/check_job_wiring.py:441-473 | with the registry in agreement, the two enqueue sections are empty iff no run drops a job |
| JobWiring.ReportedSiteDrops | scripts/check_job_wiring.py:441-455 | with the registry in agreement, a reported enqueue site has a run that drops its job |
| JobWiring.RunsIffEnqueued | scripts/check_job_wiring.py:418-438 | with the registry in agreement and no unresolvable site, a registered non-cron function runs in some run iff it is not reported as never enqueued |
| JobWiring.ReportedIffNeverRuns | scripts/check_job_wiring.py:401-415 | with the registry in agreement, a defined job is reported iff it runs in no system, whatever the call sites say |
| JobWiring.StaleIffIdle | scripts/check_job_wiring.py:476-485 | an exemption is stale iff removing it changes nothing about what any site may say |
| OpenApi.IgnoredIs | scripts/check_openapi_fresh.py:54-77 | ignored are exactly prose (title, description, summary, tags, examples), bounds on numbers, texts and lists, and defaults |
| OpenApi.SignatureIff | scripts/check_openapi_fresh.py:80-87 | two documents have one signature iff they agree up to ignored entries and entry order at every depth |
| OpenApi.SignatureIsIdempotent | scripts/check_openapi_fresh.py:80-87 | taking the signature twice changes nothing |
| ContractEdits.EditKeepsSignature | scripts/check_openapi_fresh.py:80-87 | putting in an ignored entry or swapping two neighbours, at any depth, keeps the signature |
| ContractEdits.SignatureForgetsExactly | scripts/check_openapi_fresh.py:80-87 | two documents without a key twice in one dictionary have one signature iff a chain of such edits leads from one to the other |
| OpenApi.Diff | scripts/check_openapi_fresh.py:136-155 | exactly the added, removed and changed names and fields; empty iff the shapes are equal |
| OpenApi.SilentChangeIff | scripts/check_openapi_fresh.py:151-154 | a changed name shows no changed field iff the sides differ only in fields absent here and null there |
| GeneratedNames.KeysAt | scripts/check_openapi_fresh.py:174-197 | exactly the names declared by lines at the block's indent after its first header and before any shallower line that says something |
| GeneratedNames.KeysFromCut | scripts/check_openapi_fresh.py:188-190 | nothing after the first closing line matters |
| GeneratedNames.KeyLineIff | scripts/check_openapi_fresh.py:187-196 | a printed key line reads back as its name iff the spelling is readable (no colon, no quote at an end; bare: no leading space, no trailing question mark) |
| GeneratedNames.SectionReadsBack | scripts/check_openapi_fresh.py:174-197 | a printed section, with arbitrary deeper bodies and closing braces, reads back as exactly its names |
| GeneratedNames.GeneratedDrift | scripts/check_openapi_fresh.py:215-248 | exactly the missing and extra names of each section, or a broken reader where names are wanted and none is read; none iff the three name sets are the wanted ones |
| GeneratedNames.DriftIff | scripts/check_openapi_fresh.py:215-248 | on a printed file, no drift iff it was printed from these path, schema and operation names |
| TreeWalk.WalkFiles | scripts/tree_walk.py:22-34 | the answer is sorted and holds exactly the wanted files under no skipped directory below the root, each once on a well-formed tree; it is the sorted filter of the full walk |
| TreeWalk.PrunedIsFiltered | scripts/tree_walk.py:22-34 | not entering a skipped directory yields, in order, what filtering the full walk yields |
| TreeWalk.AnswerIff | scripts/tree_walk.py:25-29 | a file is in the answer iff its name is wanted and no directory strictly between root and file is skipped, whatever the root's own path |
| TreeWalk.EachFileOnce | scripts/tree_walk.py:22-34 | no file is listed twice |

## Left out

- Parsing: Python source, SQL text, TypeScript text beyond its lines, glob patterns and JSON text are taken as given trees, token sets, line lists, predicates and values.
- Foreign systems: catalog queries, Redis and Postgres probes, coverage.py and Alembic enter only through the facts they return.
- Messages: failure texts, printing and summaries; failures are values that carry their subject.
- GateSound.ObeyedIsSafe: says that the decision then held allows, not that it was asked about the same contact; a name keeps an earlier decision when a later gate call raises.
- GateSound.AssertedIsSafe: says that some assertion returned earlier in the run, not that it was asked about the same contact.
- GateSound.GatedIsSafe: as for the two lemmas it combines.
- Language: one target per assignment; `finally`, `nonlocal`, generators and a nested function that outlives its enclosing call are not in it; functions are told apart by name, so a nested function that calls another sees the functions its caller defined.
- RunRecord.ParseReadsBack: numbers written as strings, which the original would convert, are type errors in the model's reader; its writer never produces them. A manifest whose service entries are not objects stops the original with an exception and is refused in the model.
- Ledger.CleanIsAppendOnly: assumes functions that raise whenever they are called, if their text raises at all; WHEN clauses, column lists and conditional bodies are covered only by `ConditionalRaisePasses`.
- JobWiring.CleanIffNeverDrops: takes from the register of dynamic sites that an acknowledged site says only names chosen at producers the scan reads.
- OpenApi.Diff: the assembly of a shape from a specification (`_operation_shape`, `_shape`, `_generated_names`) is not modelled; shapes and name sets are inputs.
- Peer reads, id references and producer keyword checks: `is_peer_read`, `_is_id_reference` and the producer arm of the scope guard are pattern tests on one node.
- Other sections of the same scripts (engine reach, opt-in evidence, agent state writers, ORM scans, area coverage) and the remaining guards: set differences, thresholds and regular expressions that would only add easy members.
