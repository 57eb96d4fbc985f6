# Verification of the node language's protocols

This project models the parts of `01.APP/nodelang` whose correctness cannot be read off one function, and the
environment upgrade in `01.APP/colleague_setup.py`, and proves what they are for. Every Dafny file is one module.

- **Policy compiler** (`CellGraph`, `HornLogic`, `LogicShapes`, `HornSolver`, `PolicySource`, `PolicyRules`,
  `PolicyCompiler`, `PolicyEvaluation`, `PolicyAnswers`, `PolicyMeaning`, `PolicyWitness`, `PolicyInstallation`,
  `PolicyObligations`, `PolicyBinding`).
  Cells, relations as linked chains, logic programs read from the graph, the left-to-right evaluator with its budget
  and failure memory, the released source policy with its digest, the compiler that emits the cells of the translated
  program, and the evaluator that tries forbids before permits. On any later graph that still holds the plan's cells
  and the pinned policy digest, an answer of the compiled program is what the source rules of that graph decide
  (`PolicyEvaluation.EvaluateCompiled`), and `PolicyMeaning.CompiledIsSource` says exactly when the source evaluation
  returns that decision too: when the request is answerable and the object's relation readable for every rule that
  asks for it. Budgets are accounted for: from a stated budget on the running evaluator returns what the plain search
  returns (`PolicyMeaning.EvaluateBoth`). `PolicyObligations` carries this to lists of obligations while other threads
  commit, change the owner's selection or re-authenticate.
- **Companion placement** (`Placement`). The finite set of anchors is complete for positions that keep their margin on
  one side, and for all perimeter positions if and only if the margin is zero; the sprite takes the first place of least
  overlap in an order stated in screen coordinates.
- **Recovery** (`JournalIdentity`, `PrefixRanges`, `GraphPrefix`, `RestoreFiles`, `LockOrder`). Unique decodability of
  the journal's identity stream, the range count, truthfulness of a restored index, publication of exact copies under
  callbacks that may do anything, absence of cyclic waits and the end of every run.
- **Draft composer** (`DraftComposer`). The static check of the draft language is sound for its interpreter, and exact,
  and after any run a local name stands for the node its own creation made.
- **Agent work** (`AgentWork`, `AgentSteps`, `InferredWires`). The projection is idempotent and conservative, its wires
  are acyclic and exactly those that the texts of the steps explain, a fork is an isomorphic copy.
- **Runtime client and transport** (`ReplayWindow`, `RuntimeClient`). The replay window, and no blind repeat of an
  enrollment or a release over a lossy pipe.
- **Upgrade** (`EnvironmentSwap`, `ApplicationUpdate`). Crash safety of the directory swap, and the update machine under
  every interleaving.

`Wrappers` and `Octets` hold what the modules share: options and results, bytes, names and big-endian lengths.
`dafny verify dfyconfig.toml` checks the whole project.

## Assumptions

Hashes are injective on what they digest. Generated identities (uuid4, random hex, step hashes) are new and distinct:
cell identities are names counted upwards, and identities derived from a relation's root carry the root. A released
protocol has different cells for roles that meet in one relation. Databases are sequences of rows in key order,
a file is its bytes with an identity that every write changes, a rename is atomic and fails on an existing target.
Deadlines, expiries and disk budgets are points at which a call may refuse. The context predicates of a factory are
those its plan was compiled with. One client is used by one thread at a time.

## Where the code does not do what it says

- The range count of a closed journal (`application_recovery_files.py:202-207`) closes a prefix's range at the prefix
  followed by U+10FFFF, so that an id continuing a prefix with that code point is counted as work.
  `PrefixRanges.WorkCount` gives the exact condition under which the count is right.
- The companion yields when no candidate is clear (`baboom_companion_placement.py:164-245`), and its candidates are
  anchors. With a positive margin a perimeter position with work nearer than the margin on both sides can be free and is
  missed: `Placement.GapIsMissed` for every sprite size and positive margin. A yield says that no perimeter position is
  free if and only if the margin is zero (`Placement.YieldIsRightExactlyWithoutMargin`).
- The compiled evaluation stops at its first permit proof (`application_policy_compiler.py:144-154`), where the source
  raises if a later permit asks for a relation it cannot read (`cell_authorization.py:979-988`). It then allows what the
  source refuses to decide: `PolicyMeaning.AllowsWhereSourceRaises` for every released policy of that kind,
  `PolicyWitness.SourceRaisesHere` for one graph, built cell by cell. `PolicyMeaning.EvaluateBoth` and
  `PolicyAnswers.RefusesExactly` say exactly when each of the two evaluations returns.
- `release_agent_session` says that its token is never used again for ordinary operations
  (`application_machine_transport.py:2355-2360`); `renew_runtime_presence` has no such guard.
  `RuntimeClient.SendsAfterRelease` says exactly which calls still send.
- An automatic install is never to be a pre-release (`application_update.py:314-316`). It looks at the flag without the
  lock it installs under (`application_update.py:268-303`), and a refused restart makes a staged pre-release ready
  without its flag (`application_update.py:318-321`). `ApplicationUpdate.Update.InstallIfSafe` says exactly when the
  build it restarts into is a pre-release; `ApplicationUpdate.PrereleaseInstalledInBetween` and
  `ApplicationUpdate.PrereleaseInstalledAfterRefusal` are runs of it. No caller of `refuse_restart` exists in the
  repository, and without a refusal `ApplicationUpdate.LookIsHonest` leaves only the first way.
- A setup that ends, or cannot remove the readiness marker, after the second rename (`colleague_setup.py:237-254`) leaves
  a marker of the old environment. `EnvironmentSwap.Installation.Swap` and `Replace` say exactly when, on the outcomes
  of the file operations, and `EnvironmentSwap.MarkerGoesStale` is such a run.

Not a failure, but easy to lose: the two index inspections of a restored graph (`application_recovery_restore.py:120-138`)
are enough only together with the foreign key check of another module
(`application_recovery_restore_files.py:212-213`); `GraphPrefix.ComparedIsTruthfulExactly` says what that check rules out.

## Model

| member | source | states |
|---|---|---|
| CellGraph.WalkRelation | 01.APP/nodelang/cell_protocols.py:445-525 | the cursor walk over chain cells, with its budget, cycle, dangling-cell and empty-tail checks, returns the members the recursive reading defines, or the same refusal |
| CellGraph.Compose | 01.APP/nodelang/cell_protocols.py:365-399 | the composing loop yields exactly the incidence and chain cells of the pairs |
| CellGraph.ReadComposed | 01.APP/nodelang/cell_protocols.py:365-399 | round trip: in any graph that holds the composed cells, reading returns the pairs in order if and only if the budget covers them and every role and participant exists |
| CellGraph.BudgetsAgree | 01.APP/nodelang/cell_protocols.py:445-476 | a budget can only cut a reading short: any two budgets that suffice show the same relation |
| CellGraph.ReadEnough | 01.APP/nodelang/cell_protocols.py:445-476 | a budget above the number of cells is never exhausted and never matters, cycles included |
| CellGraph.ReadInLater | 01.APP/nodelang/cell_protocols.py:445-525 | a readable relation stays as it is when cells are added |
| CellGraph.InstallHolds | 01.APP/nodelang/universal_cell.py:4000-4030 | committing new cells under new names puts all of them in place and changes nothing else |
| HornLogic.ReadSpelledTerm | 01.APP/nodelang/cell_logic.py:109-133 | a term written as cells reads back as itself exactly when its roles, shape and value exist and the budget is two or more |
| HornLogic.ReadSpelledClause | 01.APP/nodelang/cell_logic.py:136-157 | a written clause reads back as itself whenever it can be read, and can be once what it names exists |
| HornLogic.ReadSpelledRule | 01.APP/nodelang/cell_logic.py:160-186 | the same for a rule with its head and body |
| HornLogic.ReadSpelledProgram | 01.APP/nodelang/cell_logic.py:385-393 | the same for a whole program with distinct rule roots |
| HornLogic.ProgramCut | 01.APP/nodelang/cell_logic.py:109-186 | a budget can only keep a program from being read, never change what it reads as, and one above the number of cells does not even that |
| LogicShapes.TermExactly | 01.APP/nodelang/cell_logic.py:109-133 | a relation reads as a term if and only if its pairs are the term shape and one variable or constant |
| LogicShapes.ClauseExactly | 01.APP/nodelang/cell_logic.py:136-157 | a clause reads if and only if its relation has exactly the clause shape, one predicate and argument roots that read, in order, as its terms |
| LogicShapes.RuleExactly | 01.APP/nodelang/cell_logic.py:160-186 | a rule reads if and only if its relation has exactly the rule shape, one root that reads as its head and roots that read, in order, as its body |
| LogicShapes.ProgramExactly | 01.APP/nodelang/cell_logic.py:385-393 | a program reads if and only if it names one or more rule roots, none twice, each reading as the rule in its place |
| HornSolver.UnifyIsInstance | 01.APP/nodelang/cell_logic.py:207-223 | unification with a ground row extends the bindings to an instance of the row |
| HornSolver.UnifyIsMostGeneral | 01.APP/nodelang/cell_logic.py:207-223 | unification succeeds whenever any instance exists, and binds no more than that instance does |
| HornSolver.SolveIsSound | 01.APP/nodelang/cell_logic.py:417-431 | bindings found left to right satisfy every body atom |
| HornSolver.SolveIsComplete | 01.APP/nodelang/cell_logic.py:417-431 | when any bindings satisfy the body, the left-to-right search that returns does not come back empty |
| HornSolver.AttemptDecides | 01.APP/nodelang/cell_logic.py:590-674 | entering one rule succeeds if and only if the rule proves the query under some bindings |
| HornSolver.FirstProofDecides | 01.APP/nodelang/cell_logic.py:676-730 | evaluation returns the first provable rule for the predicate, and nothing exactly when no rule is provable |
| HornSolver.Evaluation.SolveBody | 01.APP/nodelang/cell_logic.py:417-431 | the metered search with its memory of failed ground goals spends at most the cost of the body; it gives the answer of the plain search unless the budget is below that cost and what the provider needs |
| HornSolver.Evaluation.TryRule | 01.APP/nodelang/cell_logic.py:590-674 | one entry rule: the failure memory is cleared, query facts and arities are checked; the same bound, and the outcome of the plain attempt |
| HornSolver.Evaluation.Search | 01.APP/nodelang/cell_logic.py:676-684 | the loop over entry rules stops at the first proof; with a budget that covers the cost of all of them it is never exhausted |
| HornSolver.EvaluateLogic | 01.APP/nodelang/cell_logic.py:364-406 | reading the program and evaluating one grounded query is the plain search over what the graph holds; it is exhausted only below the cost of the search and what the provider needs, and spends no more than that cost |
| PolicySource.Evaluate | 01.APP/nodelang/cell_authorization.py:1009-1075 | the source evaluation: default deny, a forbid overrides every permit, the determining rules in order; it refuses exactly for unanswerable requests and unjudgeable rules |
| PolicySource.ListedRootsMatch | 01.APP/nodelang/cell_authorization.py:1034-1047 | a root is among the determining roots of an effect if and only if a rule of that root and effect matches |
| PolicySource.MatchesExactly | 01.APP/nodelang/cell_authorization.py:942-1006 | a rule matches if and only if principal, object and action are the request's, every optional field it has is what the identity or the request says, the subject is in the readable relation it asks for, its expiry is to come and its limit not reached |
| PolicySource.AnswerableExactly | 01.APP/nodelang/cell_authorization.py:900-1032 | a request is answerable if and only if every root that the identity or the request names exists, the action is declared and the invocations are a count |
| PolicySource.SamePairsSameRule | 01.APP/nodelang/cell_authorization.py:674-696 | which rule a relation is depends on its roles and participants only |
| PolicyRules.RuleIsItsPairs | 01.APP/nodelang/cell_authorization.py:674-696 | a relation reads as a rule if and only if its pairs are, in any order, that rule's: effect, principal, object and action under their roles, and each optional field that is there under its own |
| PolicyRules.WrittenRuleReads | 01.APP/nodelang/cell_authorization.py:592-696 | round trip: wherever the cells of a written rule are, it reads back as that very rule if and only if everything it names exists |
| PolicyRules.PolicyIsItsPairs | 01.APP/nodelang/cell_authorization.py:727-748 | a relation reads as a policy if and only if its pairs are that policy's, with the rules in this order and none repeated |
| PolicyRules.WrittenPolicyReads | 01.APP/nodelang/cell_authorization.py:699-748 | round trip: a written policy reads back as itself, its rules in order, if and only if what it names exists, no rule is repeated and the budget covers its rules and three more |
| PolicySource.RuleDigestPins | 01.APP/nodelang/cell_authorization.py:756-774 | equal rule digests come from the same root and the same rule, whatever the two graphs |
| PolicySource.DigestPinsRules | 01.APP/nodelang/cell_authorization.py:777-849 | two graphs in which the policy verifies with the same digest hold the same rules in the same order |
| PolicyCompiler.Emitter.Add | 01.APP/nodelang/application_policy_compiler.py:61-64 | new cells join the plan without an identity clash, and exceeding the budget refuses |
| PolicyCompiler.Emitter.Clause | 01.APP/nodelang/application_policy_compiler.py:76-82 | the emitted cells spell the clause |
| PolicyCompiler.Emitter.HornRule | 01.APP/nodelang/application_policy_compiler.py:97-106 | the emitted cells spell the rule, within the size its clauses allow |
| PolicyCompiler.Emitter.Translation | 01.APP/nodelang/application_policy_compiler.py:90-106 | one translated clause, with an atom for each constraint the rule has and the membership condition last |
| PolicyCompiler.Emitter.Clauses | 01.APP/nodelang/application_policy_compiler.py:87-107 | two clauses a rule in order, under distinct roots, each remembered with its source rule |
| PolicyCompiler.PreparePolicy | 01.APP/nodelang/application_policy_compiler.py:32-110 | for any graph and policy the plan is made exactly from an admissible input, its rules read as `PolicyRules.RuleIsItsPairs` says: its cells spell the translated program, have new distinct identities and fit the budget; a budget of 3 cells and 356 a rule always suffices |
| PolicyEvaluation.FactsAreTheTruth | 01.APP/nodelang/application_policy_compiler.py:133-143 | the facts handed to the evaluator are true and, where the relation is named, complete |
| PolicyEvaluation.CombinedAgrees | 01.APP/nodelang/application_policy_compiler.py:133-143 | context provider and relation facts together answer with those facts or run out of budget |
| PolicyEvaluation.CombinedSupplies | 01.APP/nodelang/application_policy_compiler.py:133-143 | and they answer from a budget that suffices for the context and exceeds the number of cells |
| PolicyEvaluation.BodyMeans | 01.APP/nodelang/application_policy_compiler.py:90-103 | a translated body is satisfied if and only if the query is about the context and the rule's conditions hold through that resource |
| PolicyEvaluation.ClauseMeansRule | 01.APP/nodelang/application_policy_compiler.py:88-106 | a translated clause proves the decision if and only if its rule has that effect and applies through that resource |
| PolicyEvaluation.QueryDecides | 01.APP/nodelang/application_policy_compiler.py:144-151 | for one effect: a proof names a source rule of that effect that applies, and no proof means that none does |
| PolicyEvaluation.PlanStillMeans | 01.APP/nodelang/application_policy_compiler.py:126-131 | in any later graph that still holds the plan's cells and the pinned digest, the program reads as compiled and the rules are the compiled ones |
| PolicyEvaluation.EvaluateEffect | 01.APP/nodelang/application_policy_compiler.py:144-153 | validate, evaluate and validate again for one effect; exhausted only below what the query needs, refused otherwise only as the query itself is |
| PolicyEvaluation.EvaluateCompiled | 01.APP/nodelang/application_policy_compiler.py:113-154 | an answer is the verdict of the source rules that the later graph holds; from the needed budget on and with patience for five validations, it refuses only for a changed plan or source, or as its queries themselves do |
| PolicyMeaning.SourceMatchIsApplies | 01.APP/nodelang/cell_authorization.py:942-1006 | for supported rules the source's own match, when it returns, is the condition the clauses translate |
| PolicyMeaning.JudgedExactly | 01.APP/nodelang/cell_authorization.py:974-1003 | the source judges a supported rule if and only if the object's relation can be read where the rule, its other conditions met, asks for it |
| PolicyMeaning.SourceReturnsExactly | 01.APP/nodelang/cell_authorization.py:1009-1047 | the source evaluation returns, instead of raising, if and only if the request is answerable and the object is readable for every rule that asks |
| PolicyMeaning.CompiledIsSource | 01.APP/nodelang/application_policy_compiler.py:113-154 | the source returns and decides what the compiled program answers, its proof from a determining rule, if and only if the request is answerable and the object readable; elsewhere the source raises |
| PolicyMeaning.ReadableIsAnswered | 01.APP/nodelang/application_policy_compiler.py:133-153 | where every rule that asks finds the object's relation readable, no query meets an unreadable one |
| PolicyMeaning.EvaluateBoth | 01.APP/nodelang/application_policy_compiler.py:113-154 | side by side, with ample budget: the compiled evaluation answers exactly when its queries do, the source exactly when the request is answerable and the object readable, and where the source returns the compiled evaluation returns the same decision |
| PolicyMeaning.AllowsWhereSourceRaises | 01.APP/nodelang/application_policy_compiler.py:144-154 | for every graph whose released policy starts with a permit that needs no relation: committed there, the compiled program allows, while the source raises for a later rule that asks for an unreadable relation |
| PolicyAnswers.ClauseOutcome | 01.APP/nodelang/application_policy_compiler.py:88-106 | a clause's attempt fails if and only if it gets as far as the object's relation and that cannot be read, and otherwise succeeds if and only if its rule applies |
| PolicyAnswers.RefusesExactly | 01.APP/nodelang/application_policy_compiler.py:133-153 | a query meets an unreadable relation if and only if the object's cannot be read and some clause asks for it before any clause is proved |
| PolicyWitness.PolicyIsReleased | 01.APP/nodelang/cell_authorization.py:777-849 | a concrete graph in which a policy of two permits verifies with its recorded digest and reads back as those permits |
| PolicyWitness.NothingDangles | 01.APP/nodelang/universal_cell.py:4030-4042 | that graph has no link that leads nowhere, as every commit demands |
| PolicyWitness.CompileTwoPermits | 01.APP/nodelang/application_policy_compiler.py:32-110 | the compiler makes a plan of that policy |
| PolicyWitness.SourceRaisesHere | 01.APP/nodelang/cell_authorization.py:979-988 | and on that plan, committed, the compiled evaluation allows while the source evaluation raises on an answerable request |
| PolicyInstallation.PolicyLater | 01.APP/nodelang/cell_authorization.py:833-849 | a verified policy stays verified, with the same digest, when cells are added |
| PolicyInstallation.RuleIsNamed | 01.APP/nodelang/cell_authorization.py:674-696 | everything a readable rule refers to is in the graph |
| PolicyInstallation.InstalledPlanEvaluates | 01.APP/nodelang/application_policy_compiler.py:108-131 | a plan committed to the graph it came from holds, its source stands, and its program can be read |
| PolicyObligations.Runtime.Validate | 01.APP/nodelang/application_policy_context.py:140-151 | a context validates exactly while it has not expired, the store is at the captured revision, and the owner's selection and the authentication are those of the capture |
| PolicyObligations.Capture | 01.APP/nodelang/application_policy_context.py:76-173 | a returned context was resolved on the live graph under the stamp that is current on return; a stale one has a cause |
| PolicyObligations.ValidateAll | 01.APP/nodelang/application_policy_context.py:225-230 | a completed round means that the store is at the revision and every context's stamp was current during the round; a failed one has a cause |
| PolicyObligations.DecidePair | 01.APP/nodelang/application_policy_context.py:206-226 | one pair is decided for the context captured for it, by the source policy on the first snapshot; afterwards every captured context still stands |
| PolicyObligations.ObligationsAre | 01.APP/nodelang/application_policy_context.py:195-203 | the obligations are the relation's members, each of them and in order, if and only if it can be read, has one to 32 members, no two alike, and each is a declared action on a target that is there |
| PolicyObligations.EvaluateObligations | 01.APP/nodelang/application_policy_context.py:178-230 | with other threads committing, reselecting and re-authenticating between any two steps, allowed means one proof for each member of the obligation relation, in order and about that member's role and participant, from a permit of the source policy that applies where no forbid does, on one revision and under stamps all still current in the last round of validation; not allowed, that the source policy denies a member and allows those before it; the obligations are refused exactly for members that are not admissible, and every other refusal has its cause |
| PolicyObligations.OneAuthentication | 01.APP/nodelang/application_policy_context.py:140-151 | when no selection or authentication comes back after it was given up, all contexts were captured under the one current in the end |
| PolicyObligations.ProviderSupplies | 01.APP/nodelang/application_policy_context.py:157-173 | the context provider answers from a budget of its facts with their evidence |
| PolicyObligations.AllowedPairIsPermitted | 01.APP/nodelang/application_policy_context.py:206-226 | a pair with such a proof is one that the source policy allows |
| PolicyObligations.VerdictPermits | 01.APP/nodelang/application_policy_context.py:215-225 | an answer allows if and only if some permit applies and no forbid does |
| PolicyObligations.OneVerdict | 01.APP/nodelang/application_policy_context.py:194-230 | one graph never both allows and denies one context |
| PolicyBinding.PrepareBinding | 01.APP/nodelang/application_policy_binding.py:29-40 | the loop yields one leaf pair for the version and each context field and the relation over them, all under new names |
| PolicyBinding.BindingRoundTrip | 01.APP/nodelang/application_policy_binding.py:29-76 | a prepared descriptor committed to any graph reads back as exactly its eleven leaves |
| PolicyBinding.EachFieldOnce | 01.APP/nodelang/application_policy_binding.py:43-67 | an accepted descriptor carries the version and each of the ten fields exactly once |
| PolicyBinding.FieldExactly | 01.APP/nodelang/application_policy_binding.py:50-67 | a field is two leaves, the field's name and the one value that goes with it, and nothing else is |
| PolicyBinding.AllSelected | 01.APP/nodelang/application_policy_binding.py:68-69 | with eleven distinct fields every predicate is selected, and the selected leaves differ exactly when the members' leaves do |
| PolicyBinding.ReadBinding | 01.APP/nodelang/application_policy_binding.py:43-76 | a descriptor is accepted exactly when its relation has eleven members with distinct known fields and distinct leaves; the result maps each field to its leaf and digests every cell read |
| PolicyBinding.StreamIsDecodable | 01.APP/nodelang/application_policy_binding.py:70-75 | equal digest inputs come from equal lists of cells |
| PolicyBinding.DigestPinsBinding | 01.APP/nodelang/application_policy_context.py:59-74 | an equal digest at a later reading means that every cell read is unchanged, and so are the members and their fields |
| Placement.AreaCountsPoints | 01.APP/nodelang/baboom_companion_placement.py:33-38 | the intersection area is the number of points that both rectangles cover |
| Placement.AreaIsOverlap | 01.APP/nodelang/baboom_companion_placement.py:33-38 | the intersection area is zero exactly when the rectangles do not overlap |
| Placement.NoOverlapIsFree | 01.APP/nodelang/baboom_companion_placement.py:222-245 | a total overlap of zero means that no declared work is covered |
| Placement.Coordinates | 01.APP/nodelang/baboom_companion_placement.py:91-101 | the loop over the obstacles collects the coordinates beside each of them |
| Placement.ListAnchors | 01.APP/nodelang/baboom_companion_placement.py:85-113 | every anchor lies on one of the four margin lines, the four corners come first, bottom-right, bottom-left, top-right, top-left, each at its margin lines, and the list is the anchors in order of preference |
| Placement.PerimeterPositions | 01.APP/nodelang/baboom_companion_placement.py:71-126 | every anchor held on screen, each position once, in order |
| Placement.CandidatesCoverAnchors | 01.APP/nodelang/baboom_companion_placement.py:115-126 | no anchor is lost by holding it on screen and dropping repeats |
| Placement.HeldIsNearest | 01.APP/nodelang/baboom_companion_placement.py:60-68 | holding a sprite on screen moves it no further along either axis than any position on screen would |
| Placement.BestIsFirstOfLeast | 01.APP/nodelang/baboom_companion_placement.py:85-126 | in screen coordinates: the first best candidate is the first of all places, edge by edge in the order of preference and along each edge the two margin positions and then beside each obstacle in turn, that covers least work; every earlier place covers more |
| Placement.FirstIsCorner | 01.APP/nodelang/baboom_companion_placement.py:85-90 | a free corner is taken, bottom-right before bottom-left before top-right before top-left, and a side, the bottom or the top only when no corner is free |
| Placement.ReportIs | 01.APP/nodelang/baboom_companion_placement.py:129-161 | the message is the one of its size that is centred over the sprite as far as the screen allows, on screen and clear, a gap above the sprite, else a gap below, else none |
| Placement.SlideDown | 01.APP/nodelang/baboom_companion_placement.py:91-101 | any free interval that keeps its margin below slides to a listed coordinate that is still free |
| Placement.SlideUp | 01.APP/nodelang/baboom_companion_placement.py:91-101 | the same upwards |
| Placement.SearchIsComplete | 01.APP/nodelang/baboom_companion_placement.py:71-125 | if any position in a margin column or row is free and keeps its margin on one side, then some anchor is free |
| Placement.ExactWithoutMargin | 01.APP/nodelang/baboom_companion_placement.py:71-125 | without a margin, an anchor is free if and only if any position on the perimeter is free |
| Placement.GapIsMissed | 01.APP/nodelang/baboom_companion_placement.py:71-125 | for a sprite of any size and any positive margin a screen with a free perimeter position that no anchor reaches |
| Placement.YieldIsRightExactlyWithoutMargin | 01.APP/nodelang/baboom_companion_placement.py:164-245 | for a sprite of any size, a yield is right on every screen and for any work if and only if the margin is zero |
| Placement.LeastOverAnchors | 01.APP/nodelang/baboom_companion_placement.py:213-238 | the chosen candidate has least total overlap among all anchors, and it is zero exactly when an anchor is free |
| Placement.Rank | 01.APP/nodelang/baboom_companion_placement.py:213-238 | the first candidate with the least overlap |
| Placement.ClearMessage | 01.APP/nodelang/baboom_companion_placement.py:129-161 | the message goes above, else below, else nowhere; where it goes it is on screen and clear of sprite and work |
| Placement.Place | 01.APP/nodelang/baboom_companion_placement.py:164-245 | the sprite is always on screen, at the first place of least overlap in the order of preference, its edge the one whose margin line it stands on, and yields only when no anchor is free; the message is shown exactly when the sprite is clear and it fits above or below; refusals are exactly the invalid requests |
| GraphPrefix.EqualRows | 01.APP/nodelang/application_recovery_restore.py:52-70 | the streaming comparison of two cursors decides equality of the rows |
| GraphPrefix.PlainSchemaIsEqual | 01.APP/nodelang/application_recovery_restore.py:75-105 | an accepted schema without embedded history or tombstones is the owner's |
| GraphPrefix.AcceptedExactly | 01.APP/nodelang/application_recovery_restore.py:75-105 | a schema is accepted if and only if both stay within 128 objects and every difference is a tombstone table in two of its known texts or, beside embedded history, a page object that one side lacks |
| GraphPrefix.AdmitGraph | 01.APP/nodelang/application_recovery_restore.py:108-138 | a copied graph is admitted exactly when its schema is accepted, both histories agree up to the revision, both inspections find nothing, and the foreign keys hold |
| GraphPrefix.ReplayHoldsTheNewest | 01.APP/nodelang/universal_cell.py:1425-1440 | a replay of the history holds each cell's one version that nothing supersedes |
| GraphPrefix.HistoryIsThePrefix | 01.APP/nodelang/application_recovery_restore.py:112-119 | an admitted history is exactly the owner's history up to the revision |
| GraphPrefix.CleanIndexIsTheReplay | 01.APP/nodelang/application_recovery_restore.py:120-138 | an index that passes both inspections is the replay of its history |
| GraphPrefix.AdmittedIndexIsTruthful | 01.APP/nodelang/application_recovery_restore.py:108-138 | an admitted copy indexes, for every cell, the live owner's last write at or before the revision, and nothing else |
| GraphPrefix.TruthfulCopyIsAdmitted | 01.APP/nodelang/application_recovery_restore.py:108-138 | conversely a copy of a retained prefix with its replayed index is admitted |
| GraphPrefix.ReplayedIndexIsClean | 01.APP/nodelang/application_recovery_restore.py:120-138 | a replayed index passes both inspections |
| GraphPrefix.ComparedIsTruthfulExactly | 01.APP/nodelang/application_recovery_restore.py:108-138 | with all other comparisons passed, the index is truthful if and only if no copied version lies above the recorded revision |
| GraphPrefix.ForgedFutureRow | 01.APP/nodelang/application_recovery_restore_files.py:212-213 | such a version and an index row pointing at it pass every comparison but the foreign key check |
| JournalIdentity.ClosedJournalIdentity | 01.APP/nodelang/application_recovery_files.py:114-159 | the nested loops feed the digest with the stream of a cell journal, and refuse what is no cell journal |
| JournalIdentity.FeedTable | 01.APP/nodelang/application_recovery_files.py:142-157 | one table: its name, columns, rows and end mark |
| JournalIdentity.FeedRow | 01.APP/nodelang/application_recovery_files.py:153-156 | one row: its mark and a tagged field a value |
| JournalIdentity.FieldRoundTrip | 01.APP/nodelang/application_recovery_files.py:125-139 | a tag, eight length bytes and the raw value decode to the value and what follows |
| JournalIdentity.RowsRoundTrip | 01.APP/nodelang/application_recovery_files.py:153-157 | a list of marked rows and its end mark decode to the rows |
| JournalIdentity.TableRoundTrip | 01.APP/nodelang/application_recovery_files.py:148-157 | a table's stream decodes to its name, columns with types and rows |
| JournalIdentity.JournalRoundTrip | 01.APP/nodelang/application_recovery_files.py:125-157 | a whole stream decodes to the application id, the user version and the tables |
| JournalIdentity.EqualStreamsEqualJournals | 01.APP/nodelang/application_recovery_files.py:125-159 | equal streams come from equal journals |
| PrefixRanges.RangeOfPrefix | 01.APP/nodelang/application_recovery_files.py:202-207 | the range from a prefix to its ceiling holds exactly the ids with the prefix that do not go on with the last code point |
| PrefixRanges.RangesInOrder | 01.APP/nodelang/application_recovery_files.py:202-207 | ranges of different prefixes, neither continuing the other, do not touch |
| PrefixRanges.WorkCount | 01.APP/nodelang/application_recovery_files.py:202-207 | the sum over the gaps is the number of ids without a prefix plus the blind ids, and the exact filter count if and only if no id is blind |
| PrefixRanges.NoBlindId | 01.APP/nodelang/application_recovery_files.py:202-207 | the error of the count is zero exactly when no id is blind |
| PrefixRanges.NoLastCodePoint | 01.APP/nodelang/application_recovery_files.py:202-207 | an id free of the last code point is never blind |
| PrefixRanges.MiscountedId | 01.APP/nodelang/application_recovery_files.py:202-207 | an id that continues any of the source's prefixes with U+10FFFF carries a prefix and is blind |
| PrefixRanges.MiscountedSession | 01.APP/nodelang/application_recovery_files.py:202-207 | the source's loop over its own prefixes counts such an id as work |
| PrefixRanges.SessionPrefixesAdmitted | 01.APP/nodelang/application_recovery_files.py:203-203 | the source's four prefixes are ascending and none continues another |
| LockOrder.ProceduresKeepTheOrder | 01.APP/nodelang/application_recovery.py:151-197 | backup, restore preparation, preflight and close, the last with its nested backup and restore, take locks only in order and return with none held |
| LockOrder.NestRuns | 01.APP/nodelang/application_recovery_close.py:88-144 | nesting an admissible list of locks around a body keeps the discipline |
| LockOrder.AscendingIsAdmissible | 01.APP/nodelang/application_recovery_restore.py:226-271 | locks taken in order, with re-entry, are admissible |
| LockOrder.StepKeepsOrder | 01.APP/nodelang/application_recovery.py:37-47 | every step of every thread, failures and unwinding included, keeps the order and one holder a lock |
| LockOrder.NoCyclicWait | 01.APP/nodelang/application_recovery_close.py:175-228 | in every reachable state of any number of threads no chain of waiting threads is a cycle |
| LockOrder.SomeoneCanMove | 01.APP/nodelang/application_recovery.py:151-197 | while a thread is unfinished, some thread can take a step that is no failure |
| LockOrder.FinishedHoldsNothing | 01.APP/nodelang/application_recovery_restore.py:31-49 | a thread that left by return or exception holds no lock |
| LockOrder.EveryRunEnds | 01.APP/nodelang/application_recovery.py:151-197 | no run of any number of threads is longer than twice the code of their procedures, and one that cannot go on has ended: every thread has left and no lock is held |
| RestoreFiles.World.Inspect | 01.APP/nodelang/application_recovery_restore_files.py:250-282 | the admitted manifest, names and recorded source identities |
| RestoreFiles.SafeNamesAre | 01.APP/nodelang/application_recovery_restore_files.py:102-121 | an output name is safe if and only if it is none of the reserved ones and none that SQLite would put beside any other file |
| RestoreFiles.AdmittedIsOneFileEach | 01.APP/nodelang/application_recovery_restore_files.py:250-282 | a manifest is admitted if and only if it describes the graph and every physical file has a name of its own, not the manifest's |
| RestoreFiles.World.CopyExact | 01.APP/nodelang/application_recovery_restore_files.py:157-184 | a returned copy has exactly the manifest's bytes |
| RestoreFiles.World.FillStage | 01.APP/nodelang/application_recovery_restore_files.py:286-306 | only names the helper may create enter the stage, and all of them are owned; from a source that is as its manifest says, exactly the manifest's files do |
| RestoreFiles.World.CheckVerified | 01.APP/nodelang/application_recovery_restore_files.py:317-326 | after the owner's verification the staged copies and the source they came from are checked again |
| RestoreFiles.World.VerifyCopies | 01.APP/nodelang/application_recovery_restore_files.py:307-341 | after the verifier did anything to the files, success pins every staged file to the manifest's bytes and the receipt |
| RestoreFiles.World.Publish | 01.APP/nodelang/application_recovery_restore_files.py:343-358 | after the publication callback did anything, the rename onto an absent destination moves exactly the pinned files; a refusal leaves the callback's files as they are |
| RestoreFiles.World.PrepareRestore | 01.APP/nodelang/application_recovery_restore_files.py:236-362 | a returned destination was absent and holds exactly the source's bytes under the new names, as the manifest describes them, and the receipt, and the source is unchanged; it does succeed when the callbacks do nothing, the source is as its manifest says and the deadline allows every check; a refusal created no destination, and every file in the stage that is not the helper's is the one the last callback left there |
| RestoreFiles.World.Cleanup | 01.APP/nodelang/application_recovery_files.py:899-912 | clean-up removes exactly the helper's names that can be removed, notes the others, and drops the directory only when nothing is left in it |
| RestoreFiles.World.SourceUnchanged | 01.APP/nodelang/application_recovery_restore_files.py:123-136 | unchanged identities mean unchanged bytes |
| RestoreFiles.WantedFolderIsExact | 01.APP/nodelang/application_recovery_restore_files.py:220-233 | a folder that holds the wanted bytes under the wanted names is the exact restore |
| DraftComposer.ValidateDraftReferences | 01.APP/nodelang/agent_composer.py:286-345 | the loop that grows the declared names admits exactly the drafts whose every action is in order |
| DraftComposer.AdmittedMeans | 01.APP/nodelang/agent_composer.py:286-345 | a draft is admitted if and only if every reference of every action is an existing node or a name that an earlier action gave, and every local name is well formed, new and that of a creation |
| DraftComposer.ApplyDraftActions | 01.APP/nodelang/agent_composer.py:521-742 | the loop that grows references and nodes is the interpreter, and on an admitted draft it is well applied; after any run each local name stands for the root that its own creation returned, and each entry reports the nodes its action referred to |
| DraftComposer.RunIsReported | 01.APP/nodelang/agent_composer.py:521-742 | after any run, admitted or not, the names are exactly those given so far and each stands for the root its last creation returned; the nodes are the known and the created ones; the i-th successful entry is about the i-th action, with the root its writer returned and the nodes its references stand for; a failed entry is the last |
| DraftComposer.StepKeepsConsistent | 01.APP/nodelang/agent_composer.py:544-742 | before every action exactly the declared names stand for existing nodes |
| DraftComposer.DraftIsSound | 01.APP/nodelang/agent_composer.py:286-352 | for every admitted draft and any outcomes, no entry fails for a reference and none but the last fails |
| DraftComposer.CheckIsExact | 01.APP/nodelang/agent_composer.py:286-345 | with everything else in order and every writer succeeding, a draft runs to its end if and only if it is admitted |
| DraftComposer.Canvas.Compose | 01.APP/nodelang/agent_composer.py:404-502 | a draft is applied only to the very canvas it was checked against, whatever is committed during the model call |
| AgentWork.Steps | 01.APP/nodelang/agent_work.py:85-103 | every ordinary call lands in exactly one step, in order; declared steps are the declarations, undeclared ones the turns |
| AgentSteps.StepOfDeclaration | 01.APP/nodelang/agent_work.py:85-103 | each declaration becomes one step: its title, the ordinary calls up to the next declaration, done if and only if a completion is among the calls up to there |
| AgentSteps.StepIsRecorded | 01.APP/nodelang/agent_work.py:115-144 | after a projection a step's node records the session, the runtime, the step's calls in order, its kind and tool, and whether it is done |
| AgentSteps.NewStepIsPlaced | 01.APP/nodelang/agent_work.py:115-144 | a step without a node gets one from its plan, four in a row, 320 apart, the rows 400 apart |
| AgentSteps.SessionIsRecorded | 01.APP/nodelang/agent_work.py:106-112 | the session's node records the session, its parameters say model, goal and detail, and nothing else of it changes |
| AgentWork.Document.ReconcileSteps | 01.APP/nodelang/agent_work.py:115-144 | the loop over the steps, with its list of projected nodes |
| AgentWork.Document.InferWires | 01.APP/nodelang/agent_work.py:145-166 | the loops over later and earlier steps and their parameters |
| AgentWork.Document.Project | 01.APP/nodelang/agent_work.py:106-166 | the whole reconciliation in place |
| AgentWork.Document.ProjectTranscript | 01.APP/nodelang/agent_work.py:85-166 | the transcript's own steps are what is projected |
| AgentWork.ProjectionKeepsNodes | 01.APP/nodelang/agent_work.py:106-144 | nodes that were there keep everything but their work record, the session node also gets its parameters, and every new node is a step |
| AgentWork.NodesTwice | 01.APP/nodelang/agent_work.py:106-144 | reconciling the nodes twice is reconciling them once, repeated step keys included |
| AgentWork.ProjectionIsIdempotent | 01.APP/nodelang/agent_work.py:106-166 | projecting the same transcript twice is projecting it once |
| AgentWork.ProjectionWires | 01.APP/nodelang/agent_work.py:145-166 | other wires stay in order; each inferred wire goes forward in order of first occurrence and is the only one into its socket |
| InferredWires.InferredExactly | 01.APP/nodelang/agent_work.py:145-166 | which wires there are, on texts: those that are not the session's, and exactly one into each open parameter whose value has an output text of four characters or more of an earlier step inside it, from the first such step before the later one's first occurrence, at its path port or else its first port |
| InferredWires.StepsAreFound | 01.APP/nodelang/agent_work.py:115-144 | after a projection every step has its node |
| AgentWork.NoCycle | 01.APP/nodelang/agent_work.py:145-166 | no path along a session's inferred wires closes |
| AgentWork.SelectBranch | 01.APP/nodelang/agent_work.py:170-175 | the branch of a session, of a step, or the node alone |
| AgentWork.BranchOfStep | 01.APP/nodelang/agent_work.py:171-175 | from a step on, the branch is exactly the owner's steps at or after it |
| AgentWork.BranchOfOthers | 01.APP/nodelang/agent_work.py:169-175 | of a session the branch is exactly all its steps, of a node without a record of work the node alone |
| AgentWork.Fork | 01.APP/nodelang/agent_work.py:169-193 | what was there stays, and the copies of the branch and of the wires inside it follow |
| AgentWork.ForkIsIsomorphic | 01.APP/nodelang/agent_work.py:176-192 | under an injective renaming to new names the copied nodes are the branch, field by field, without record and result and 480 lower, and the copied wires all and only the wires inside it, at the same sockets and owned by no session |
| AgentWork.ProjectionLeavesTheFork | 01.APP/nodelang/agent_work.py:147-193 | a later projection of the owning session leaves every copied node and wire in place |
| ReplayWindow.Transport.Remember | 01.APP/nodelang/application_machine_transport.py:1765-1773 | a request is denied exactly when its id is among the last 4096 accepted ones, and otherwise joins them |
| ReplayWindow.Transport.Serve | 01.APP/nodelang/application_machine_transport.py:1765-1773 | over any run the queue is the duplicate-free list of the last accepted ids, and the set its elements |
| ReplayWindow.NoReplayInsideTheWindow | 01.APP/nodelang/application_machine_transport.py:1765-1773 | two acceptances of one id lie more than a window apart |
| ReplayWindow.AcceptedAgainExactlyAfterTheWindow | 01.APP/nodelang/application_machine_transport.py:1765-1773 | an id is accepted again if and only if a whole window was accepted since its last acceptance |
| RuntimeClient.Client.Request | 01.APP/nodelang/application_machine_transport.py:3886-3922 | the guarded request: nothing while a release is uncertain or done, and a renewal first near expiry |
| RuntimeClient.Client.BindAgentSession | 01.APP/nodelang/application_machine_transport.py:2073-2123 | the enrollment with its retained identity, retained conditional attempt and challenge |
| RuntimeClient.Client.RecoverAgentSessionContinuation | 01.APP/nodelang/application_machine_transport.py:2201-2222 | the status read for the retained attempt; it never enrolls |
| RuntimeClient.Client.ReleaseAgentSession | 01.APP/nodelang/application_machine_transport.py:2355-2387 | release once, then only the status read for the same release |
| RuntimeClient.Client.RenewAgentSession | 01.APP/nodelang/application_machine_transport.py:2325-2353 | nothing is sent and nothing changes unless a session is bound with full access; success is a proper answer about this very session |
| RuntimeClient.Client.ReadHostsState | 01.APP/nodelang/application_machine_transport.py:3924-3937 | nothing is sent and nothing changes unless a bound session with full access is current; success is a proper answer |
| RuntimeClient.StepKeeps | 01.APP/nodelang/application_machine_transport.py:2073-2423 | every call keeps the rules for access, retained release and enrollment |
| RuntimeClient.NoBlindEnrollment | 01.APP/nodelang/application_machine_transport.py:2081-2123 | in every run over a lossy pipe a conditional enrollment leaves the process at most once, and no enrollment follows it |
| RuntimeClient.OneFirstIdentity | 01.APP/nodelang/application_machine_transport.py:2073-2123 | in every run all first enrollments that leave the process carry one identity |
| RuntimeClient.RetainedActor | 01.APP/nodelang/application_machine_transport.py:2081-2222 | in every run a session with full access, or one being released, is the very actor that a conditional enrollment was retained for, and every conditional enrollment sent was for it |
| RuntimeClient.RequestRenewsFirst | 01.APP/nodelang/application_machine_transport.py:3886-3922 | an ordinary request leaves the process unless a release is uncertain or done; near its expiry a session with full access is renewed first, and without a proper answer about it the request stays |
| RuntimeClient.ReleaseTakesEffectOnce | 01.APP/nodelang/application_machine_transport.py:2355-2387 | with a truthful status route and a release that takes effect with its delivery or never, a release takes effect at most once |
| RuntimeClient.TruthIsNeeded | 01.APP/nodelang/application_machine_transport.py:2377-2382 | a status route that denies a release that took effect lets a second one take effect |
| RuntimeClient.SendsAfterRelease | 01.APP/nodelang/application_machine_transport.py:2393-2423 | after a release attempt exactly two calls still send: the status read for it and the presence renewal |
| RuntimeClient.GuardedCallsSendNothing | 01.APP/nodelang/application_machine_transport.py:3903-3937 | any run of guarded calls after a release attempt sends nothing and changes nothing |
| RuntimeClient.PresenceAfterRelease | 01.APP/nodelang/application_machine_transport.py:2393-2405 | the presence renewal leaves the process after a confirmed release |
| RuntimeClient.ReleasedIsReachable | 01.APP/nodelang/application_machine_transport.py:2073-2387 | an enrollment and a confirmed release reach that state |
| EnvironmentSwap.Installation.Recover | 01.APP/colleague_setup.py:177-195 | an absent environment is moved back; 10 only when the rename fails |
| EnvironmentSwap.Installation.Prepare | 01.APP/colleague_setup.py:216-233 | success exactly when every step succeeds, the status of every failure, and what each leaves of the new environment |
| EnvironmentSwap.Installation.Replace | 01.APP/colleague_setup.py:198-254 | whatever fails or is killed, the installed environment is the old one untouched or the proven new one; the marker is stale exactly when all steps up to the second rename succeed and the next does not |
| EnvironmentSwap.Installation.Swap | 01.APP/colleague_setup.py:234-254 | the two renames with their rollback, and after each failure which of old and new environment is where; a truthful marker is stale afterwards if and only if both renames succeed, the removal of the marker does not, and there is a marker of another build |
| EnvironmentSwap.MarkerGoesStale | 01.APP/colleague_setup.py:237-254 | a run that ends that way |
| EnvironmentSwap.Installation.PrepareEnvironment | 01.APP/colleague_setup.py:257-299 | one setup keeps the installation safe; an environment of another version is rebuilt, one of this version or of none stays, a missing one is created, and a check changes nothing; each with the outcomes of the steps under which the child starts |
| EnvironmentSwap.Installation.RunSetups | 01.APP/colleague_setup.py:177-299 | any number of setups, killed at any step, keeps a complete old or new environment |
| EnvironmentSwap.Installation.RecoverAfter | 01.APP/colleague_setup.py:177-195 | after any history one recovery whose rename succeeds ends with a working environment in place |
| ApplicationUpdate.Decide | 01.APP/nodelang/application_update.py:75-107 | ready exactly for a named staged build; idle exactly when the report says that there is nothing newer; failed otherwise, under that name |
| ApplicationUpdate.Update.CheckNow | 01.APP/nodelang/application_update.py:234-251 | a second check starts no second thread, and none starts when closing or restarting |
| ApplicationUpdate.Update.ReloadNow | 01.APP/nodelang/application_update.py:358-395 | a restart is requested exactly for the staged, confirmed build with no download or work running |
| ApplicationUpdate.RunKeepsValid | 01.APP/nodelang/application_update.py:234-411 | in every interleaving one thread at most is alive, none while restarting, only a refusal ends a restart, and none appears after close |
| ApplicationUpdate.Update.Run | 01.APP/nodelang/application_update.py:234-395 | the object goes through the steps of any interleaving as the state machine does |
| ApplicationUpdate.Update.CloseThenAnything | 01.APP/nodelang/application_update.py:397-411 | after close answered true no thread is alive or ever starts |
| ApplicationUpdate.LastStagedStands | 01.APP/nodelang/application_update.py:331-356 | the release staged after any run is the one its last staging step wrote, or the one before the run |
| ApplicationUpdate.LookIsHonest | 01.APP/nodelang/application_update.py:268-303 | from any launch on, with no restart refused, a look that allows an automatic install sees a staged release that is no pre-release |
| ApplicationUpdate.Update.InstallIfSafe | 01.APP/nodelang/application_update.py:287-303 | an automatic install happens exactly when the look allows it and the reload after the steps in between is accepted; the build it restarts into is a pre-release if and only if the last release staged in between is, or none was staged and the one at the look is |
| ApplicationUpdate.PrereleaseInstalledInBetween | 01.APP/nodelang/application_update.py:268-303 | a check that stages a pre-release between look and reload makes an automatic install restart into it |
| ApplicationUpdate.RefusalLosesTheFlag | 01.APP/nodelang/application_update.py:318-321 | a failed check and a refused restart leave a staged pre-release ready with its flag lost |
| ApplicationUpdate.PrereleaseInstalledAfterRefusal | 01.APP/nodelang/application_update.py:268-321 | then an automatic install restarts into the pre-release with nothing in between |

## Left out

- HornSolver.EvaluateLogic: programs whose bodies name predicates that head rules themselves (recursion, the transitive-closure plans and their shared memo); compiled policies have none, which `PolicyEvaluation.ProgramIsFlat` proves.
- PolicyObligations.EvaluateObligations: the binding check of a factory made from the graph, signed relationships and membership are one resolve function of the graph and of the stamp of selection and authentication; expiry is a number of validations.
- PolicyObligations.DecidePair: the freshness checks inside the fact provider; the evaluation of one pair is one step, with validations before and after it.
- CellGraph.InstallHolds: what a commit refuses besides identities in use (dangling links, undeclared intent, archived names, replacements and their versions).
- PolicySource.Evaluate: expiry and invocation limits are read by functions of their text; the read memo of verified policies is not modelled.
- RestoreFiles.World.Inspect: aliases, overlapping paths, links, and output names that differ only in case.
- RestoreFiles.World.CopyExact: reads the source at one instant, while the original's source may change between two blocks; the later identity and hash checks are modelled.
- RestoreFiles.World.PrepareRestore: case folding of output names and the characters and device names that Windows refuses, reparse points and links, the SQLite open of staged files and the directory sync; the hash of a file is taken of its bytes at one instant.
- GraphPrefix.AdmitGraph: the comparison of ordinary conversation history against the owner's; definitions are compared as normalized.
- JournalIdentity.ClosedJournalIdentity: opening, locking and checking the SQLite file, the order of tables and rows by the queries' ORDER BY, and the head and count returned beside the digest; text is its UTF-8 bytes, a float its eight bytes.
- LockOrder.ProceduresKeepTheOrder: locks that authorization, opening the history or the teardown take and release inside the bodies; transactions and progress handlers inside the locks; a deadline is a failure while waiting.
- DraftComposer.ApplyDraftActions: what the writers do to the canvas beyond creating, refusing or raising; the checks of positions, texts and parameters are one flag an action.
- AgentWork.Document.Project: the mapping of calls to engines, the redaction and the port tables are functions of a group's calls.
- RuntimeClient.StepKeeps: concurrent calls on one client, an arbitrary path passed to the public request, and a replacement client for a successor runtime.
- RuntimeClient.ReleaseTakesEffectOnce: a server that lets a delivered release take effect after it answered the status read.
- EnvironmentSwap.Installation.PrepareEnvironment: the child process that goes on with the setup in the owned interpreter.
- ApplicationUpdate.Update.Run: what a download finds, the due time of checks and the idle detection are inputs of a step; the restart request does not re-enter.
- The publication of a recovery backup over live SQLite handles, the named-pipe server, response validators, host add-in registration, assistant registration and the user interface: input and output plumbing without a property that spans operations.
