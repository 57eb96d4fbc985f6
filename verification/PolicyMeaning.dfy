/** What the answers of a compiled policy have to do with the source evaluation: exactly when both
    decide, they decide the same. */
module PolicyMeaning {
  import opened Wrappers
  import opened CellGraph
  import opened HornLogic
  import opened HornSolver
  import opened PolicyCompiler
  import opened PolicyAnswers
  import opened PolicyEvaluation
  import opened PolicyInstallation
  import Source = PolicySource

  // ---------- the source's own decision ----------

  function IdentityOf(ctx: Context): Source.Identity {
    Source.Identity(ctx.subject, ctx.principals, Some(ctx.tenant), Some(ctx.assurance))
  }

  /** The request whose only ancestor is the selected scope. */
  function RequestOf(ctx: Context): Source.Request {
    Source.Request(ctx.action, ctx.object_, [ctx.scope], None, ctx.purpose, ctx.classification, ctx.audience, None,
                   None, 0)
  }

  lemma SourceMatchIsApplies(h: Graph, rule: AuthRule, ctx: Context, clock: Source.Clock)
    requires Supported(rule) && Source.RuleMatches(h, rule, IdentityOf(ctx), RequestOf(ctx), clock).Ok?
    ensures Source.RuleMatches(h, rule, IdentityOf(ctx), RequestOf(ctx), clock).value <==> Applies(h, rule, ctx)
  {
    hide ReadRelation, Source.HasMember;
    var a := Source.POLICY_BUDGET;
    forall b: nat | ReadRelation(h, ctx.object_, a).Ok? && ReadRelation(h, ctx.object_, b).Ok?
      ensures ReadRelation(h, ctx.object_, a) == ReadRelation(h, ctx.object_, b)
    {
      BudgetsAgree(h, ctx.object_, a, b);
    }
    assert Source.ConditionsMet(rule, IdentityOf(ctx), RequestOf(ctx)) <==>
      && (rule.object_ == ctx.object_ || rule.object_ == ctx.scope) && rule.principal in ctx.principals
         && rule.action == ctx.action
      && Wanted(rule.tenant, [ctx.tenant]) && Wanted(rule.assurance, [ctx.assurance])
      && Wanted(rule.purpose, Optional(ctx.purpose)) && Wanted(rule.classification, Optional(ctx.classification))
      && Wanted(rule.audience, Optional(ctx.audience));
  }

  /** Whether every rule whose other conditions are met, and that asks for a relation, finds the object's
      relation readable: something to check before the evaluation. */
  predicate ObjectReadable(h: Graph, rules: seq<AuthRule>, ctx: Context) {
    (exists k :: 0 <= k < |rules| && AsksRelation(rules[k], ctx)) ==>
      ReadRelation(h, ctx.object_, Source.POLICY_BUDGET).Ok?
  }

  predicate AsksRelation(rule: AuthRule, ctx: Context) {
    rule.subjectRelation.Some? && Source.ConditionsMet(rule, IdentityOf(ctx), RequestOf(ctx))
  }

  /** The source evaluation can judge a supported rule exactly when it need not read the object's
      relation, or can. */
  lemma JudgedExactly(h: Graph, p: Source.AuthProtocol, rule: AuthRule, ctx: Context, clock: Source.Clock)
    requires Supported(rule) && EffectKnown(p, rule)
    ensures Source.Judged(h, p, rule, IdentityOf(ctx), RequestOf(ctx), clock) <==>
            (AsksRelation(rule, ctx) ==> ReadRelation(h, ctx.object_, Source.POLICY_BUDGET).Ok?)
  {
    hide ReadRelation, Source.HasMember, Source.ConditionsMet;
  }

  /** The source evaluation returns a decision: it raises for nothing. */
  predicate SourceReturns(h: Graph, p: Source.AuthProtocol, rules: seq<AuthRule>, ctx: Context, clock: Source.Clock) {
    && Source.Answerable(h, p, IdentityOf(ctx), RequestOf(ctx))
    && forall k :: 0 <= k < |rules| ==> Source.Judged(h, p, rules[k], IdentityOf(ctx), RequestOf(ctx), clock)
  }

  /** Both evaluations decide the same, and the compiled proof comes from a determining rule. */
  predicate SameDecision(h: Graph, plan: Plan, rules: seq<AuthRule>, ctx: Context, answer: Answer,
                         clock: Source.Clock) {
    var decision := Source.SourceDecision(h, plan.auth, rules, IdentityOf(ctx), RequestOf(ctx), clock);
    && answer.0 == decision.allowed
    && (answer.1.None? <==> decision.reason == Source.DefaultDeny)
    && (answer.1.Some? ==>
        answer.1.value.rule in plan.origins && plan.origins[answer.1.value.rule] in decision.determining)
  }

  lemma SourceReturnsExactly(h: Graph, plan: Plan, c: Source.Coding, rules: seq<AuthRule>, ctx: Context,
                             clock: Source.Clock)
    requires RulesIn(h, plan, c, rules)
    ensures SourceReturns(h, plan.auth, rules, ctx, clock) <==>
            Source.Answerable(h, plan.auth, IdentityOf(ctx), RequestOf(ctx)) && ObjectReadable(h, rules, ctx)
  {
    hide Source.Judged, AsksRelation, Source.Answerable, Source.VerifyPolicy, Source.ReadAuthRules, Supported,
      EffectKnown;
    forall k | 0 <= k < |rules|
      ensures Source.Judged(h, plan.auth, rules[k], IdentityOf(ctx), RequestOf(ctx), clock) <==>
              (AsksRelation(rules[k], ctx) ==> ReadRelation(h, ctx.object_, Source.POLICY_BUDGET).Ok?)
    {
      JudgedExactly(h, plan.auth, rules[k], ctx, clock);
    }
  }

  /** The translation preserves meaning, exactly: the source evaluation returns, and with the compiled
      answer, if and only if its request is answerable and the object's relation can be read wherever a
      rule needs it.  Elsewhere the source raises. */
  lemma CompiledIsSource(h: Graph, plan: Plan, c: Source.Coding, rules: seq<AuthRule>, ctx: Context, subject: Id,
                         action: Id, object_: Id, answer: Answer, clock: Source.Clock)
    requires RulesIn(h, plan, c, rules) && Verdict(h, plan, rules, ctx, subject, action, object_, answer)
    requires plan.permit == plan.auth.permit && plan.forbid == plan.auth.forbid
    requires Asks(ctx, subject, action, object_)
    ensures SourceReturns(h, plan.auth, rules, ctx, clock) && SameDecision(h, plan, rules, ctx, answer, clock) <==>
            Source.Answerable(h, plan.auth, IdentityOf(ctx), RequestOf(ctx)) && ObjectReadable(h, rules, ctx)
    ensures SourceReturns(h, plan.auth, rules, ctx, clock) ==> SameDecision(h, plan, rules, ctx, answer, clock)
  {
    hide Source.Answerable, ObjectReadable, Source.Judged, Verdict, RulesIn, SameDecision;
    SourceReturnsExactly(h, plan, c, rules, ctx, clock);
    if SourceReturns(h, plan.auth, rules, ctx, clock) {
      JudgedDecidesTheSame(h, plan, c, rules, ctx, subject, action, object_, answer, clock);
    }
  }

  lemma JudgedDecidesTheSame(h: Graph, plan: Plan, c: Source.Coding, rules: seq<AuthRule>, ctx: Context, subject: Id,
                             action: Id, object_: Id, answer: Answer, clock: Source.Clock)
    requires RulesIn(h, plan, c, rules) && Verdict(h, plan, rules, ctx, subject, action, object_, answer)
    requires plan.permit == plan.auth.permit && plan.forbid == plan.auth.forbid
    requires Asks(ctx, subject, action, object_)
    requires forall k :: 0 <= k < |rules| ==>
               Source.Judged(h, plan.auth, rules[k], IdentityOf(ctx), RequestOf(ctx), clock)
    ensures SameDecision(h, plan, rules, ctx, answer, clock)
  {
    hide Source.RuleMatches, Applies, Source.MatchingRoots, Source.VerifyPolicy, Source.ReadAuthRules;
    forall k | 0 <= k < |rules|
      ensures Source.RuleMatches(h, rules[k], IdentityOf(ctx), RequestOf(ctx), clock) == Ok(Applies(h, rules[k], ctx))
    {
      assert Source.Judged(h, plan.auth, rules[k], IdentityOf(ctx), RequestOf(ctx), clock);
      SourceMatchIsApplies(h, rules[k], ctx, clock);
    }
    var forbids := Source.MatchingRoots(h, rules, plan.forbid, IdentityOf(ctx), RequestOf(ctx), clock);
    var permits := Source.MatchingRoots(h, rules, plan.permit, IdentityOf(ctx), RequestOf(ctx), clock);
    ListedIsBacked(h, rules, plan.forbid, ctx, clock);
    ListedIsBacked(h, rules, plan.permit, ctx, clock);
    assert forbids != [] ==> forbids[0] in forbids;
    assert permits != [] ==> permits[0] in permits;
    if answer.1.Some? {
      var effect := if answer.0 then plan.permit else plan.forbid;
      var k :| Backs(h, rules, ctx, effect, k) && plan.origins[answer.1.value.rule] == rules[k].root;
      assert rules[k].root in Source.MatchingRoots(h, rules, effect, IdentityOf(ctx), RequestOf(ctx), clock);
    }
  }

  lemma ListedIsBacked(h: Graph, rules: seq<AuthRule>, effect: Id, ctx: Context, clock: Source.Clock)
    requires forall k :: 0 <= k < |rules| ==>
                           Source.RuleMatches(h, rules[k], IdentityOf(ctx), RequestOf(ctx), clock)
                             == Ok(Applies(h, rules[k], ctx))
    ensures forall root :: root in Source.MatchingRoots(h, rules, effect, IdentityOf(ctx), RequestOf(ctx), clock) <==>
                           exists k :: Backs(h, rules, ctx, effect, k) && rules[k].root == root
  {
    hide Source.RuleMatches, Applies, Source.MatchingRoots;
    forall root
      ensures root in Source.MatchingRoots(h, rules, effect, IdentityOf(ctx), RequestOf(ctx), clock) <==>
              exists k :: Backs(h, rules, ctx, effect, k) && rules[k].root == root
    {
      Source.ListedRootsMatch(h, rules, effect, IdentityOf(ctx), RequestOf(ctx), clock, root);
      assert forall k :: Backs(h, rules, ctx, effect, k) <==>
        0 <= k < |rules| && rules[k].effect == effect
        && Source.RuleMatches(h, rules[k], IdentityOf(ctx), RequestOf(ctx), clock) == Ok(true);
    }
  }

  // ---------- both evaluations, side by side ----------

  /** The plan's program in a graph that holds the plan and its source. */
  lemma StandingMeans(g: Graph, h: Graph, plan: Plan, predicates: Predicates, c: Source.Coding, rules: seq<AuthRule>)
    returns (n: Names, horn: seq<Rule>)
    requires c.Injective() && PlanFor(g, plan, predicates, c) && plan.logic.Distinct() && Holds(h, plan.cells)
    requires SourceStands(h, plan, c) && ProgramIn(h, plan).Ok? && RulesIn(h, plan, c, rules)
    ensures Compiles(plan, predicates, rules, n, horn) && ProgramIn(h, plan) == Ok(horn)
  {
    hide Compiles, Source.VerifyPolicy, Source.ReadAuthRules, ReadProgram, PlanFor, Holds;
    SourceStandsMeans(h, plan, c);
    var found: seq<AuthRule>;
    found, n, horn := PlanStillMeans(g, h, plan, predicates, c);
  }

  /** Where every rule that asks finds the object's relation readable, both queries answer. */
  lemma ReadableIsAnswered(h: Graph, plan: Plan, predicates: Predicates, rules: seq<AuthRule>, n: Names,
                           horn: seq<Rule>, ctx: Context, effect: Id)
    requires Compiles(plan, predicates, rules, n, horn) && ProgramIn(h, plan) == Ok(horn)
    requires ObjectReadable(h, rules, ctx)
    ensures Query(h, plan, predicates, ctx, effect, ctx.subject, ctx.action, ctx.object_) != Err(InvalidCell)
  {
    hide Compiles, Query, ProgramIn, ReadRelation, Source.ConditionsMet, Besides, ClauseBacks, Supported, EffectKnown;
    RefusesExactly(h, plan, predicates, rules, n, horn, ctx, effect, ctx.subject, ctx.action, ctx.object_);
    RulesSupported(plan, predicates, rules, n, horn);
    if k :| ReachedFirst(h, rules, ctx, effect, ctx.subject, ctx.action, ctx.object_, k) {
      ReachesAsks(rules[k / 2], ctx, Resource(k), effect);
      assert AsksRelation(rules[k / 2], ctx);
    }
  }

  lemma ReachesAsks(rule: AuthRule, ctx: Context, resource: ContextField, effect: Id)
    requires Supported(rule) && Reaches(rule, ctx, resource, effect, ctx.subject, ctx.action, ctx.object_)
    ensures AsksRelation(rule, ctx)
  {
  }

  lemma AnswersNotExhausted(h: Graph, plan: Plan, predicates: Predicates, ctx: Context, effect: Id)
    requires ProgramIn(h, plan).Ok?
    ensures var found := Query(h, plan, predicates, ctx, effect, ctx.subject, ctx.action, ctx.object_);
            found.Err? ==> found == Err(InvalidCell)
  {
    hide FirstProof, FactsOf, Unlimited, ReadProgram;
    var facts := FactsOf(h, plan.logic, predicates, ctx);
    FactsUnlimited(h, plan.logic, predicates, ctx);
    NeverExhausted(ProgramIn(h, plan).value, plan.decision, [effect, ctx.subject, ctx.action, ctx.object_], facts);
    var found := Query(h, plan, predicates, ctx, effect, ctx.subject, ctx.action, ctx.object_);
    if found.Err? {
      OnlyInvalid(found);
    }
  }

  /** The source evaluation returns exactly when its request is answerable and the object readable. */
  lemma SourceOutcome(h: Graph, plan: Plan, c: Source.Coding, rules: seq<AuthRule>, ctx: Context, clock: Source.Clock)
    requires RulesIn(h, plan, c, rules)
    ensures (Source.Answerable(h, plan.auth, IdentityOf(ctx), RequestOf(ctx))
             && forall k :: 0 <= k < |rules| ==>
                  Source.Judged(h, plan.auth, rules[k], IdentityOf(ctx), RequestOf(ctx), clock)) <==>
            Source.Answerable(h, plan.auth, IdentityOf(ctx), RequestOf(ctx)) && ObjectReadable(h, rules, ctx)
  {
    hide Source.Answerable, ObjectReadable, Source.Judged, RulesIn;
    SourceReturnsExactly(h, plan, c, rules, ctx, clock);
  }

  /** Only one list of rules is in the graph. */
  lemma OneRuleList(h: Graph, plan: Plan, c: Source.Coding, a: seq<AuthRule>, b: seq<AuthRule>)
    requires RulesIn(h, plan, c, a) && RulesIn(h, plan, c, b)
    ensures a == b
  {
    hide Source.VerifyPolicy, Source.ReadAuthRules, Supported, EffectKnown;
  }

  lemma AnswersOrInvalid(h: Graph, plan: Plan, predicates: Predicates, ctx: Context)
    requires ProgramIn(h, plan).Ok?
    ensures var answers := Answers(h, plan, predicates, ctx, ctx.subject, ctx.action, ctx.object_);
            answers.Err? ==> answers == Err(InvalidCell)
  {
    hide Query, ProgramIn;
    AnswersNotExhausted(h, plan, predicates, ctx, plan.forbid);
    AnswersNotExhausted(h, plan, predicates, ctx, plan.permit);
  }

  lemma ReadableAnswers(h: Graph, plan: Plan, predicates: Predicates, rules: seq<AuthRule>, n: Names,
                        horn: seq<Rule>, ctx: Context)
    requires Compiles(plan, predicates, rules, n, horn) && ProgramIn(h, plan) == Ok(horn)
    ensures ObjectReadable(h, rules, ctx) ==>
              Answers(h, plan, predicates, ctx, ctx.subject, ctx.action, ctx.object_) != Err(InvalidCell)
  {
    hide Query, ProgramIn, ObjectReadable, Compiles;
    if ObjectReadable(h, rules, ctx) {
      ReadableIsAnswered(h, plan, predicates, rules, n, horn, ctx, plan.forbid);
      ReadableIsAnswered(h, plan, predicates, rules, n, horn, ctx, plan.permit);
    }
  }

  /** With a budget above what it needs, and patience for five validations, the compiled evaluation
      refuses only for an object relation that its queries cannot read, and the source exactly for a
      request it cannot answer or an object it cannot read; where the source returns, so does the
      compiled evaluation, with the same decision. */
  method EvaluateBoth(h: Graph, plan: Plan, c: Source.Coding, rules: seq<AuthRule>, ctx: Context, primitive: Provider,
                      budget: nat, patience: nat, clock: Source.Clock, ghost g: Graph, ghost predicates: Predicates,
                      ghost enough: nat)
    returns (compiled: Result<Answer, EvaluationRefusal>, source: Result<Source.Decision, Fault>)
    requires c.Injective() && PlanFor(g, plan, predicates, c) && plan.logic.Distinct() && Holds(h, plan.cells)
    requires SourceStands(h, plan, c) && ProgramIn(h, plan).Ok? && RulesIn(h, plan, c, rules)
    requires ContextProvider(primitive, predicates, ctx) && ContextSupplies(primitive, predicates, ctx, enough)
    requires Needed(h, plan, predicates, ctx, ctx.subject, ctx.action, ctx.object_, enough) <= budget / 2
    requires patience >= 5
    ensures var answers := Answers(h, plan, predicates, ctx, ctx.subject, ctx.action, ctx.object_);
            compiled == if answers.Ok? then Ok(answers.value) else Err(LogicFault(InvalidCell))
    ensures compiled.Ok? ==> Verdict(h, plan, rules, ctx, ctx.subject, ctx.action, ctx.object_, compiled.value)
    ensures source.Ok? <==>
            Source.Answerable(h, plan.auth, IdentityOf(ctx), RequestOf(ctx)) && ObjectReadable(h, rules, ctx)
    ensures source.Ok? ==> compiled.Ok? && SameDecision(h, plan, rules, ctx, compiled.value, clock)
  {
    hide *;
    ghost var n, horn := StandingMeans(g, h, plan, predicates, c, rules);
    var left;
    compiled, left := EvaluateCompiled(h, plan, plan.logic, ctx.subject, ctx.action, ctx.object_, primitive, budget,
                                       patience, c, g, predicates, ctx, enough);
    Refusals(h, plan, predicates, ctx, primitive, enough, budget, compiled);
    AnswersOrInvalid(h, plan, predicates, ctx);
    source := Source.Evaluate(h, plan.auth, rules, IdentityOf(ctx), RequestOf(ctx), clock);
    SourceOutcome(h, plan, c, rules, ctx, clock);
    ReadableAnswers(h, plan, predicates, rules, n, horn, ctx);
    if compiled.Ok? {
      ghost var found: seq<AuthRule> :|
        RulesIn(h, plan, c, found)
        && Verdict(h, plan, found, ctx, ctx.subject, ctx.action, ctx.object_, compiled.value);
      OneRuleList(h, plan, c, rules, found);
    }
    if source.Ok? {
      CompiledDecides(h, plan, c, rules, ctx, compiled.value, clock, predicates, n, horn);
    }
  }

  /** The refusals that an ample budget and a standing plan leave. */
  lemma Refusals(h: Graph, plan: Plan, predicates: Predicates, ctx: Context, primitive: Provider, enough: nat,
                 budget: nat, compiled: Result<Answer, EvaluationRefusal>)
    requires ContextSupplies(primitive, predicates, ctx, enough)
    requires Needed(h, plan, predicates, ctx, ctx.subject, ctx.action, ctx.object_, enough) <= budget / 2
    requires compiled.Err? ==> compiled.error.LogicFault?
    requires compiled == Err(LogicFault(Exhausted)) ==>
               Starved(h, plan, predicates, ctx, ctx.subject, ctx.action, ctx.object_, primitive, enough, budget / 2)
    ensures compiled.Err? ==> compiled == Err(LogicFault(InvalidCell))
  {
    hide Needed, ContextSupplies;
    if compiled.Err? {
      var fault := compiled.error.fault;
      assert fault.InvalidCell? || fault.Exhausted?;
    }
  }

  lemma CompiledDecides(h: Graph, plan: Plan, c: Source.Coding, rules: seq<AuthRule>, ctx: Context, answer: Answer,
                        clock: Source.Clock, predicates: Predicates, n: Names, horn: seq<Rule>)
    requires RulesIn(h, plan, c, rules) && Compiles(plan, predicates, rules, n, horn)
    requires Verdict(h, plan, rules, ctx, ctx.subject, ctx.action, ctx.object_, answer)
    requires Source.Answerable(h, plan.auth, IdentityOf(ctx), RequestOf(ctx)) && ObjectReadable(h, rules, ctx)
    ensures SameDecision(h, plan, rules, ctx, answer, clock)
  {
    hide RulesIn, Compiles, Verdict, Source.Answerable, ObjectReadable, SameDecision, SourceReturns;
    RulesSupported(plan, predicates, rules, n, horn);
    CompiledIsSource(h, plan, c, rules, ctx, ctx.subject, ctx.action, ctx.object_, answer, clock);
  }

  // ---------- where the source raises ----------

  /** A policy of permits whose first one applies to the object and needs no relation. */
  predicate PermitFirst(auth: Source.AuthProtocol, rules: seq<AuthRule>, ctx: Context) {
    && rules != [] && rules[0].subjectRelation.None? && rules[0].object_ == ctx.object_ && Besides(rules[0], ctx)
    && auth.permit != auth.forbid && forall k :: 0 <= k < |rules| ==> rules[k].effect == auth.permit
  }

  /** There the compiled queries look at no other rule: no forbid, and the first permit. */
  lemma PermitFirstAllows(h: Graph, plan: Plan, predicates: Predicates, rules: seq<AuthRule>, n: Names,
                          horn: seq<Rule>, ctx: Context)
    requires Compiles(plan, predicates, rules, n, horn) && ProgramIn(h, plan) == Ok(horn)
    requires PermitFirst(plan.auth, rules, ctx)
    ensures var answers := Answers(h, plan, predicates, ctx, ctx.subject, ctx.action, ctx.object_);
            answers.Ok? && answers.value.0
  {
    hide Compiles, Query, ProgramIn, Besides, FirstProof, FactsOf, MemberOf, Readable;
    RulesSupported(plan, predicates, rules, n, horn);
    ForbidsNothing(h, plan, predicates, rules, n, horn, ctx);
    PermitsFirst(h, plan, predicates, rules, n, horn, ctx);
  }

  lemma ForbidsNothing(h: Graph, plan: Plan, predicates: Predicates, rules: seq<AuthRule>, n: Names, horn: seq<Rule>,
                       ctx: Context)
    requires Compiles(plan, predicates, rules, n, horn) && ProgramIn(h, plan) == Ok(horn)
    requires plan.permit == plan.auth.permit && plan.forbid == plan.auth.forbid && PermitFirst(plan.auth, rules, ctx)
    ensures Query(h, plan, predicates, ctx, plan.forbid, ctx.subject, ctx.action, ctx.object_) == Ok(None)
  {
    hide Compiles, FirstProof, FactsOf, Besides, Readable, ClauseBacks, Applies, ReadProgram;
    AnswersNotExhausted(h, plan, predicates, ctx, plan.forbid);
    RefusesExactly(h, plan, predicates, rules, n, horn, ctx, plan.forbid, ctx.subject, ctx.action, ctx.object_);
    if Query(h, plan, predicates, ctx, plan.forbid, ctx.subject, ctx.action, ctx.object_).Ok? {
      QueryDecides(h, plan, predicates, rules, n, horn, ctx, plan.forbid, ctx.subject, ctx.action, ctx.object_);
    }
  }

  lemma PermitsFirst(h: Graph, plan: Plan, predicates: Predicates, rules: seq<AuthRule>, n: Names, horn: seq<Rule>,
                     ctx: Context)
    requires Compiles(plan, predicates, rules, n, horn) && ProgramIn(h, plan) == Ok(horn)
    requires plan.permit == plan.auth.permit && plan.forbid == plan.auth.forbid && PermitFirst(plan.auth, rules, ctx)
    ensures var found := Query(h, plan, predicates, ctx, plan.permit, ctx.subject, ctx.action, ctx.object_);
            found.Ok? && found.value.Some?
  {
    hide Compiles, FirstProof, FactsOf, Besides, Readable, MemberOf, ReadProgram;
    AnswersNotExhausted(h, plan, predicates, ctx, plan.permit);
    RefusesExactly(h, plan, predicates, rules, n, horn, ctx, plan.permit, ctx.subject, ctx.action, ctx.object_);
    assert ClauseBacks(h, rules[0 / 2], ctx, Resource(0), plan.permit, ctx.subject, ctx.action, ctx.object_);
    assert Backs(h, rules, ctx, plan.permit, 0);
    if Query(h, plan, predicates, ctx, plan.permit, ctx.subject, ctx.action, ctx.object_).Ok? {
      QueryDecides(h, plan, predicates, rules, n, horn, ctx, plan.permit, ctx.subject, ctx.action, ctx.object_);
    }
  }

  /** The relation cannot be read, whatever cells are added. */
  ghost predicate NeverReadable(g: Graph, id: Id) {
    forall h: Graph, budget: nat :: Includes(h, g) ==> ReadRelation(h, id, budget).Err?
  }

  /** A cell with a second link and no first is no relation. */
  lemma HalfLinked(g: Graph, id: Id)
    requires id != Null && id in g && g[id].link0 == Null && g[id].link1 != Null
    ensures NeverReadable(g, id)
  {
  }

  /** So the compiled program allows where the source raises: committed to the graph it was compiled
      from, for any policy of this kind with a rule that asks for the relation of an object that has
      none to read. */
  method AllowsWhereSourceRaises(g: Graph, plan: Plan, c: Source.Coding, rules: seq<AuthRule>, ctx: Context,
                                 primitive: Provider, budget: nat, patience: nat, clock: Source.Clock,
                                 ghost predicates: Predicates, ghost low: nat, ghost high: nat, ghost k: nat,
                                 ghost enough: nat)
    returns (h: Graph, compiled: Result<Answer, EvaluationRefusal>, source: Result<Source.Decision, Fault>)
    requires c.Injective() && PlanFor(g, plan, predicates, c) && plan.logic.Distinct() && LogicHeld(g, plan.logic)
    requires PredicatesAdmitted(g, plan.logic, predicates)
    requires GraphBelow(g, low) && DistinctIds(plan.cells) && AllFrom(plan.cells, low, high) && low <= high
    requires Source.ReadAuthRules(g, plan.auth, Source.VerifyPolicy(g, plan.auth, plan.policy, c).value.rules)
             == Ok(rules)
    requires PermitFirst(plan.auth, rules, ctx) && k < |rules| && AsksRelation(rules[k], ctx)
    requires NeverReadable(g, ctx.object_)
    requires ContextProvider(primitive, predicates, ctx) && ContextSupplies(primitive, predicates, ctx, enough)
    requires Needed(Install(g, plan.cells), plan, predicates, ctx, ctx.subject, ctx.action, ctx.object_, enough)
             <= budget / 2
    requires patience >= 5
    ensures h == Install(g, plan.cells) && RulesIn(h, plan, c, rules)
    ensures compiled.Ok? && compiled.value.0 && source.Err?
    ensures Source.Answerable(g, plan.auth, IdentityOf(ctx), RequestOf(ctx)) ==>
              Source.Answerable(h, plan.auth, IdentityOf(ctx), RequestOf(ctx))
  {
    hide *;
    h := Install(g, plan.cells);
    ghost var n, horn := InstalledStands(g, plan, predicates, c, rules, low, high);
    PermitFirstAllows(h, plan, predicates, rules, n, horn, ctx);
    NotReadable(g, h, rules, ctx, k);
    AnswerableLater(g, h, plan.auth, ctx);
    compiled, source := EvaluateBoth(h, plan, c, rules, ctx, primitive, budget, patience, clock, g, predicates,
                                     enough);
  }

  /** Committed to the graph it was compiled from, a plan stands, and its program and rules are there. */
  lemma InstalledStands(g: Graph, plan: Plan, predicates: Predicates, c: Source.Coding, rules: seq<AuthRule>,
                        low: nat, high: nat)
    returns (n: Names, horn: seq<Rule>)
    requires c.Injective() && PlanFor(g, plan, predicates, c) && plan.logic.Distinct() && LogicHeld(g, plan.logic)
    requires PredicatesAdmitted(g, plan.logic, predicates)
    requires GraphBelow(g, low) && DistinctIds(plan.cells) && AllFrom(plan.cells, low, high) && low <= high
    requires Source.ReadAuthRules(g, plan.auth, Source.VerifyPolicy(g, plan.auth, plan.policy, c).value.rules)
             == Ok(rules)
    ensures var h := Install(g, plan.cells);
            && Includes(h, g) && Holds(h, plan.cells) && SourceStands(h, plan, c) && RulesIn(h, plan, c, rules)
            && Compiles(plan, predicates, rules, n, horn) && ProgramIn(h, plan) == Ok(horn)
  {
    hide Compiles, Source.VerifyPolicy, Source.ReadAuthRules, ReadProgram, PlanFor, Holds, LogicHeld, Install,
      PredicatesAdmitted, GraphBelow, DistinctIds, AllFrom, SourceStands, RulesIn, Includes;
    var h := Install(g, plan.cells);
    InstallHolds(g, plan.cells, low, high);
    PlanIsVerified(g, plan, predicates, c);
    var budget := READ_BUDGET + 2 * |Source.VerifyPolicy(g, plan.auth, plan.policy, c).value.rules|;
    InstalledPlanEvaluates(g, plan, predicates, c, low, high, budget);
    ProgramCut(h, plan.logic, plan.program, budget, |h| + 1);
    SourceStandsMeans(h, plan, c);
    var found: seq<AuthRule>;
    found, n, horn := PlanStillMeans(g, h, plan, predicates, c);
    StandingMeansHere(h, plan, predicates, rules, n, horn);
  }

  lemma PlanIsVerified(g: Graph, plan: Plan, predicates: Predicates, c: Source.Coding)
    requires PlanFor(g, plan, predicates, c)
    ensures Source.VerifyPolicy(g, plan.auth, plan.policy, c).Ok?
  {
  }

  lemma StandingMeansHere(h: Graph, plan: Plan, predicates: Predicates, rules: seq<AuthRule>, n: Names,
                          horn: seq<Rule>)
    requires Compiles(plan, predicates, rules, n, horn) && plan.logic.Distinct() && Holds(h, plan.cells)
    requires ProgramIn(h, plan).Ok?
    ensures ProgramIn(h, plan) == Ok(horn)
  {
    hide Compiles, Holds, ReadProgram;
    ReadsAsCompiled(h, plan, predicates, rules, n, horn, |h| + 1);
  }

  lemma NotReadable(g: Graph, h: Graph, rules: seq<AuthRule>, ctx: Context, k: nat)
    requires NeverReadable(g, ctx.object_) && Includes(h, g) && k < |rules| && AsksRelation(rules[k], ctx)
    ensures !ObjectReadable(h, rules, ctx)
  {
    hide ReadRelation, AsksRelation, Includes;
  }

  lemma AnswerableLater(g: Graph, h: Graph, auth: Source.AuthProtocol, ctx: Context)
    requires Includes(h, g)
    ensures Source.Answerable(g, auth, IdentityOf(ctx), RequestOf(ctx)) ==>
              Source.Answerable(h, auth, IdentityOf(ctx), RequestOf(ctx))
  {
  }
}
