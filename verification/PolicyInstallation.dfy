/** A plan that is committed to the graph it was made from can be evaluated there: its cells are all
    in place, its source policy still stands, and its program can be read. */
module PolicyInstallation {
  import opened Wrappers
  import opened CellGraph
  import opened HornLogic
  import opened HornSolver
  import opened PolicyCompiler
  import opened PolicyEvaluation
  import Source = PolicySource

  // ---------- the source policy is not touched ----------

  lemma RuleLater(g: Graph, h: Graph, p: Source.AuthProtocol, root: Id)
    requires Includes(h, g) && Source.ReadAuthRule(g, p, root).Ok?
    ensures Source.ReadAuthRule(h, p, root) == Source.ReadAuthRule(g, p, root)
  {
    hide Source.AuthRuleOf;
    ReadInLater(g, h, root, Source.RULE_BUDGET);
  }

  lemma {:induction false} FieldsLater(g: Graph, h: Graph, p: Source.AuthProtocol, members: seq<Member>,
                                       c: Source.Coding)
    requires Includes(h, g) && forall k :: 0 <= k < |members| ==> members[k].participant in g
    ensures Source.MemberFields(h, p, members, c) == Source.MemberFields(g, p, members, c)
  {
    if members != [] {
      FieldsLater(g, h, p, members[1..], c);
    }
  }

  lemma RuleDigestLater(g: Graph, h: Graph, p: Source.AuthProtocol, root: Id, c: Source.Coding)
    requires Includes(h, g) && Source.RuleDigest(g, p, root, c).Ok?
    ensures Source.RuleDigest(h, p, root, c) == Source.RuleDigest(g, p, root, c)
  {
    hide Source.AuthRuleOf, Source.MemberFields;
    RuleLater(g, h, p, root);
    ReadInLater(g, h, root, Source.RULE_BUDGET);
    WalkMembersPresent(g, root, {}, Source.RULE_BUDGET);
    FieldsLater(g, h, p, ReadRelation(g, root, Source.RULE_BUDGET).value, c);
  }

  lemma {:induction false} RuleDigestsLater(g: Graph, h: Graph, p: Source.AuthProtocol, roots: seq<Id>,
                                            c: Source.Coding)
    requires Includes(h, g) && Source.RuleDigests(g, p, roots, c).Ok?
    ensures Source.RuleDigests(h, p, roots, c) == Source.RuleDigests(g, p, roots, c)
  {
    hide Source.RuleDigest;
    if roots != [] {
      RuleDigestLater(g, h, p, roots[0], c);
      RuleDigestsLater(g, h, p, roots[1..], c);
    }
  }

  /** A policy that verifies keeps verifying, with the same digest, when cells are added. */
  lemma PolicyLater(g: Graph, h: Graph, p: Source.AuthProtocol, root: Id, c: Source.Coding)
    requires Includes(h, g) && Source.VerifyPolicy(g, p, root, c).Ok?
    ensures Source.VerifyPolicy(h, p, root, c) == Source.VerifyPolicy(g, p, root, c)
    ensures var d := Source.VerifyPolicy(g, p, root, c).value.digest; d in g && d in h && h[d] == g[d]
  {
    hide Source.RuleDigests, ReadRelation;
    ReadInLater(g, h, root, Source.POLICY_BUDGET);
    RuleDigestsLater(g, h, p, Source.ReadPolicy(g, p, root).value.rules, c);
  }

  // ---------- what the clauses name is there ----------

  lemma {:induction false} ForRoleIsHeld(g: Graph, members: seq<Member>, role: Id)
    requires forall k :: 0 <= k < |members| ==> members[k].participant in g
    ensures forall k :: 0 <= k < |ForRole(members, role)| ==> ForRole(members, role)[k] in g
  {
    if members != [] {
      ForRoleIsHeld(g, members[1..], role);
    }
  }

  predicate RuleNamed(g: Graph, rule: AuthRule) {
    && rule.effect in g && rule.principal in g && rule.object_ in g && rule.action in g
    && Source.Named(g, rule.tenant) && Source.Named(g, rule.assurance) && Source.Named(g, rule.purpose)
    && Source.Named(g, rule.classification) && Source.Named(g, rule.audience) && Source.Named(g, rule.subjectRelation)
  }

  /** What a readable rule refers to is in the graph. */
  lemma RuleIsNamed(g: Graph, p: Source.AuthProtocol, root: Id)
    requires Source.ReadAuthRule(g, p, root).Ok?
    ensures RuleNamed(g, Source.ReadAuthRule(g, p, root).value)
  {
    hide ForRole, Source.AllowedRoles, ClosedRoles;
    WalkMembersPresent(g, root, {}, Source.RULE_BUDGET);
    var members := ReadRelation(g, root, Source.RULE_BUDGET).value;
    forall role: Id
      ensures forall k :: 0 <= k < |ForRole(members, role)| ==> ForRole(members, role)[k] in g
    {
      ForRoleIsHeld(g, members, role);
    }
  }

  lemma {:induction false} RulesAreNamed(g: Graph, p: Source.AuthProtocol, roots: seq<Id>)
    requires Source.ReadAuthRules(g, p, roots).Ok?
    ensures forall k :: 0 <= k < |Source.ReadAuthRules(g, p, roots).value| ==>
              RuleNamed(g, Source.ReadAuthRules(g, p, roots).value[k])
  {
    hide RuleNamed, Source.ReadAuthRule;
    if roots != [] {
      RuleIsNamed(g, p, roots[0]);
      RulesAreNamed(g, p, roots[1..]);
    }
  }

  /** The logic protocol's own cells. */
  predicate LogicHeld(g: Graph, p: Protocol) {
    && p.conformsTo in g && p.rule in g && p.head in g && p.body in g && p.pred in g && p.argument in g
       && p.variable in g
    && p.constant in g && p.termShape in g && p.clauseShape in g && p.ruleShape in g && p.relationMember in g
  }

  predicate NamesIn(h: Graph, n: Names) {
    n.decision in h && n.subject in h && n.object_ in h
  }

  const READ_BUDGET: nat := 13

  lemma {:induction false} ConstraintsPresent(h: Graph, p: Protocol, predicates: Predicates, optional: Optionals)
    requires LogicHeld(h, p) && (forall f: ContextField :: f in predicates)
             && (forall f :: f in predicates ==> predicates[f] in h)
    requires forall k :: 0 <= k < |optional| ==> Source.Named(h, optional[k].1)
    ensures AtomsPresent(h, p, Constraints(predicates, optional), READ_BUDGET)
  {
    if optional != [] {
      ConstraintsPresent(h, p, predicates, optional[..|optional| - 1]);
    }
  }

  lemma BasicsPresent(h: Graph, p: Protocol, predicates: Predicates, n: Names, rule: AuthRule, resource: ContextField)
    requires LogicHeld(h, p) && NamesIn(h, n) && RuleNamed(h, rule)
    requires (forall f: ContextField :: f in predicates) && (forall f :: f in predicates ==> predicates[f] in h)
    ensures AtomsPresent(h, p, Basics(predicates, n, rule, resource), READ_BUDGET)
  {
    forall k | 0 <= k < 5
      ensures AtomPresent(h, p, Basics(predicates, n, rule, resource)[k])
    {
      var a := Basics(predicates, n, rule, resource)[k];
      assert a.terms == [a.terms[0]];
    }
  }

  lemma ClausePresent(h: Graph, p: Protocol, predicates: Predicates, n: Names, rule: AuthRule, resource: ContextField,
                      clause: Rule)
    requires LogicHeld(h, p) && NamesIn(h, n) && RuleNamed(h, rule)
    requires (forall f: ContextField :: f in predicates) && (forall f :: f in predicates ==> predicates[f] in h)
    requires clause.head == Head(n, rule) && clause.body == Body(p, predicates, n, rule, resource)
    ensures RulePresent(h, p, clause, READ_BUDGET)
  {
    hide Constraints, Basics, AtomPresent;
    ConstraintsPresent(h, p, predicates, OptionalsOf(rule));
    BasicsPresent(h, p, predicates, n, rule, resource);
    ConstraintsAreUnary(predicates, OptionalsOf(rule));
    MembershipPresent(h, p, n, rule.subjectRelation);
    HeadPresent(h, p, n, rule);
    BasicsCount(predicates, n, rule, resource);
  }

  lemma BasicsCount(predicates: Predicates, n: Names, rule: AuthRule, resource: ContextField)
    requires forall f: ContextField :: f in predicates
    ensures |Basics(predicates, n, rule, resource)| == 5
  {
  }

  lemma HeadPresent(h: Graph, p: Protocol, n: Names, rule: AuthRule)
    requires LogicHeld(h, p) && NamesIn(h, n) && RuleNamed(h, rule)
    ensures AtomsPresent(h, p, [Head(n, rule)], READ_BUDGET)
  {
  }

  lemma MembershipPresent(h: Graph, p: Protocol, n: Names, relation: Option<Id>)
    requires LogicHeld(h, p) && NamesIn(h, n) && Source.Named(h, relation)
    ensures AtomsPresent(h, p, Membership(p, n, relation), READ_BUDGET)
  {
  }

  // ---------- the installed plan ----------

  lemma {:induction false} RuleNamedLater(g: Graph, h: Graph, rule: AuthRule)
    requires Includes(h, g) && RuleNamed(g, rule)
    ensures RuleNamed(h, rule)
  {
  }

  lemma NamesInstalled(h: Graph, plan: Plan, n: Names)
    requires Holds(h, plan.cells) && NamesHeld(plan.cells, n)
    ensures NamesIn(h, n)
  {
  }

  lemma CompiledReads(g: Graph, h: Graph, plan: Plan, predicates: Predicates, rules: seq<AuthRule>, n: Names,
                      horn: seq<Rule>, budget: nat)
    requires Compiles(plan, predicates, rules, n, horn) && plan.logic.Distinct() && Holds(h, plan.cells)
             && Includes(h, g)
    requires LogicHeld(g, plan.logic) && PredicatesAdmitted(g, plan.logic, predicates)
    requires forall k :: 0 <= k < |rules| ==> RuleNamed(g, rules[k])
    requires READ_BUDGET <= budget && 2 * |rules| <= budget
    ensures ReadProgram(h, plan.logic, plan.program, budget) == Ok(horn)
  {
    hide SpellsProgram, Supported, EffectKnown, ReadProgram, Holds, RuleNamed, Body, Head, RulePresent;
    NamesInstalled(h, plan, n);
    ReadSpelledProgram(h, plan.cells, plan.logic, plan.program, horn, budget);
    forall k | 0 <= k < |horn|
      ensures RulePresent(h, plan.logic, horn[k], budget)
    {
      RuleNamedLater(g, h, rules[k / 2]);
      ClausePresent(h, plan.logic, predicates, n, rules[k / 2], Resource(k), horn[k]);
      MoreBudget(h, plan.logic, horn[k], budget);
    }
  }

  lemma MoreBudget(h: Graph, p: Protocol, clause: Rule, budget: nat)
    requires RulePresent(h, p, clause, READ_BUDGET) && READ_BUDGET <= budget
    ensures RulePresent(h, p, clause, budget)
  {
    hide AtomPresent;
  }

  /** Committed to the graph it was compiled from, a plan holds, its source stands, and its program
      can be read with a budget of thirteen and of two steps a rule: evaluation there refuses for no
      reason of the plan's. */
  lemma InstalledPlanEvaluates(g: Graph, plan: Plan, predicates: Predicates, c: Source.Coding, low: nat, high: nat,
                               budget: nat)
    requires PlanFor(g, plan, predicates, c) && plan.logic.Distinct() && LogicHeld(g, plan.logic)
             && PredicatesAdmitted(g, plan.logic, predicates)
    requires GraphBelow(g, low) && DistinctIds(plan.cells) && AllFrom(plan.cells, low, high) && low <= high
    requires READ_BUDGET <= budget && 2 * |Source.VerifyPolicy(g, plan.auth, plan.policy, c).value.rules| <= budget
    ensures var h := Install(g, plan.cells);
            && Holds(h, plan.cells) && SourceStands(h, plan, c) && ReadProgram(h, plan.logic, plan.program, budget).Ok?
  {
    hide Compiles, Source.VerifyPolicy, Source.ReadAuthRules, ReadProgram, Holds, RuleNamed, LogicHeld,
      PredicatesAdmitted, Install,
         DistinctIds, AllFrom;
    var h := Install(g, plan.cells);
    InstallHolds(g, plan.cells, low, high);
    PolicyLater(g, h, plan.auth, plan.policy, c);
    var verified := Source.VerifyPolicy(g, plan.auth, plan.policy, c).value;
    var rules := Source.ReadAuthRules(g, plan.auth, verified.rules).value;
    RuleCount(g, plan.auth, verified.rules);
    RulesAreNamed(g, plan.auth, verified.rules);
    var n: Names, horn: seq<Rule> :| Compiles(plan, predicates, rules, n, horn);
    CompiledReads(g, h, plan, predicates, rules, n, horn, budget);
  }
}
