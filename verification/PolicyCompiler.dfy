/** The translation of a released policy into a relational program: each source rule becomes one
    clause for the exact object and one for the selected scope. */
module PolicyCompiler {
  import opened Octets
  import opened Wrappers
  import opened CellGraph
  import opened HornLogic
  import opened HornSolver
  import Source = PolicySource

  type AuthRule = Source.AuthRule

  datatype ContextField = Subject | Principal | Tenant | Assurance | Action | Object | Scope | Purpose | Classification
    | Audience

  const FIELDS: seq<ContextField> :=
    [Subject, Principal, Tenant, Assurance, Action, Object, Scope, Purpose, Classification, Audience]

  type Predicates = map<ContextField, Id>

  datatype Names = Names(decision: Id, subject: Id, object_: Id)

  datatype Refusal = BadBudget | BadPredicates | BadRuleCount | Unverified | Unsupported | BadEffect | OverBudget

  datatype Plan = Plan(
    policy: Id, digest: Bytes, auth: Source.AuthProtocol, logic: Protocol, program: Id, decision: Id,
    permit: Id, forbid: Id, cells: seq<Cell>, origins: map<Id, Id>)

  const MAX_RULES: nat := 512
  const CELLS_PER_RULE: nat := 356

  // ---------- what is compiled ----------

  /** Every context field has its predicate, and all are told apart. */
  predicate Keyed(logic: Protocol, predicates: Predicates) {
    && (forall f: ContextField :: f in predicates)
    && (forall f, e :: f in predicates && e in predicates && f != e ==> predicates[f] != predicates[e])
    && (forall f :: f in predicates ==> predicates[f] != logic.relationMember)
  }

  predicate PredicatesAdmitted(g: Graph, logic: Protocol, predicates: Predicates) {
    Keyed(logic, predicates) && forall f :: f in predicates ==> predicates[f] != Null && predicates[f] in g
  }

  predicate Supported(rule: AuthRule) {
    rule.interface_.None? && rule.lifecycleState.None? && rule.operationalState.None?
    && rule.expiresAt.None? && rule.maxInvocations.None?
  }

  predicate EffectKnown(auth: Source.AuthProtocol, rule: AuthRule) {
    rule.effect == auth.permit || rule.effect == auth.forbid
  }

  /** Everything the compiler asks of its input. */
  ghost predicate Admissible(g: Graph, auth: Source.AuthProtocol, policy: Id, logic: Protocol, predicates: Predicates,
                             maxCells: int, c: Source.Coding)
  {
    && 1 <= maxCells <= 100_000
    && PredicatesAdmitted(g, logic, predicates)
    && Source.VerifyPolicy(g, auth, policy, c).Ok?
    && var roots := Source.VerifyPolicy(g, auth, policy, c).value.rules;
    && 1 <= |roots| <= MAX_RULES
    && Source.ReadAuthRules(g, auth, roots).Ok?
    && forall k :: 0 <= k < |roots| ==> var rules := Source.ReadAuthRules(g, auth, roots).value;
                                        k < |rules| && Supported(rules[k]) && EffectKnown(auth, rules[k])
  }

  function Membership(logic: Protocol, n: Names, relation: Option<Id>): seq<Atom> {
    if relation.None? then [] else [Atom(logic.relationMember, [Var(n.object_), Const(relation.value), Var(n.subject)])]
  }

  function Head(n: Names, rule: AuthRule): Atom {
    Atom(n.decision, [Const(rule.effect), Var(n.subject), Const(rule.action), Var(n.object_)])
  }

  function Basics(predicates: Predicates, n: Names, rule: AuthRule, resource: ContextField): seq<Atom>
    requires forall f: ContextField :: f in predicates
  {
    [Atom(predicates[Subject], [Var(n.subject)]),
     Atom(predicates[Object], [Var(n.object_)]),
     Atom(predicates[Action], [Const(rule.action)]),
     Atom(predicates[Principal], [Const(rule.principal)]),
     Atom(predicates[resource], [Const(rule.object_)])]
  }

  type Optionals = seq<(ContextField, Option<Id>)>

  function OptionalsOf(rule: AuthRule): Optionals {
    [(Tenant, rule.tenant), (Assurance, rule.assurance), (Purpose, rule.purpose),
     (Classification, rule.classification), (Audience, rule.audience)]
  }

  /** One atom for each constraint the rule has. */
  function Constraints(predicates: Predicates, optional: Optionals): seq<Atom>
    requires forall f: ContextField :: f in predicates
  {
    if optional == [] then []
    else
      var (field, root) := optional[|optional| - 1];
      Constraints(predicates, optional[..|optional| - 1])
      + if root.None? then [] else [Atom(predicates[field], [Const(root.value)])]
  }

  function Body(logic: Protocol, predicates: Predicates, n: Names, rule: AuthRule, resource: ContextField): seq<Atom>
    requires forall f: ContextField :: f in predicates
  {
    Basics(predicates, n, rule, resource) + Constraints(predicates, OptionalsOf(rule))
      + Membership(logic, n, rule.subjectRelation)
  }

  function Resource(k: nat): ContextField {
    if k % 2 == 0 then Object else Scope
  }

  /** The clauses that stand for these rules, two each, in order. */
  ghost predicate Translates(logic: Protocol, predicates: Predicates, n: Names, rules: seq<AuthRule>, horn: seq<Rule>)
    requires forall f: ContextField :: f in predicates
  {
    |horn| <= 2 * |rules| && forall k :: 0 <= k < |horn| ==>
      && horn[k].head == Head(n, rules[k / 2])
      && horn[k].body == Body(logic, predicates, n, rules[k / 2], Resource(k))
  }

  predicate NamesApart(logic: Protocol, predicates: Predicates, n: Names) {
    n.subject != n.object_ && n.decision != logic.relationMember && n.decision !in predicates.Values
  }

  /** The decision and the variables are cells of the plan. */
  predicate NamesHeld(cells: seq<Cell>, n: Names) {
    && (exists k :: 0 <= k < |cells| && cells[k].id == n.decision)
    && (exists k :: 0 <= k < |cells| && cells[k].id == n.subject)
    && (exists k :: 0 <= k < |cells| && cells[k].id == n.object_)
  }

  lemma NamesHeldLater(a: seq<Cell>, b: seq<Cell>, n: Names)
    requires a <= b && NamesHeld(a, n)
    ensures NamesHeld(b, n)
  {
    assert forall k :: 0 <= k < |a| ==> a[k] == b[k];
  }

  /** The plan's cells spell the translated program, and each clause remembers its source rule. */
  ghost predicate Compiles(plan: Plan, predicates: Predicates, rules: seq<AuthRule>, n: Names, horn: seq<Rule>) {
    && Keyed(plan.logic, predicates)
    && rules != [] && |horn| == 2 * |rules| && Translates(plan.logic, predicates, n, rules, horn)
    && NamesApart(plan.logic, predicates, n) && NamesHeld(plan.cells, n) && n.decision == plan.decision
    && SpellsProgram(plan.cells, plan.logic, plan.program, horn) && NoRepeat(Roots(horn))
    && plan.permit == plan.auth.permit && plan.forbid == plan.auth.forbid
    && (forall k :: 0 <= k < |rules| ==> Supported(rules[k]) && EffectKnown(plan.auth, rules[k]))
    && (forall k :: 0 <= k < |horn| ==> horn[k].root in plan.origins && plan.origins[horn[k].root] == rules[k / 2].root)
  }

  /** The plan was made from the policy as this graph holds it. */
  ghost predicate PlanFor(g: Graph, plan: Plan, predicates: Predicates, c: Source.Coding) {
    && Source.VerifyPolicy(g, plan.auth, plan.policy, c).Ok?
    && var verified := Source.VerifyPolicy(g, plan.auth, plan.policy, c).value;
    && verified.digest in g && g[verified.digest].atom == plan.digest
    && Source.ReadAuthRules(g, plan.auth, verified.rules).Ok?
    && exists n: Names, horn: seq<Rule> ::
         Compiles(plan, predicates, Source.ReadAuthRules(g, plan.auth, verified.rules).value, n, horn)
  }

  // ---------- emission ----------

  lemma Later(a: seq<Cell>, b: seq<Cell>, p: Protocol)
    requires a <= b
    ensures forall root, t :: SpellsTerm(a, p, root, t) ==> SpellsTerm(b, p, root, t)
    ensures forall root, x :: SpellsClause(a, p, root, x) ==> SpellsClause(b, p, root, x)
    ensures forall rule :: SpellsRule(a, p, rule) ==> SpellsRule(b, p, rule)
  {
    assert b == a + b[|a|..];
    SpellsMore(a, b[|a|..], p);
  }

  function Sizes(atoms: seq<Atom>): nat {
    if atoms == [] then 0 else Sizes(atoms[..|atoms| - 1]) + 6 * |atoms[|atoms| - 1].terms| + 4
  }

  lemma RuleSpelled(all: seq<Cell>, p: Protocol, rule: Rule, head: Id, body: seq<Id>)
    requires rule.root != Null && SpellsClause(all, p, head, rule.head)
    requires |body| == |rule.body| && forall k :: 0 <= k < |body| ==> SpellsClause(all, p, body[k], rule.body[k])
    requires Within(Composed(rule.root, RulePairs(p, head, body)), all)
    ensures SpellsRule(all, p, rule)
  {
    hide SpellsClause, Composed, Within;
  }

  class Emitter {
    const low: nat
    const maxCells: nat
    const logic: Protocol
    var cells: seq<Cell>
    var next: nat

    ghost predicate Valid()
      reads this
    {
      low <= next && DistinctIds(cells) && AllFrom(cells, low, next)
    }

    constructor (low: nat, maxCells: nat, logic: Protocol)
      ensures Valid() && cells == [] && next == low && this.low == low && this.maxCells == maxCells
              && this.logic == logic
    {
      this.low, this.maxCells, this.logic, cells, next := low, maxCells, logic, [], low;
    }

    /** New cells under one new name. */
    method Add(values: seq<Cell>) returns (r: Result<Id, Refusal>)
      requires Valid() && DistinctIds(values) && AllFrom(values, next, next + 1)
      modifies this`cells, this`next
      ensures Valid() && cells == old(cells) + values && next == old(next) + 1
      ensures r == if |cells| > maxCells then Err(OverBudget) else Ok(Named(old(next)))
    {
      JoinNew(cells, values, low, next, next + 1);
      var root := Named(next);
      cells, next := cells + values, next + 1;
      if |cells| > maxCells {
        return Err(OverBudget);
      }
      return Ok(root);
    }

    method Leaf(text: string) returns (r: Result<Id, Refusal>)
      requires Valid()
      modifies this`cells, this`next
      ensures Valid() && old(cells) <= cells && |cells| == |old(cells)| + 1 && next == old(next) + 1
      ensures r == if |cells| > maxCells then Err(OverBudget) else Ok(Named(old(next)))
      ensures r.Ok? ==> Cell(r.value, Null, Null, Ascii(text)) in cells
    {
      r := Add([Cell(Named(next), Null, Null, Ascii(text))]);
    }

    /** The decision predicate and the two variables, all new. */
    method Leaves(ghost predicates: Predicates) returns (r: Result<Names, Refusal>)
      requires Valid() && Below(logic.relationMember, next) && forall f :: f in predicates ==>
                 Below(predicates[f], next)
      modifies this`cells, this`next
      ensures Valid() && |cells| <= |old(cells)| + 3 && next >= old(next)
      ensures r.Ok? ==> NamesApart(logic, predicates, r.value) && NamesHeld(cells, r.value)
      ensures r.Err? ==> r.error == OverBudget && |cells| > maxCells
    {
      hide DistinctIds, AllFrom, Ascii;
      var decision := Leaf("source-policy-decision");
      if decision.Err? {
        return Err(decision.error);
      }
      var subject := Leaf("subject-variable");
      if subject.Err? {
        return Err(subject.error);
      }
      var object_ := Leaf("object-variable");
      if object_.Err? {
        return Err(object_.error);
      }
      var n := Names(decision.value, subject.value, object_.value);
      LeavesHeld(Cell(n.decision, Null, Null, Ascii("source-policy-decision")),
                 Cell(n.subject, Null, Null, Ascii("subject-variable")),
                 Cell(n.object_, Null, Null, Ascii("object-variable")), n);
      return Ok(n);
    }

    lemma LeavesHeld(decision: Cell, subject: Cell, object_: Cell, n: Names)
      requires decision in cells && subject in cells && object_ in cells
      requires decision.id == n.decision && subject.id == n.subject && object_.id == n.object_
      ensures NamesHeld(cells, n)
    {
    }

    method Relation(pairs: seq<Pair>) returns (r: Result<Id, Refusal>)
      requires Valid() && pairs != []
      modifies this`cells, this`next
      ensures Valid() && old(cells) <= cells && |cells| == |old(cells)| + 2 * |pairs| && next == old(next) + 1
      ensures r == if |cells| > maxCells then Err(OverBudget) else Ok(Named(old(next)))
      ensures r.Ok? ==> Within(Composed(r.value, pairs), cells)
    {
      hide Composed, DistinctIds, AllFrom;
      ComposedIsNew(Named(next), pairs, next, next + 1);
      var built := Compose(Named(next), pairs);
      r := Add(built);
    }

    method Term(t: HornLogic.Term) returns (r: Result<Id, Refusal>)
      requires Valid()
      modifies this`cells, this`next
      ensures Valid() && old(cells) <= cells && |cells| == |old(cells)| + 4 && next > old(next)
      ensures r.Ok? ==> SpellsTerm(cells, logic, r.value, t)
      ensures r.Err? ==> r.error == OverBudget && |cells| > maxCells
    {
      r := Relation([(logic.conformsTo, logic.termShape),
                     (if t.Var? then logic.variable else logic.constant, t.value)]);
    }

    method Clause(a: Atom) returns (r: Result<Id, Refusal>)
      requires Valid()
      modifies this`cells, this`next
      ensures Valid() && old(cells) <= cells && |cells| <= |old(cells)| + 6 * |a.terms| + 4 && next > old(next)
      ensures r.Ok? ==> SpellsClause(cells, logic, r.value, a)
      ensures r.Err? ==> r.error == OverBudget && |cells| > maxCells
    {
      hide SpellsTerm, Composed, DistinctIds, AllFrom;
      var terms: seq<Id> := [];
      for i := 0 to |a.terms|
        invariant Valid() && old(cells) <= cells && |cells| == |old(cells)| + 4 * i && next >= old(next)
        invariant |terms| == i && forall k :: 0 <= k < i ==> SpellsTerm(cells, logic, terms[k], a.terms[k])
      {
        ghost var before := cells;
        var t := Term(a.terms[i]);
        if t.Err? {
          return Err(t.error);
        }
        Later(before, cells, logic);
        terms := terms + [t.value];
      }
      ghost var before := cells;
      r := Relation([(logic.conformsTo, logic.clauseShape), (logic.pred, a.pred)] + Tagged(logic.argument, terms));
      Later(before, cells, logic);
      assert r.Ok? ==> SpellsTerms(cells, logic, terms, a.terms);
    }

    method HornRule(head: Atom, body: seq<Atom>) returns (r: Result<Rule, Refusal>)
      requires Valid()
      modifies this`cells, this`next
      ensures Valid() && old(cells) <= cells && next > old(next)
      ensures |cells| <= |old(cells)| + 6 * |head.terms| + 4 + Sizes(body) + 4 + 2 * |body|
      ensures r.Ok? ==> r.value.head == head && r.value.body == body && SpellsRule(cells, logic, r.value)
                        && r.value.root.Named? && old(next) <= r.value.root.n < next
      ensures r.Err? ==> r.error == OverBudget && |cells| > maxCells
    {
      hide SpellsClause, SpellsRule, Composed, DistinctIds, AllFrom, Sizes, Within;
      SizesStep(body, 0);
      var headRoot := Clause(head);
      if headRoot.Err? {
        return Err(headRoot.error);
      }
      var roots: seq<Id> := [];
      for i := 0 to |body|
        invariant Valid() && old(cells) <= cells && next > old(next)
        invariant |cells| <= |old(cells)| + 6 * |head.terms| + 4 + Sizes(body[..i])
        invariant Sizes(body[..i]) <= Sizes(body)
        invariant SpellsClause(cells, logic, headRoot.value, head)
        invariant |roots| == i && forall k :: 0 <= k < i ==> SpellsClause(cells, logic, roots[k], body[k])
      {
        ghost var before := cells;
        SizesStep(body, i);
        SizesStep(body, i + 1);
        var clause := Clause(body[i]);
        if clause.Err? {
          return Err(clause.error);
        }
        Later(before, cells, logic);
        roots := roots + [clause.value];
      }
      ghost var before := cells;
      var root := Relation([(logic.conformsTo, logic.ruleShape), (logic.head, headRoot.value)]
                           + Tagged(logic.body, roots));
      if root.Err? {
        return Err(root.error);
      }
      Later(before, cells, logic);
      r := Ok(Rule(root.value, head, body));
      RuleSpelled(cells, logic, r.value, headRoot.value, roots);
    }

    /** The shape of a rule's clauses bounds the cells they need. */
    method Translation(predicates: Predicates, n: Names, rule: AuthRule,
                       resource: ContextField) returns (r: Result<Rule, Refusal>)
      requires Valid() && forall f: ContextField :: f in predicates
      modifies this`cells, this`next
      ensures Valid() && old(cells) <= cells && next > old(next) && |cells| <= |old(cells)| + 176
      ensures r.Ok? ==> r.value.head == Head(n, rule) && r.value.body == Body(logic, predicates, n, rule, resource)
                        && SpellsRule(cells, logic, r.value) && r.value.root.Named?
                           && old(next) <= r.value.root.n < next
      ensures r.Err? ==> r.error == OverBudget && |cells| > maxCells
    {
      hide SpellsRule, DistinctIds, AllFrom, Basics, OptionalsOf, Sizes;
      var body, optional := Basics(predicates, n, rule, resource), OptionalsOf(rule);
      ghost var start := body;
      for i := 0 to |optional|
        invariant body == start + Constraints(predicates, optional[..i])
      {
        assert optional[..i + 1][..i] == optional[..i];
        var (field, required) := optional[i];
        if required.Some? {
          body := body + [Atom(predicates[field], [Const(required.value)])];
        }
      }
      assert optional[..|optional|] == optional;
      if rule.subjectRelation.Some? {
        body := body + [Atom(logic.relationMember,
                             [Var(n.object_), Const(rule.subjectRelation.value), Var(n.subject)])];
      }
      assert body == Body(logic, predicates, n, rule, resource);
      BodySize(logic, predicates, n, rule, resource);
      r := HornRule(Head(n, rule), body);
    }

    /** Two clauses for every source rule; the origins say whose each one is. */
    method Clauses(predicates: Predicates, n: Names, rules: seq<AuthRule>)
      returns (r: Result<(seq<Id>, map<Id, Id>), Refusal>, ghost horn: seq<Rule>)
      requires Valid() && forall f: ContextField :: f in predicates
      modifies this`cells, this`next
      ensures Valid() && old(cells) <= cells && next >= old(next) && |cells| <= |old(cells)| + 352 * |rules|
      ensures r.Err? ==> r.error == OverBudget && |cells| > maxCells
      ensures r.Ok? ==>
                var (compiled, origins) := r.value;
                |horn| == 2 * |rules| && compiled == Roots(horn)
                  && Progress(cells, logic, predicates, n, rules, horn, origins, next)
    {
      hide DistinctIds, AllFrom, Progress, Head, Body, SpellsRule;
      var compiled: seq<Id>, origins: map<Id, Id> := [], map[];
      horn := [];
      NoProgress(cells, logic, predicates, n, rules, next);
      for i := 0 to 2 * |rules|
        invariant Valid() && old(cells) <= cells && next >= old(next) && |cells| <= |old(cells)| + 176 * i
        invariant |horn| == i && compiled == Roots(horn)
                  && Progress(cells, logic, predicates, n, rules, horn, origins, next)
      {
        ghost var before, from := cells, next;
        var rule := Translation(predicates, n, rules[i / 2], Resource(i));
        if rule.Err? {
          return Err(rule.error), horn;
        }
        MoreProgress(before, cells, logic, predicates, n, rules, horn, origins, from, next, rule.value);
        RootsOfMore(horn, rule.value);
        compiled := compiled + [rule.value.root];
        origins := origins[rule.value.root := rules[i / 2].root];
        horn := horn + [rule.value];
      }
      r := Ok((compiled, origins));
    }
  }

  /** Every clause so far is translated, spelled out, under a name of its own, and has its origin. */
  ghost predicate Progress(all: seq<Cell>, logic: Protocol, predicates: Predicates, n: Names, rules: seq<AuthRule>,
                           horn: seq<Rule>, origins: map<Id, Id>, next: nat)
    requires forall f: ContextField :: f in predicates
  {
    && Translates(logic, predicates, n, rules, horn) && SpellsRules(all, logic, horn)
    && (forall k :: 0 <= k < |horn| ==> horn[k].root.Named? && horn[k].root.n < next)
    && (forall j, k :: 0 <= j < k < |horn| ==> horn[j].root != horn[k].root)
    && (forall k :: 0 <= k < |horn| ==> horn[k].root in origins && origins[horn[k].root] == rules[k / 2].root)
  }

  lemma NoProgress(all: seq<Cell>, logic: Protocol, predicates: Predicates, n: Names, rules: seq<AuthRule>, next: nat)
    requires forall f: ContextField :: f in predicates
    ensures Progress(all, logic, predicates, n, rules, [], map[], next)
  {
  }

  lemma MoreProgress(before: seq<Cell>, after: seq<Cell>, logic: Protocol, predicates: Predicates, n: Names,
                     rules: seq<AuthRule>,
                     horn: seq<Rule>, origins: map<Id, Id>, from: nat, next: nat, rule: Rule)
    requires forall f: ContextField :: f in predicates
    requires before <= after && Progress(before, logic, predicates, n, rules, horn, origins, from)
    requires |horn| < 2 * |rules|
    requires rule.head == Head(n, rules[|horn| / 2])
    requires rule.body == Body(logic, predicates, n, rules[|horn| / 2], Resource(|horn|))
    requires SpellsRule(after, logic, rule) && rule.root.Named? && from <= rule.root.n < next
    ensures Progress(after, logic, predicates, n, rules, horn + [rule], origins[rule.root := rules[|horn| / 2].root],
                     next)
  {
    hide Head, Body, SpellsRule;
    Later(before, after, logic);
  }

  lemma SizesStep(body: seq<Atom>, i: nat)
    requires i <= |body|
    ensures Sizes(body[..i]) <= Sizes(body)
    ensures i == 0 ==> Sizes(body[..i]) == 0
    ensures i < |body| ==> Sizes(body[..i + 1]) == Sizes(body[..i]) + 6 * |body[i].terms| + 4
  {
    SizesGrow(body, i);
    assert i < |body| ==> body[..i + 1][..i] == body[..i];
  }

  lemma {:induction false} SizesGrow(body: seq<Atom>, i: nat)
    requires i <= |body|
    ensures Sizes(body[..i]) <= Sizes(body)
    decreases |body|
  {
    if i == |body| {
      assert body[..i] == body;
    } else {
      SizesGrow(body[..|body| - 1], i);
      assert body[..|body| - 1][..i] == body[..i];
    }
  }

  lemma {:induction false} SizesOfConcat(a: seq<Atom>, b: seq<Atom>)
    ensures Sizes(a + b) == Sizes(a) + Sizes(b)
  {
    if b == [] {
      assert a + b == a;
    } else {
      assert (a + b)[..|a + b| - 1] == a + b[..|b| - 1];
      SizesOfConcat(a, b[..|b| - 1]);
    }
  }

  lemma {:induction false} SizesOfUnary(a: seq<Atom>)
    requires forall k :: 0 <= k < |a| ==> |a[k].terms| == 1
    ensures Sizes(a) == 10 * |a|
  {
    if a != [] {
      SizesOfUnary(a[..|a| - 1]);
    }
  }

  lemma {:induction false} ConstraintsAreUnary(predicates: Predicates, optional: Optionals)
    requires forall f: ContextField :: f in predicates
    ensures var atoms := Constraints(predicates, optional);
            |atoms| <= |optional| && forall k :: 0 <= k < |atoms| ==> |atoms[k].terms| == 1
  {
    if optional != [] {
      ConstraintsAreUnary(predicates, optional[..|optional| - 1]);
    }
  }

  lemma BodySize(logic: Protocol, predicates: Predicates, n: Names, rule: AuthRule, resource: ContextField)
    requires forall f: ContextField :: f in predicates
    ensures var body := Body(logic, predicates, n, rule, resource); Sizes(body) + 2 * |body| <= 144
  {
    var front, tail := Basics(predicates, n, rule, resource) + Constraints(predicates, OptionalsOf(rule)),
                       Membership(logic, n, rule.subjectRelation);
    ConstraintsAreUnary(predicates, OptionalsOf(rule));
    SizesOfConcat(front, tail);
    SizesOfUnary(front) by {
      hide Constraints;
    }
    MembershipSize(logic, n, rule.subjectRelation);
  }

  lemma MembershipSize(logic: Protocol, n: Names, relation: Option<Id>)
    ensures var m := Membership(logic, n, relation); Sizes(m) + 2 * |m| <= 24
  {
    var m := Membership(logic, n, relation);
    if m != [] {
      assert m[..0] == [];
    }
  }

  // ---------- the compiler ----------

  method PreparePolicy(g: Graph, auth: Source.AuthProtocol, policy: Id, logic: Protocol, predicates: Predicates,
                       maxCells: int, c: Source.Coding, next: nat)
    returns (r: Result<Plan, Refusal>, last: nat)
    requires GraphBelow(g, next) && Below(logic.relationMember, next)
    ensures r.Ok? ==>
              && Admissible(g, auth, policy, logic, predicates, maxCells, c)
              && r.value.auth == auth && r.value.policy == policy && r.value.logic == logic
              && PlanFor(g, r.value, predicates, c)
              && |r.value.cells| <= maxCells
              && next <= last && DistinctIds(r.value.cells) && AllFrom(r.value.cells, next, last)
    ensures r.Err? && r.error != OverBudget ==> !Admissible(g, auth, policy, logic, predicates, maxCells, c)
    ensures r == Err(OverBudget) ==>
              && Admissible(g, auth, policy, logic, predicates, maxCells, c)
              && maxCells < 3 + CELLS_PER_RULE * |Source.VerifyPolicy(g, auth, policy, c).value.rules|
  {
    hide Source.VerifyPolicy, Source.ReadAuthRules, Compiles, PredicatesAdmitted, Supported, EffectKnown;
    last := next;
    if !(1 <= maxCells <= 100_000) {
      return Err(BadBudget), last;
    }
    if !PredicatesAdmitted(g, logic, predicates) {
      return Err(BadPredicates), last;
    }
    var verified := Source.VerifyPolicy(g, auth, policy, c);
    if verified.Err? {
      return Err(Unverified), last;
    }
    if verified.value.rules == [] || |verified.value.rules| > MAX_RULES {
      return Err(BadRuleCount), last;
    }
    var read := Source.ReadAuthRules(g, auth, verified.value.rules);
    if read.Err? {
      return Err(Unverified), last;
    }
    var rules := read.value;
    RuleCount(g, auth, verified.value.rules);
    if !(forall k :: 0 <= k < |rules| ==> Supported(rules[k])) {
      return Err(Unsupported), last;
    }
    if !(forall k :: 0 <= k < |rules| ==> EffectKnown(auth, rules[k])) {
      return Err(BadEffect), last;
    }
    assert Admissible(g, auth, policy, logic, predicates, maxCells, c);
    DigestHeld(g, auth, policy, c);
    r, last := EmitPlan(g, auth, policy, g[verified.value.digest].atom, logic, predicates, maxCells, rules, next);
    assert r.Ok? ==> exists n: Names, horn: seq<Rule> :: Compiles(r.value, predicates, rules, n, horn);
  }

  lemma DigestHeld(g: Graph, auth: Source.AuthProtocol, policy: Id, c: Source.Coding)
    requires Source.VerifyPolicy(g, auth, policy, c).Ok?
    ensures Source.VerifyPolicy(g, auth, policy, c).value.digest in g
  {
  }

  lemma {:induction false} RuleCount(g: Graph, auth: Source.AuthProtocol, roots: seq<Id>)
    requires Source.ReadAuthRules(g, auth, roots).Ok?
    ensures |Source.ReadAuthRules(g, auth, roots).value| == |roots|
  {
    hide Source.ReadAuthRule;
    if roots != [] {
      RuleCount(g, auth, roots[1..]);
    }
  }

  /** Three leaves, two clauses a rule, and the program over all of them. */
  method EmitPlan(g: Graph, auth: Source.AuthProtocol, policy: Id, digest: Bytes, logic: Protocol,
                  predicates: Predicates,
                  maxCells: nat, rules: seq<AuthRule>, next: nat)
    returns (r: Result<Plan, Refusal>, last: nat)
    requires GraphBelow(g, next) && Below(logic.relationMember, next)
    requires PredicatesAdmitted(g, logic, predicates) && rules != []
    requires forall k :: 0 <= k < |rules| ==> Supported(rules[k]) && EffectKnown(auth, rules[k])
    ensures next <= last
    ensures r.Ok? ==>
              && (exists n: Names, horn: seq<Rule> :: Compiles(r.value, predicates, rules, n, horn))
              && r.value.auth == auth && r.value.policy == policy && r.value.logic == logic && r.value.digest == digest
              && |r.value.cells| <= maxCells && DistinctIds(r.value.cells) && AllFrom(r.value.cells, next, last)
    ensures r.Err? ==> r.error == OverBudget && maxCells < 3 + CELLS_PER_RULE * |rules|
  {
    hide SpellsRule, DistinctIds, AllFrom, Composed, Supported, EffectKnown, Translates, Progress, Within, Compiles,
      NamesHeld;
    last := next;
    var e := new Emitter(next, maxCells, logic);
    var names := e.Leaves(predicates);
    if names.Err? {
      return Err(names.error), last;
    }
    var n := names.value;
    ghost var leaves := e.cells;
    var clauses, horn := e.Clauses(predicates, n, rules);
    if clauses.Err? {
      return Err(clauses.error), last;
    }
    var (compiled, origins) := clauses.value;
    ghost var before := e.cells;
    var program := e.Relation(Tagged(logic.rule, compiled));
    if program.Err? {
      return Err(program.error), last;
    }
    last := e.next;
    var plan := Plan(policy, digest, auth, logic, program.value, n.decision, auth.permit, auth.forbid, e.cells,
                     origins);
    NamesHeldLater(leaves, e.cells, n);
    PlanCompiles(before, plan, predicates, rules, n, horn, last - 1);
    return Ok(plan), last;
  }

  lemma PlanCompiles(before: seq<Cell>, plan: Plan, predicates: Predicates, rules: seq<AuthRule>, n: Names,
                     horn: seq<Rule>, next: nat)
    requires Keyed(plan.logic, predicates)
    requires rules != [] && |horn| == 2 * |rules| && before <= plan.cells
    requires Progress(before, plan.logic, predicates, n, rules, horn, plan.origins, next)
    requires NamesApart(plan.logic, predicates, n) && NamesHeld(plan.cells, n) && n.decision == plan.decision
    requires plan.program != Null && Within(Composed(plan.program, Tagged(plan.logic.rule, Roots(horn))), plan.cells)
    requires plan.permit == plan.auth.permit && plan.forbid == plan.auth.forbid
    requires forall k :: 0 <= k < |rules| ==> Supported(rules[k]) && EffectKnown(plan.auth, rules[k])
    ensures Compiles(plan, predicates, rules, n, horn)
  {
    hide SpellsRule, Composed, Within, Translates, Supported, EffectKnown, NamesApart, NamesHeld;
    Later(before, plan.cells, plan.logic);
  }

  lemma {:induction false} RootsOfMore(horn: seq<Rule>, rule: Rule)
    ensures Roots(horn + [rule]) == Roots(horn) + [rule.root]
  {
  }
}
