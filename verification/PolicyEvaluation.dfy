/** Evaluation of a compiled policy on authenticated context facts, and what its answer has to do
    with the source policy: forbids are tried before permits, on one graph. */
module PolicyEvaluation {
  import opened Wrappers
  import opened CellGraph
  import opened HornLogic
  import opened HornSolver
  import opened PolicyCompiler
  import Source = PolicySource

  // ---------- the context facts ----------

  datatype Context = Context(
    subject: Id, principals: seq<Id>, tenant: Id, assurance: Id, action: Id, object_: Id, scope: Id,
    purpose: Option<Id>, classification: Option<Id>, audience: Option<Id>)

  function Optional(o: Option<Id>): seq<Id> {
    if o.None? then [] else [o.value]
  }

  function ContextRows(ctx: Context, f: ContextField): seq<Id> {
    match f
    case Subject => [ctx.subject]
    case Principal => ctx.principals
    case Tenant => [ctx.tenant]
    case Assurance => [ctx.assurance]
    case Action => [ctx.action]
    case Object => [ctx.object_]
    case Scope => [ctx.scope]
    case Purpose => Optional(ctx.purpose)
    case Classification => Optional(ctx.classification)
    case Audience => Optional(ctx.audience)
  }

  /** The values under a predicate; none under a predicate that is not a context field. */
  function RowsUnder(fields: seq<ContextField>, predicates: Predicates, ctx: Context, pred: Id): seq<Id> {
    if fields == [] then []
    else if fields[0] in predicates && predicates[fields[0]] == pred then ContextRows(ctx, fields[0])
    else RowsUnder(fields[1..], predicates, ctx, pred)
  }

  function Singles(values: seq<Id>, wanted: Option<Id>): Rows {
    if values == [] then []
    else (if wanted.None? || wanted.value == values[0] then [[values[0]]] else []) + Singles(values[1..], wanted)
  }

  function Provided(predicates: Predicates, ctx: Context, pred: Id, p: Pattern): Rows {
    if |p| != 1 then [] else Singles(RowsUnder(FIELDS, predicates, ctx, pred), p[0])
  }

  /** The context provider answers with these facts, or refuses. */
  ghost predicate ContextProvider(primitive: Provider, predicates: Predicates, ctx: Context) {
    forall pred: Id, p: Pattern, left: nat :: primitive(pred, p, left) == Err(Exhausted)
      || primitive(pred, p, left) == Ok(Provided(predicates, ctx, pred, p))
  }

  function Rows3(relation: Id, members: seq<Member>, role: Option<Id>, participant: Option<Id>): Rows {
    if members == [] then []
    else
      (if (role.None? || role.value == members[0].role)
       && (participant.None? || participant.value == members[0].participant)
       then [[relation, members[0].role, members[0].participant]] else [])
      + Rows3(relation, members[1..], role, participant)
  }

  /** Context facts under context predicates, and the members of a relation that is named. */
  function Combined(h: Graph, logic: Protocol, primitive: Provider): Provider {
    (pred: Id, p: Pattern, left: nat) =>
      if pred != logic.relationMember then primitive(pred, p, left)
      else if |p| != 3 || p[0].None? then Ok([])
      else
        var members := ReadRelation(h, p[0].value, left);
        if members.Err? then Err(members.error) else Ok(Rows3(p[0].value, members.value, p[1], p[2]))
  }

  ghost function FactsOf(h: Graph, logic: Protocol, predicates: Predicates, ctx: Context): Facts {
    (pred: Id, p: Pattern) =>
      if pred != logic.relationMember then Ok(Provided(predicates, ctx, pred, p))
      else if |p| != 3 || p[0].None? then Ok([])
      else RelationRows(h, p[0].value, p[1], p[2])
  }

  ghost function RelationRows(h: Graph, relation: Id, role: Option<Id>, participant: Option<Id>): Result<Rows, Fault> {
    if Readable(h, relation)
    then Ok(Rows3(relation, ReadRelation(h, relation, EnoughFor(h, relation)).value, role, participant))
    else Err(InvalidCell)
  }

  ghost predicate Readable(h: Graph, relation: Id) {
    exists budget: nat :: ReadRelation(h, relation, budget).Ok?
  }

  ghost function EnoughFor(h: Graph, relation: Id): (budget: nat)
    requires Readable(h, relation)
    ensures ReadRelation(h, relation, budget).Ok?
  {
    var budget: nat :| ReadRelation(h, relation, budget).Ok?; budget
  }

  /** The relation can be read, and has this member. */
  ghost predicate MemberOf(h: Graph, relation: Id, role: Id, participant: Id) {
    exists budget: nat :: ReadRelation(h, relation, budget).Ok?
      && Source.HasMember(ReadRelation(h, relation, budget).value, role, participant)
  }

  ghost function TruthOf(h: Graph, logic: Protocol, predicates: Predicates, ctx: Context): Truth {
    (pred: Id, row: seq<Id>) =>
      if pred == logic.relationMember then |row| == 3 && MemberOf(h, row[0], row[1], row[2])
      else |row| == 1 && row[0] in RowsUnder(FIELDS, predicates, ctx, pred)
  }

  lemma CombinedAgrees(h: Graph, logic: Protocol, primitive: Provider, predicates: Predicates, ctx: Context)
    requires ContextProvider(primitive, predicates, ctx)
    ensures Agrees(Combined(h, logic, primitive), FactsOf(h, logic, predicates, ctx))
  {
    hide Provided, Rows3, RelationRows;
    var provider, facts := Combined(h, logic, primitive), FactsOf(h, logic, predicates, ctx);
    forall pred: Id, p: Pattern, left: nat
      ensures provider(pred, p, left) == Err(Exhausted) || provider(pred, p, left) == facts(pred, p)
    {
      if pred == logic.relationMember && |p| == 3 && p[0].Some? {
        RelationRowsAgree(h, p[0].value, p[1], p[2], left);
      }
    }
  }

  /** From this budget on the context provider answers. */
  ghost predicate ContextSupplies(primitive: Provider, predicates: Predicates, ctx: Context, enough: nat) {
    forall pred: Id, p: Pattern, left: nat :: left >= enough ==>
      primitive(pred, p, left) == Ok(Provided(predicates, ctx, pred, p))
  }

  /** Then both kinds of facts are answered from a budget that also exceeds the number of cells. */
  lemma CombinedSupplies(h: Graph, logic: Protocol, primitive: Provider, predicates: Predicates, ctx: Context,
                         enough: nat)
    requires ContextSupplies(primitive, predicates, ctx, enough)
    ensures Supplies(Combined(h, logic, primitive), FactsOf(h, logic, predicates, ctx), enough + |h| + 1)
  {
    hide Provided, Rows3, RelationRows, ReadRelation;
    var provider, facts := Combined(h, logic, primitive), FactsOf(h, logic, predicates, ctx);
    forall pred: Id, p: Pattern, left: nat | left >= enough + |h| + 1
      ensures provider(pred, p, left) == facts(pred, p)
    {
      if pred == logic.relationMember && |p| == 3 && p[0].Some? {
        RelationRowsAgree(h, p[0].value, p[1], p[2], left);
        ReadEnough(h, p[0].value, left, left);
      }
    }
  }

  lemma RelationRowsAgree(h: Graph, relation: Id, role: Option<Id>, participant: Option<Id>, left: nat)
    ensures var members := ReadRelation(h, relation, left);
            members == Err(Exhausted)
            || RelationRows(h, relation, role, participant)
               == if members.Err? then Err(members.error) else Ok(Rows3(relation, members.value, role, participant))
  {
    hide ReadRelation, Rows3;
    if Readable(h, relation) && ReadRelation(h, relation, left) != Err(Exhausted) {
      BudgetsAgree(h, relation, EnoughFor(h, relation), left);
    }
    var members := ReadRelation(h, relation, left);
    assert members.Err? ==> members.error.InvalidCell? || members.error.Exhausted?;
  }

  lemma {:induction false} SinglesAre(values: seq<Id>, wanted: Option<Id>, row: seq<Id>)
    ensures row in Singles(values, wanted) <==>
              |row| == 1 && row[0] in values && (wanted.None? || wanted.value == row[0])
  {
    if values != [] {
      SinglesAre(values[1..], wanted, row);
      assert |row| == 1 && row[0] == values[0] ==> row == [values[0]];
    }
  }

  lemma {:induction false} Rows3Are(relation: Id, members: seq<Member>, role: Option<Id>, participant: Option<Id>,
                                    row: seq<Id>)
    ensures row in Rows3(relation, members, role, participant) <==>
            && |row| == 3 && row[0] == relation && Source.HasMember(members, row[1], row[2])
            && (role.None? || role.value == row[1]) && (participant.None? || participant.value == row[2])
  {
    if members != [] {
      Rows3Are(relation, members[1..], role, participant, row);
      assert |row| == 3 ==> (Source.HasMember(members, row[1], row[2]) <==>
        (members[0].role == row[1] && members[0].participant == row[2])
          || Source.HasMember(members[1..], row[1], row[2])) by {
        if |row| == 3 {
          MemberFirstOrLater(members, row[1], row[2]);
        }
      }
      if |row| == 3 && row[0] == relation && members[0].role == row[1] && members[0].participant == row[2] {
        assert row == [relation, members[0].role, members[0].participant];
      }
    }
  }

  lemma MemberFirstOrLater(members: seq<Member>, role: Id, participant: Id)
    requires members != []
    ensures Source.HasMember(members, role, participant) <==>
            (members[0].role == role && members[0].participant == participant)
              || Source.HasMember(members[1..], role, participant)
  {
    assert forall k :: 0 < k < |members| ==> members[k] == members[1..][k - 1];
    assert forall k :: 0 <= k < |members[1..]| ==> members[1..][k] == members[k + 1];
  }

  lemma FactsAreTheTruth(h: Graph, logic: Protocol, predicates: Predicates, ctx: Context)
    ensures Truthful(FactsOf(h, logic, predicates, ctx), TruthOf(h, logic, predicates, ctx))
    ensures Complete(FactsOf(h, logic, predicates, ctx), TruthOf(h, logic, predicates, ctx), logic.relationMember)
  {
    hide RowsUnder, Singles, Rows3, RelationRows, MemberOf;
    var facts, truth := FactsOf(h, logic, predicates, ctx), TruthOf(h, logic, predicates, ctx);
    forall pred: Id, p: Pattern, row: seq<Id> | facts(pred, p).Ok?
      ensures row in facts(pred, p).value ==> truth(pred, row)
      ensures Asked(logic.relationMember, pred, p) && truth(pred, row) && Matches(p, row) ==>
                row in facts(pred, p).value
    {
      if pred != logic.relationMember {
        if |p| == 1 {
          SinglesAre(RowsUnder(FIELDS, predicates, ctx, pred), p[0], row);
        }
      } else if |p| == 3 && p[0].Some? {
        RelationRowsAre(h, p[0].value, p[1], p[2], row);
      }
    }
  }

  lemma RelationRowsAre(h: Graph, relation: Id, role: Option<Id>, participant: Option<Id>, row: seq<Id>)
    requires RelationRows(h, relation, role, participant).Ok?
    ensures row in RelationRows(h, relation, role, participant).value <==>
            && |row| == 3 && row[0] == relation && MemberOf(h, relation, row[1], row[2])
            && (role.None? || role.value == row[1]) && (participant.None? || participant.value == row[2])
  {
    hide ReadRelation, Rows3, Source.HasMember;
    var budget := EnoughFor(h, relation);
    Rows3Are(relation, ReadRelation(h, relation, budget).value, role, participant, row);
    forall other: nat | ReadRelation(h, relation, other).Ok?
      ensures ReadRelation(h, relation, other) == ReadRelation(h, relation, budget)
    {
      BudgetsAgree(h, relation, other, budget);
    }
  }

  // ---------- when a rule applies ----------

  predicate Wanted(required: Option<Id>, actual: seq<Id>) {
    required.Some? ==> required.value in actual
  }

  /** What a rule asks of the context besides its object and the object's relation. */
  predicate Besides(rule: AuthRule, ctx: Context) {
    && rule.principal in ctx.principals && rule.action == ctx.action
    && Wanted(rule.tenant, [ctx.tenant]) && Wanted(rule.assurance, [ctx.assurance])
    && Wanted(rule.purpose, Optional(ctx.purpose)) && Wanted(rule.classification, Optional(ctx.classification))
    && Wanted(rule.audience, Optional(ctx.audience))
  }

  /** What a rule asks of the context besides its object. */
  ghost predicate Conditions(h: Graph, rule: AuthRule, ctx: Context) {
    && Besides(rule, ctx)
    && (rule.subjectRelation.Some? ==> MemberOf(h, ctx.object_, rule.subjectRelation.value, ctx.subject))
  }

  /** The rule is about the object itself, or about the selected scope. */
  ghost predicate Applies(h: Graph, rule: AuthRule, ctx: Context) {
    (rule.object_ == ctx.object_ || rule.object_ == ctx.scope) && Conditions(h, rule, ctx)
  }

  /** The query is about the subject, action and object of the context. */
  predicate Asks(ctx: Context, subject: Id, action: Id, object_: Id) {
    subject == ctx.subject && action == ctx.action && object_ == ctx.object_
  }

  // ---------- what a translated clause proves ----------

  lemma {:induction false} RowsUnderField(fields: seq<ContextField>, logic: Protocol, predicates: Predicates,
                                          ctx: Context, f: ContextField)
    requires Keyed(logic, predicates)
    ensures RowsUnder(fields, predicates, ctx, predicates[f]) == if f in fields then ContextRows(ctx, f) else []
  {
    if fields != [] {
      RowsUnderField(fields[1..], logic, predicates, ctx, f);
    }
  }

  lemma UnaryAtom(h: Graph, logic: Protocol, predicates: Predicates, ctx: Context, f: ContextField, t: Term,
                  b: Bindings)
    requires Keyed(logic, predicates)
    ensures Satisfied(Atom(predicates[f], [t]), b, TruthOf(h, logic, predicates, ctx)) <==>
            Value(t, b).Some? && Value(t, b).value in ContextRows(ctx, f)
  {
    var truth := TruthOf(h, logic, predicates, ctx);
    RowsUnderField(FIELDS, logic, predicates, ctx, f);
    assert f in FIELDS;
    var a := Atom(predicates[f], [t]);
    if Satisfied(a, b, truth) {
      var row :| Instance(a.terms, b, row) && truth(a.pred, row);
      assert a.terms[0] == t;
    }
    if Value(t, b).Some? && Value(t, b).value in ContextRows(ctx, f) {
      assert Instance(a.terms, b, [Value(t, b).value]) && truth(a.pred, [Value(t, b).value]);
    }
  }

  lemma MembershipAtom(h: Graph, logic: Protocol, predicates: Predicates, ctx: Context, n: Names, relation: Id,
                       b: Bindings)
    requires n.subject in b && n.object_ in b
    ensures Satisfied(Membership(logic, n, Some(relation))[0], b, TruthOf(h, logic, predicates, ctx)) <==>
            MemberOf(h, b[n.object_], relation, b[n.subject])
  {
    hide MemberOf;
    var truth := TruthOf(h, logic, predicates, ctx);
    var a := Membership(logic, n, Some(relation))[0];
    var row := [b[n.object_], relation, b[n.subject]];
    assert Instance(a.terms, b, row);
    forall other | Instance(a.terms, b, other)
      ensures other == row
    {
      assert Value(a.terms[0], b) == Some(other[0]) && Value(a.terms[1], b) == Some(other[1])
             && Value(a.terms[2], b) == Some(other[2]);
    }
    assert truth(a.pred, row) <==> MemberOf(h, row[0], row[1], row[2]);
  }

  lemma AllOfConcat(x: seq<Atom>, y: seq<Atom>, b: Bindings, truth: Truth)
    ensures AllSatisfied(x + y, b, truth) <==> AllSatisfied(x, b, truth) && AllSatisfied(y, b, truth)
  {
    hide Satisfied;
    assert forall k :: 0 <= k < |x| ==> x[k] == (x + y)[k];
    assert forall k :: 0 <= k < |y| ==> y[k] == (x + y)[|x| + k];
  }

  lemma {:induction false} ConstraintAtoms(h: Graph, logic: Protocol, predicates: Predicates, ctx: Context,
                                           optional: Optionals, b: Bindings)
    requires Keyed(logic, predicates)
    ensures AllSatisfied(Constraints(predicates, optional), b, TruthOf(h, logic, predicates, ctx)) <==>
            forall k :: 0 <= k < |optional| ==> Wanted(optional[k].1, ContextRows(ctx, optional[k].0))
  {
    hide Satisfied, ContextRows, TruthOf, Keyed;
    AllFields(logic, predicates);
    if optional != [] {
      var n := |optional| - 1;
      var (field, root) := optional[n];
      var truth := TruthOf(h, logic, predicates, ctx);
      ConstraintAtoms(h, logic, predicates, ctx, optional[..n], b);
      var last := if root.None? then [] else [Atom(predicates[field], [Const(root.value)])];
      AllOfConcat(Constraints(predicates, optional[..n]), last, b, truth);
      if root.Some? {
        UnaryAtom(h, logic, predicates, ctx, field, Const(root.value), b);
        assert AllSatisfied(last, b, truth) <==> Satisfied(last[0], b, truth);
      }
      assert (forall k :: 0 <= k < |optional| ==> Wanted(optional[k].1, ContextRows(ctx, optional[k].0))) <==>
        (forall k :: 0 <= k < n ==> Wanted(optional[..n][k].1, ContextRows(ctx, optional[..n][k].0)))
          && Wanted(root, ContextRows(ctx, field));
    }
  }

  lemma AllFields(logic: Protocol, predicates: Predicates)
    requires Keyed(logic, predicates)
    ensures forall f: ContextField :: f in predicates
  {
  }

  lemma BasicAtoms(h: Graph, logic: Protocol, predicates: Predicates, ctx: Context, n: Names, rule: AuthRule,
                   resource: ContextField, b: Bindings)
    requires Keyed(logic, predicates) && n.subject in b && n.object_ in b
    ensures AllSatisfied(Basics(predicates, n, rule, resource), b, TruthOf(h, logic, predicates, ctx)) <==>
            && b[n.subject] == ctx.subject && b[n.object_] == ctx.object_ && rule.action == ctx.action
            && rule.principal in ctx.principals && rule.object_ in ContextRows(ctx, resource)
  {
    hide Satisfied, TruthOf, Keyed;
    AllFields(logic, predicates);
    UnaryAtom(h, logic, predicates, ctx, Subject, Var(n.subject), b);
    UnaryAtom(h, logic, predicates, ctx, Object, Var(n.object_), b);
    UnaryAtom(h, logic, predicates, ctx, Action, Const(rule.action), b);
    UnaryAtom(h, logic, predicates, ctx, Principal, Const(rule.principal), b);
    UnaryAtom(h, logic, predicates, ctx, resource, Const(rule.object_), b);
    var a, truth := Basics(predicates, n, rule, resource), TruthOf(h, logic, predicates, ctx);
    assert AllSatisfied(a, b, truth) <==>
      Satisfied(a[0], b, truth) && Satisfied(a[1], b, truth) && Satisfied(a[2], b, truth) && Satisfied(a[3], b, truth)
        && Satisfied(a[4], b, truth);
  }

  /** The three parts of a body, under bindings of the two variables. */
  lemma BodyMeans(h: Graph, logic: Protocol, predicates: Predicates, ctx: Context, n: Names, rule: AuthRule,
                  resource: ContextField, b: Bindings)
    requires Keyed(logic, predicates) && n.subject in b && n.object_ in b && (resource == Object || resource == Scope)
    ensures AllSatisfied(Body(logic, predicates, n, rule, resource), b, TruthOf(h, logic, predicates, ctx)) <==>
            && b[n.subject] == ctx.subject && b[n.object_] == ctx.object_
            && rule.object_ == (if resource == Object then ctx.object_ else ctx.scope) && Conditions(h, rule, ctx)
  {
    hide Satisfied, TruthOf, Keyed, AllSatisfied, Constraints, Basics, MemberOf;
    AllFields(logic, predicates);
    var truth := TruthOf(h, logic, predicates, ctx);
    var x, y, z :=
      Basics(predicates, n, rule, resource), Constraints(predicates, OptionalsOf(rule)),
      Membership(logic, n, rule.subjectRelation);
    AllOfConcat(x + y, z, b, truth);
    AllOfConcat(x, y, b, truth);
    BasicAtoms(h, logic, predicates, ctx, n, rule, resource, b);
    ConstraintAtoms(h, logic, predicates, ctx, OptionalsOf(rule), b);
    OptionalsMeanConditions(ctx, rule);
    MembershipMeans(h, logic, predicates, ctx, n, rule.subjectRelation, b);
  }

  lemma OptionalsMeanConditions(ctx: Context, rule: AuthRule)
    ensures (forall k :: 0 <= k < |OptionalsOf(rule)| ==>
             Wanted(OptionalsOf(rule)[k].1, ContextRows(ctx, OptionalsOf(rule)[k].0))) <==>
            && Wanted(rule.tenant, [ctx.tenant]) && Wanted(rule.assurance, [ctx.assurance])
            && Wanted(rule.purpose, Optional(ctx.purpose)) && Wanted(rule.classification, Optional(ctx.classification))
            && Wanted(rule.audience, Optional(ctx.audience))
  {
    hide Wanted;
    var o := OptionalsOf(rule);
    assert (forall k :: 0 <= k < |o| ==> Wanted(o[k].1, ContextRows(ctx, o[k].0))) <==>
      && Wanted(o[0].1, ContextRows(ctx, o[0].0)) && Wanted(o[1].1, ContextRows(ctx, o[1].0))
         && Wanted(o[2].1, ContextRows(ctx, o[2].0))
      && Wanted(o[3].1, ContextRows(ctx, o[3].0)) && Wanted(o[4].1, ContextRows(ctx, o[4].0));
  }

  lemma MembershipMeans(h: Graph, logic: Protocol, predicates: Predicates, ctx: Context, n: Names,
                        relation: Option<Id>, b: Bindings)
    requires n.subject in b && n.object_ in b
    ensures AllSatisfied(Membership(logic, n, relation), b, TruthOf(h, logic, predicates, ctx)) <==>
            (relation.Some? ==> MemberOf(h, b[n.object_], relation.value, b[n.subject]))
  {
    hide Satisfied, TruthOf, MemberOf;
    if relation.Some? {
      MembershipAtom(h, logic, predicates, ctx, n, relation.value, b);
    }
  }

  /** A translated clause proves the decision exactly when its rule has that effect, the query is
      about the context, and the rule applies through the clause's resource. */
  lemma ClauseMeansRule(h: Graph, logic: Protocol, predicates: Predicates, ctx: Context, n: Names, rule: AuthRule,
                        clause: Rule, resource: ContextField, effect: Id, subject: Id, action: Id, object_: Id)
    requires Keyed(logic, predicates) && n.subject != n.object_ && (resource == Object || resource == Scope)
    requires clause.head == Head(n, rule) && clause.body == Body(logic, predicates, n, rule, resource)
    ensures Provable(clause, [effect, subject, action, object_], TruthOf(h, logic, predicates, ctx)) <==>
            && rule.effect == effect && Asks(ctx, subject, action, object_)
            && rule.object_ == (if resource == Object then ctx.object_ else ctx.scope) && Conditions(h, rule, ctx)
  {
    hide TruthOf, Keyed, AllSatisfied, Body;
    var args, truth := [effect, subject, action, object_], TruthOf(h, logic, predicates, ctx);
    if b: Bindings :| Proves(clause, args, truth, b) {
      HeadMeans(n, rule, b, args);
      BodyMeans(h, logic, predicates, ctx, n, rule, resource, b);
    }
    var sigma := map[n.subject := subject, n.object_ := object_];
    HeadMeans(n, rule, sigma, args);
    BodyMeans(h, logic, predicates, ctx, n, rule, resource, sigma);
    if && rule.effect == effect && Asks(ctx, subject, action, object_)
       && rule.object_ == (if resource == Object then ctx.object_ else ctx.scope) && Conditions(h, rule, ctx) {
      assert Proves(clause, args, truth, sigma);
    }
  }

  lemma HeadMeans(n: Names, rule: AuthRule, b: Bindings, args: seq<Id>)
    requires |args| == 4
    ensures Instance(Head(n, rule).terms, b, args) <==>
            && rule.effect == args[0] && rule.action == args[2]
            && n.subject in b && b[n.subject] == args[1] && n.object_ in b && b[n.object_] == args[3]
  {
    var t := Head(n, rule).terms;
    assert Instance(t, b, args) <==>
      Value(t[0], b) == Some(args[0]) && Value(t[1], b) == Some(args[1]) && Value(t[2], b) == Some(args[2])
        && Value(t[3], b) == Some(args[3]);
  }

  // ---------- the whole program ----------

  lemma {:induction false} ConstraintPredicates(logic: Protocol, predicates: Predicates, optional: Optionals)
    requires Keyed(logic, predicates)
    ensures forall k :: 0 <= k < |Constraints(predicates, optional)| ==>
              Constraints(predicates, optional)[k].pred in predicates.Values
  {
    if optional != [] {
      ConstraintPredicates(logic, predicates, optional[..|optional| - 1]);
      assert predicates[optional[|optional| - 1].0] in predicates.Values;
    }
  }

  /** Bodies name context predicates, and relation membership of the object only. */
  lemma BodyPredicates(logic: Protocol, predicates: Predicates, n: Names, rule: AuthRule, resource: ContextField)
    requires Keyed(logic, predicates)
    ensures var body := Body(logic, predicates, n, rule, resource);
            forall k :: 0 <= k < |body| ==>
                          || (body[k].pred in predicates.Values && body[k].pred != logic.relationMember)
                          || (body[k].pred == logic.relationMember && body[k].terms != []
                              && body[k].terms[0] == Var(n.object_))
  {
    hide Constraints;
    ConstraintPredicates(logic, predicates, OptionalsOf(rule));
    assert logic.relationMember !in predicates.Values;
    assert forall f: ContextField :: f in predicates && predicates[f] in predicates.Values;
  }

  lemma ProgramIsFlat(plan: Plan, predicates: Predicates, rules: seq<AuthRule>, n: Names, horn: seq<Rule>)
    requires Compiles(plan, predicates, rules, n, horn)
    ensures Flat(horn)
    ensures forall k :: 0 <= k < |horn| ==>
              Moded(horn[k], plan.logic.relationMember) && horn[k].head.pred == plan.decision
  {
    hide SpellsProgram, Body, Supported, EffectKnown;
    forall i | 0 <= i < |horn|
      ensures Moded(horn[i], plan.logic.relationMember)
      ensures forall k :: 0 <= k < |horn[i].body| ==> horn[i].body[k].pred != plan.decision
    {
      BodyPredicates(plan.logic, predicates, n, rules[i / 2], Resource(i));
      assert Head(n, rules[i / 2]).terms[3] == Var(n.object_);
    }
  }

  /** Some rule with this root and effect applies. */
  ghost predicate Backs(h: Graph, rules: seq<AuthRule>, ctx: Context, effect: Id, k: int) {
    0 <= k < |rules| && rules[k].effect == effect && Applies(h, rules[k], ctx)
  }

  lemma ClauseProvable(h: Graph, plan: Plan, predicates: Predicates, rules: seq<AuthRule>, n: Names, horn: seq<Rule>,
                       ctx: Context,
                       effect: Id, subject: Id, action: Id, object_: Id, k: nat)
    requires Compiles(plan, predicates, rules, n, horn) && k < |horn|
    ensures Provable(horn[k], [effect, subject, action, object_], TruthOf(h, plan.logic, predicates, ctx)) <==>
            ClauseBacks(h, rules[k / 2], ctx, Resource(k), effect, subject, action, object_)
  {
    hide TruthOf, SpellsProgram, Conditions, Provable, Body, Head, Supported, EffectKnown;
    ClauseMeansRule(h, plan.logic, predicates, ctx, n, rules[k / 2], horn[k], Resource(k), effect, subject, action,
                    object_);
  }

  lemma AppliesThroughOneClause(h: Graph, rules: seq<AuthRule>, ctx: Context, effect: Id, subject: Id, action: Id,
                                object_: Id, k: nat)
    requires k < |rules|
    ensures Asks(ctx, subject, action, object_) && Backs(h, rules, ctx, effect, k) <==>
            || ClauseBacks(h, rules[k], ctx, Resource(2 * k), effect, subject, action, object_)
            || ClauseBacks(h, rules[k], ctx, Resource(2 * k + 1), effect, subject, action, object_)
  {
    hide Conditions;
  }

  /** One effect: a proof names a rule that backs it, and no proof means that no rule does. */
  lemma QueryDecides(h: Graph, plan: Plan, predicates: Predicates, rules: seq<AuthRule>, n: Names, horn: seq<Rule>,
                     ctx: Context,
                     effect: Id, subject: Id, action: Id, object_: Id)
    requires Compiles(plan, predicates, rules, n, horn)
    requires FirstProof(horn, plan.decision, [effect, subject, action, object_],
                        FactsOf(h, plan.logic, predicates, ctx)).Ok?
    ensures var found :=
            FirstProof(horn, plan.decision, [effect, subject, action, object_],
                       FactsOf(h, plan.logic, predicates, ctx)).value;
            && (found.None? ==> forall k :: !(Asks(ctx, subject, action, object_) && Backs(h, rules, ctx, effect, k)))
            && (found.Some? ==> Asks(ctx, subject, action, object_)
                                && exists k :: Backs(h, rules, ctx, effect, k) && found.value.rule in plan.origins
                                               && plan.origins[found.value.rule] == rules[k].root)
  {
    hide *;
    var truth, args := TruthOf(h, plan.logic, predicates, ctx), [effect, subject, action, object_];
    var facts := FactsOf(h, plan.logic, predicates, ctx);
    ProgramIsFlat(plan, predicates, rules, n, horn);
    FactsAreTheTruth(h, plan.logic, predicates, ctx);
    FirstProofDecides(horn, plan.decision, args, facts, truth, plan.logic.relationMember);
    PlanParts(plan, predicates, rules, n, horn);
    var found := FirstProof(horn, plan.decision, args, facts).value;
    if found.Some? {
      var k: int :| FirstAt(horn, plan.decision, args, truth, k, found.value);
      FirstIsProvable(horn, plan.decision, args, truth, k, found.value);
      ClauseProvable(h, plan, predicates, rules, n, horn, ctx, effect, subject, action, object_, k);
      AppliesThroughOneClause(h, rules, ctx, effect, subject, action, object_, k / 2);
      assert k == 2 * (k / 2) || k == 2 * (k / 2) + 1;
      assert Backs(h, rules, ctx, effect, k / 2);
    } else {
      forall k | Asks(ctx, subject, action, object_) && Backs(h, rules, ctx, effect, k)
        ensures false
      {
        BacksIndex(h, rules, ctx, effect, k);
        AppliesThroughOneClause(h, rules, ctx, effect, subject, action, object_, k);
        ClauseProvable(h, plan, predicates, rules, n, horn, ctx, effect, subject, action, object_, 2 * k);
        ClauseProvable(h, plan, predicates, rules, n, horn, ctx, effect, subject, action, object_, 2 * k + 1);
      }
    }
  }

  lemma BacksIndex(h: Graph, rules: seq<AuthRule>, ctx: Context, effect: Id, k: int)
    requires Backs(h, rules, ctx, effect, k)
    ensures 0 <= k < |rules|
  {
  }

  lemma PlanParts(plan: Plan, predicates: Predicates, rules: seq<AuthRule>, n: Names, horn: seq<Rule>)
    requires Compiles(plan, predicates, rules, n, horn)
    ensures |horn| == 2 * |rules|
    ensures forall k :: 0 <= k < |horn| ==>
              horn[k].root in plan.origins && plan.origins[horn[k].root] == rules[k / 2].root
  {
    hide SpellsProgram, Translates, Supported, EffectKnown;
  }

  lemma FirstIsProvable(horn: seq<Rule>, pred: Id, args: seq<Id>, truth: Truth, k: int, proof: Proof)
    requires FirstAt(horn, pred, args, truth, k, proof)
    ensures 0 <= k < |horn| && horn[k].root == proof.rule && Provable(horn[k], args, truth)
  {
  }

  ghost predicate ClauseBacks(h: Graph, rule: AuthRule, ctx: Context, resource: ContextField, effect: Id, subject: Id,
                              action: Id, object_: Id) {
    && rule.effect == effect && Asks(ctx, subject, action, object_)
    && rule.object_ == (if resource == Object then ctx.object_ else ctx.scope) && Conditions(h, rule, ctx)
  }

  // ---------- evaluation ----------

  datatype EvaluationRefusal = BudgetTooSmall | LogicChanged | Expired | ProgramChanged | SourceChanged
    | LogicFault(fault: Fault)

  type Answer = (bool, Option<Proof>)

  /** The source rules that the later graph holds. */
  ghost predicate RulesIn(h: Graph, plan: Plan, c: Source.Coding, rules: seq<AuthRule>) {
    && Source.VerifyPolicy(h, plan.auth, plan.policy, c).Ok?
    && Source.ReadAuthRules(h, plan.auth, Source.VerifyPolicy(h, plan.auth, plan.policy, c).value.rules) == Ok(rules)
    && forall k :: 0 <= k < |rules| ==> Supported(rules[k]) && EffectKnown(plan.auth, rules[k])
  }

  /** What an answer says about the source rules: an allowing proof names a permit that applies where
      no forbid does, a denying proof a forbid that applies, and no proof that neither does. */
  ghost predicate Verdict(h: Graph, plan: Plan, rules: seq<AuthRule>, ctx: Context, subject: Id, action: Id,
                          object_: Id, answer: Answer) {
    var (allowed, proof) := answer;
    && (allowed ==> proof.Some? && forall k :: !Backs(h, rules, ctx, plan.forbid, k))
    && (proof.Some? ==> Asks(ctx, subject, action, object_)
                        && exists k :: Backs(h, rules, ctx, if allowed then plan.permit else plan.forbid, k)
                                       && proof.value.rule in plan.origins
                                          && plan.origins[proof.value.rule] == rules[k].root)
    && (proof.None? ==> forall k :: !(Asks(ctx, subject, action, object_)
                                      && (Backs(h, rules, ctx, plan.permit, k)
                                          || Backs(h, rules, ctx, plan.forbid, k))))
  }

  /** The plan's program, its rules and their meaning, in a graph that still holds plan and source. */
  lemma PlanStillMeans(g: Graph, h: Graph, plan: Plan, predicates: Predicates, c: Source.Coding)
    returns (rules: seq<AuthRule>, n: Names, horn: seq<Rule>)
    requires c.Injective() && PlanFor(g, plan, predicates, c) && plan.logic.Distinct() && Holds(h, plan.cells)
    requires Source.VerifyPolicy(h, plan.auth, plan.policy, c).Ok?
    requires var d := Source.VerifyPolicy(h, plan.auth, plan.policy, c).value.digest; d in h && h[d].atom == plan.digest
    ensures Compiles(plan, predicates, rules, n, horn) && RulesIn(h, plan, c, rules)
    ensures Source.ReadAuthRules(g, plan.auth, Source.VerifyPolicy(g, plan.auth, plan.policy, c).value.rules)
            == Ok(rules)
    ensures forall budget: nat :: ReadProgram(h, plan.logic, plan.program, budget).Ok? ==>
              ReadProgram(h, plan.logic, plan.program, budget).value == horn
  {
    hide Compiles, Source.VerifyPolicy, Source.ReadAuthRules, ReadProgram;
    var verified := Source.VerifyPolicy(g, plan.auth, plan.policy, c).value;
    rules := Source.ReadAuthRules(g, plan.auth, verified.rules).value;
    n, horn :| Compiles(plan, predicates, rules, n, horn);
    Source.DigestPinsRules(g, h, plan.auth, plan.policy, c);
    RulesSupported(plan, predicates, rules, n, horn);
    forall budget: nat
      ensures ReadProgram(h, plan.logic, plan.program, budget).Ok? ==>
                ReadProgram(h, plan.logic, plan.program, budget).value == horn
    {
      ReadsAsCompiled(h, plan, predicates, rules, n, horn, budget);
    }
  }

  lemma RulesSupported(plan: Plan, predicates: Predicates, rules: seq<AuthRule>, n: Names, horn: seq<Rule>)
    requires Compiles(plan, predicates, rules, n, horn)
    ensures forall k :: 0 <= k < |rules| ==> Supported(rules[k]) && EffectKnown(plan.auth, rules[k])
    ensures plan.permit == plan.auth.permit && plan.forbid == plan.auth.forbid
  {
    hide SpellsProgram, Translates, Supported, EffectKnown;
  }

  lemma ReadsAsCompiled(h: Graph, plan: Plan, predicates: Predicates, rules: seq<AuthRule>, n: Names, horn: seq<Rule>,
                        budget: nat)
    requires Compiles(plan, predicates, rules, n, horn) && plan.logic.Distinct() && Holds(h, plan.cells)
    ensures ReadProgram(h, plan.logic, plan.program, budget).Ok? ==>
              ReadProgram(h, plan.logic, plan.program, budget).value == horn
  {
    hide SpellsProgram, Translates, Supported, EffectKnown, ReadProgram, Holds;
    ReadSpelledProgram(h, plan.cells, plan.logic, plan.program, horn, budget);
  }

  // ---------- why an evaluation refuses ----------

  /** What the program reads as, whatever the budget that suffices for it. */
  function ProgramIn(h: Graph, plan: Plan): Result<seq<Rule>, Fault> {
    ReadProgram(h, plan.logic, plan.program, |h| + 1)
  }

  ghost function QueryCost(h: Graph, plan: Plan, predicates: Predicates, ctx: Context, effect: Id, subject: Id,
                           action: Id, object_: Id): nat
  {
    var program := ProgramIn(h, plan);
    if program.Err? then 0
    else SearchCost(program.value, plan.decision, [effect, subject, action, object_],
                    FactsOf(h, plan.logic, predicates, ctx))
  }

  /** A budget from which one query is never exhausted: what it may spend, and what its providers need. */
  ghost function Needed(h: Graph, plan: Plan, predicates: Predicates, ctx: Context, subject: Id, action: Id,
                        object_: Id, enough: nat): (r: nat)
    ensures r > enough + |h|
  {
    QueryCost(h, plan, predicates, ctx, plan.forbid, subject, action, object_)
    + QueryCost(h, plan, predicates, ctx, plan.permit, subject, action, object_) + enough + |h| + 1
  }

  /** One query where no budget is an obstacle. */
  ghost function Query(h: Graph, plan: Plan, predicates: Predicates, ctx: Context, effect: Id, subject: Id,
                       action: Id, object_: Id): Result<Option<Proof>, Fault>
  {
    var program := ProgramIn(h, plan);
    if program.Err? then Err(program.error)
    else FirstProof(program.value, plan.decision, [effect, subject, action, object_],
                    FactsOf(h, plan.logic, predicates, ctx))
  }

  /** Forbids, and then permits, where no budget is an obstacle. */
  ghost function Answers(h: Graph, plan: Plan, predicates: Predicates, ctx: Context, subject: Id, action: Id,
                         object_: Id): Result<Answer, Fault>
  {
    var forbidden :- Query(h, plan, predicates, ctx, plan.forbid, subject, action, object_);
    if forbidden.Some? then Ok((false, forbidden))
    else
      var permitted :- Query(h, plan, predicates, ctx, plan.permit, subject, action, object_);
      Ok((permitted.Some?, permitted))
  }

  /** With providers that answer from `enough` on, the budget is below what a query needs. */
  ghost predicate Starved(h: Graph, plan: Plan, predicates: Predicates, ctx: Context, subject: Id, action: Id,
                          object_: Id, primitive: Provider, enough: nat, budget: nat)
  {
    ContextSupplies(primitive, predicates, ctx, enough) ==>
      budget < Needed(h, plan, predicates, ctx, subject, action, object_, enough)
  }

  /** Why an evaluation refuses. */
  ghost predicate Cause(h: Graph, plan: Plan, c: Source.Coding, logic: Protocol, predicates: Predicates, ctx: Context,
                        subject: Id, action: Id, object_: Id, primitive: Provider, enough: nat, budget: nat,
                        patience: nat, refusal: EvaluationRefusal)
  {
    match refusal
    case BudgetTooSmall => budget < 2
    case LogicChanged => logic != plan.logic
    case Expired => patience < 5
    case ProgramChanged => !Holds(h, plan.cells)
    case SourceChanged => !SourceStands(h, plan, c)
    case LogicFault(Exhausted) =>
      Starved(h, plan, predicates, ctx, subject, action, object_, primitive, enough, budget / 2)
    case LogicFault(InvalidCell) => Answers(h, plan, predicates, ctx, subject, action, object_) == Err(InvalidCell)
  }

  /** What the running search returns is the query's answer, unless its budget is below what it needs. */
  lemma SearchIsQuery(h: Graph, plan: Plan, predicates: Predicates, ctx: Context, effect: Id, subject: Id, action: Id,
                      object_: Id, primitive: Provider, enough: nat, budget: nat, found: Result<Option<Proof>, Fault>)
    requires effect == plan.forbid || effect == plan.permit
    requires var rules, args := ReadProgram(h, plan.logic, plan.program, budget), [effect, subject, action, object_];
             var facts := FactsOf(h, plan.logic, predicates, ctx);
             || (rules.Err? && found == Err(rules.error))
             || (rules.Ok? && found == FirstProof(rules.value, plan.decision, args, facts))
             || (rules.Ok? && found == Err(Exhausted)
                 && (Supplies(Combined(h, plan.logic, primitive), facts, enough + |h| + 1) ==>
                     budget < SearchCost(rules.value, plan.decision, args, facts) + (enough + |h| + 1)))
    ensures found == Query(h, plan, predicates, ctx, effect, subject, action, object_) || found == Err(Exhausted)
    ensures found == Err(Exhausted) ==>
              Starved(h, plan, predicates, ctx, subject, action, object_, primitive, enough, budget)
  {
    hide FactsOf, FirstProof, SearchCost, ReadProgram, Supplies, ContextSupplies, Combined, Unlimited;
    var rules, args := ReadProgram(h, plan.logic, plan.program, budget), [effect, subject, action, object_];
    var facts := FactsOf(h, plan.logic, predicates, ctx);
    ProgramCut(h, plan.logic, plan.program, budget, |h| + 1);
    FactsUnlimited(h, plan.logic, predicates, ctx);
    if rules.Ok? {
      assert ProgramIn(h, plan) == rules;
      NeverExhausted(rules.value, plan.decision, args, facts);
      if found == Err(Exhausted) && ContextSupplies(primitive, predicates, ctx, enough) {
        CombinedSupplies(h, plan.logic, primitive, predicates, ctx, enough);
        assert SearchCost(rules.value, plan.decision, args, facts)
               == QueryCost(h, plan, predicates, ctx, effect, subject, action, object_);
      }
    } else if rules.error == InvalidCell {
      assert ProgramIn(h, plan) == rules;
    }
  }

  lemma FactsUnlimited(h: Graph, logic: Protocol, predicates: Predicates, ctx: Context)
    ensures Unlimited(FactsOf(h, logic, predicates, ctx))
  {
    hide Provided, Rows3;
  }

  /** One effect on the live context: validate, evaluate, validate. */
  method EvaluateEffect(h: Graph, plan: Plan, effect: Id, subject: Id, action: Id, object_: Id, primitive: Provider,
                        budget: nat, patience: nat, ghost predicates: Predicates, ghost ctx: Context,
                        ghost rules: seq<AuthRule>, ghost n: Names, ghost horn: seq<Rule>, ghost enough: nat)
    returns (r: Result<Option<Proof>, EvaluationRefusal>, left: nat, patience': nat)
    requires Compiles(plan, predicates, rules, n, horn) && ContextProvider(primitive, predicates, ctx)
    requires effect == plan.forbid || effect == plan.permit
    requires budget > 0
    requires ReadProgram(h, plan.logic, plan.program, budget).Ok? ==>
               ReadProgram(h, plan.logic, plan.program, budget).value == horn
    ensures patience' <= patience <= patience' + 2
    ensures r.Ok? ==>
              && (r.value.None? ==>
                  forall k :: !(Asks(ctx, subject, action, object_) && Backs(h, rules, ctx, effect, k)))
              && (r.value.Some? ==> Asks(ctx, subject, action, object_)
                                    && exists k :: Backs(h, rules, ctx, effect, k) && r.value.value.rule in plan.origins
                                                   && plan.origins[r.value.value.rule] == rules[k].root)
    ensures r.Err? ==> r.error.Expired? || r.error.LogicFault?
    ensures r == Err(Expired) ==> patience < 2
    ensures r.Ok? ==> Query(h, plan, predicates, ctx, effect, subject, action, object_) == Ok(r.value)
    ensures r == Err(LogicFault(InvalidCell)) ==>
              Query(h, plan, predicates, ctx, effect, subject, action, object_) == Err(InvalidCell)
    ensures r == Err(LogicFault(Exhausted)) ==>
              Starved(h, plan, predicates, ctx, subject, action, object_, primitive, enough, budget)
  {
    hide *;
    left, patience' := budget, patience;
    if patience' == 0 {
      return Err(Expired), left, patience';
    }
    patience' := patience' - 1;
    ghost var facts := FactsOf(h, plan.logic, predicates, ctx);
    CombinedAgrees(h, plan.logic, primitive, predicates, ctx);
    ProgramIsFlat(plan, predicates, rules, n, horn);
    var found;
    found, left := EvaluateLogic(h, plan.logic, plan.program, plan.decision, [effect, subject, action, object_],
                                 Combined(h, plan.logic, primitive), budget, facts, enough + |h| + 1);
    SearchIsQuery(h, plan, predicates, ctx, effect, subject, action, object_, primitive, enough, budget, found);
    if found.Err? {
      return Err(LogicFault(found.error)), left, patience';
    }
    if patience' == 0 {
      return Err(Expired), left, patience';
    }
    patience' := patience' - 1;
    QueryDecides(h, plan, predicates, rules, n, horn, ctx, effect, subject, action, object_);
    r := Ok(found.value);
  }

  /** Forbids before permits, on a graph that still holds the plan's cells and its source policy.
      `patience` is how often the context may still be validated before it expires. */
  method EvaluateCompiled(h: Graph, plan: Plan, logic: Protocol, subject: Id, action: Id, object_: Id,
                          primitive: Provider, budget: nat, patience: nat, c: Source.Coding, ghost g: Graph,
                          ghost predicates: Predicates, ghost ctx: Context, ghost enough: nat)
    returns (r: Result<Answer, EvaluationRefusal>, left: nat)
    requires c.Injective() && PlanFor(g, plan, predicates, c) && plan.logic.Distinct()
    requires ContextProvider(primitive, predicates, ctx)
    ensures r.Ok? ==>
              exists rules: seq<AuthRule> :: RulesIn(h, plan, c, rules)
                && Verdict(h, plan, rules, ctx, subject, action, object_, r.value)
    ensures r == Err(BudgetTooSmall) <==> budget < 2
    ensures r == Err(LogicChanged) <==> budget >= 2 && logic != plan.logic
    ensures r == Err(Expired) ==> patience < 5
    ensures r == Err(ProgramChanged) ==> !Holds(h, plan.cells)
    ensures r == Err(SourceChanged) ==> !SourceStands(h, plan, c)
    ensures r.Ok? ==> Answers(h, plan, predicates, ctx, subject, action, object_) == Ok(r.value)
    ensures r == Err(LogicFault(InvalidCell)) ==>
              Answers(h, plan, predicates, ctx, subject, action, object_) == Err(InvalidCell)
    ensures r == Err(LogicFault(Exhausted)) ==>
              Starved(h, plan, predicates, ctx, subject, action, object_, primitive, enough, budget / 2)
  {
    hide *;
    left := budget;
    if budget < 2 {
      return Err(BudgetTooSmall), left;
    }
    if logic != plan.logic {
      return Err(LogicChanged), left;
    }
    var patience' := patience;
    if patience' == 0 {
      return Err(Expired), left;
    }
    patience' := patience' - 1;
    if !Holds(h, plan.cells) {
      return Err(ProgramChanged), left;
    }
    var stands := SourceStands(h, plan, c);
    if !stands {
      return Err(SourceChanged), left;
    }
    SourceStandsMeans(h, plan, c);
    ghost var rules, n, horn := PlanStillMeans(g, h, plan, predicates, c);
    var found;
    found, left, patience' :=
      EvaluateEffect(h, plan, plan.forbid, subject, action, object_, primitive, budget / 2, patience',
                     predicates, ctx, rules, n, horn, enough);
    if found.Err? {
      if found.error == LogicFault(InvalidCell) {
        ForbidAnswers(h, plan, predicates, ctx, subject, action, object_, Err(InvalidCell));
      }
      return Err(found.error), left;
    }
    if found.value.Some? {
      ForbidAnswers(h, plan, predicates, ctx, subject, action, object_, Ok(found.value));
      ForbidVerdict(h, plan, rules, ctx, subject, action, object_, found.value.value);
      return Ok((false, found.value)), left;
    }
    ghost var forbidFails := forall k :: !(Asks(ctx, subject, action, object_) && Backs(h, rules, ctx, plan.forbid, k));
    assert forbidFails;
    found, left, patience' :=
      EvaluateEffect(h, plan, plan.permit, subject, action, object_, primitive, budget / 2, patience',
                     predicates, ctx, rules, n, horn, enough);
    if found.Err? {
      if found.error == LogicFault(InvalidCell) {
        PermitAnswers(h, plan, predicates, ctx, subject, action, object_, Err(InvalidCell));
      }
      return Err(found.error), left;
    }
    PermitAnswers(h, plan, predicates, ctx, subject, action, object_, Ok(found.value));
    PermitVerdict(h, plan, rules, ctx, subject, action, object_, found.value);
    return Ok((found.value.Some?, found.value)), left;
  }

  lemma ForbidAnswers(h: Graph, plan: Plan, predicates: Predicates, ctx: Context, subject: Id, action: Id,
                      object_: Id, forbidden: Result<Option<Proof>, Fault>)
    requires forbidden == Query(h, plan, predicates, ctx, plan.forbid, subject, action, object_)
    requires forbidden.Ok? ==> forbidden.value.Some?
    ensures Answers(h, plan, predicates, ctx, subject, action, object_)
            == if forbidden.Err? then Err(forbidden.error) else Ok((false, forbidden.value))
  {
    hide Query;
  }

  lemma PermitAnswers(h: Graph, plan: Plan, predicates: Predicates, ctx: Context, subject: Id, action: Id,
                      object_: Id, permitted: Result<Option<Proof>, Fault>)
    requires Query(h, plan, predicates, ctx, plan.forbid, subject, action, object_) == Ok(None)
    requires permitted == Query(h, plan, predicates, ctx, plan.permit, subject, action, object_)
    ensures Answers(h, plan, predicates, ctx, subject, action, object_)
            == if permitted.Err? then Err(permitted.error) else Ok((permitted.value.Some?, permitted.value))
  {
    hide Query;
  }

  predicate SourceStands(h: Graph, plan: Plan, c: Source.Coding) {
    var verified := Source.VerifyPolicy(h, plan.auth, plan.policy, c);
    verified.Ok? && verified.value.digest in h && h[verified.value.digest].atom == plan.digest
  }

  lemma SourceStandsMeans(h: Graph, plan: Plan, c: Source.Coding)
    requires SourceStands(h, plan, c)
    ensures Source.VerifyPolicy(h, plan.auth, plan.policy, c).Ok?
    ensures var d := Source.VerifyPolicy(h, plan.auth, plan.policy, c).value.digest; d in h && h[d].atom == plan.digest
  {
  }

  lemma ForbidVerdict(h: Graph, plan: Plan, rules: seq<AuthRule>, ctx: Context, subject: Id, action: Id, object_: Id,
                      proof: Proof)
    requires Asks(ctx, subject, action, object_)
    requires proof.rule in plan.origins
    requires exists k :: Backs(h, rules, ctx, plan.forbid, k) && plan.origins[proof.rule] == rules[k].root
    ensures Verdict(h, plan, rules, ctx, subject, action, object_, (false, Some(proof)))
  {
    hide Applies;
  }

  lemma PermitVerdict(h: Graph, plan: Plan, rules: seq<AuthRule>, ctx: Context, subject: Id, action: Id, object_: Id,
                      proof: Option<Proof>)
    requires forall k :: !(Asks(ctx, subject, action, object_) && Backs(h, rules, ctx, plan.forbid, k))
    requires proof.None? ==> forall k :: !(Asks(ctx, subject, action, object_) && Backs(h, rules, ctx, plan.permit, k))
    requires proof.Some? ==> Asks(ctx, subject, action, object_)
                             && exists k :: Backs(h, rules, ctx, plan.permit, k) && proof.value.rule in plan.origins
                                            && plan.origins[proof.value.rule] == rules[k].root
    ensures Verdict(h, plan, rules, ctx, subject, action, object_, (proof.Some?, proof))
  {
    hide Applies;
  }
}
