/** When a query of a compiled policy answers at all: its search meets an unreadable relation exactly
    when some clause gets as far as asking for the object's relation before any clause is proved. */
module PolicyAnswers {
  import opened Wrappers
  import opened CellGraph
  import opened HornLogic
  import opened HornSolver
  import opened PolicyCompiler
  import opened PolicyEvaluation
  import Source = PolicySource

  // ---------- searches over context facts alone ----------

  lemma {:induction false} NoEntry(horn: seq<Rule>, pred: Id, args: seq<Id>, facts: Facts)
    requires forall k :: 0 <= k < |horn| ==> Attempt(horn[k], args, facts) == Ok(None)
    ensures FirstProof(horn, pred, args, facts) == Ok(None)
  {
    hide Attempt;
    if horn != [] {
      NoEntry(horn[1..], pred, args, facts);
    }
  }

  /** The decision predicate has no facts of its own. */
  lemma NoQueryFacts(h: Graph, logic: Protocol, predicates: Predicates, ctx: Context, clause: Rule, args: seq<Id>)
    requires |args| == 4 && clause.head.pred != logic.relationMember
    ensures var facts := FactsOf(h, logic, predicates, ctx); Attempt(clause, args, facts) == Enter(clause, args, facts)
  {
    hide Enter, RowsUnder;
    assert QueryFacts([], args) == Ok(());
  }

  lemma OtherEffectFails(h: Graph, logic: Protocol, predicates: Predicates, ctx: Context, clause: Rule, effect: Id,
                         args: seq<Id>)
    requires |args| == 4 && clause.head.pred != logic.relationMember
    requires |clause.head.terms| == 4 && clause.head.terms[0] == Const(effect) && effect != args[0]
    ensures Attempt(clause, args, FactsOf(h, logic, predicates, ctx)) == Ok(None)
  {
    hide FactsOf, Solve, Attempt;
    NoQueryFacts(h, logic, predicates, ctx, clause, args);
    assert Unify(clause.head.terms, args, map[]) == None;
  }

  /** Atoms over context predicates alone. */
  predicate ContextAtoms(logic: Protocol, body: seq<Atom>) {
    forall k :: 0 <= k < |body| ==> body[k].pred != logic.relationMember && |body[k].terms| == 1
  }

  lemma {:induction false} ContextSearchReturns(h: Graph, logic: Protocol, predicates: Predicates, ctx: Context,
                                                body: seq<Atom>, b: Bindings)
    requires ContextAtoms(logic, body)
    ensures Solve(body, b, FactsOf(h, logic, predicates, ctx)).Ok?
    decreases |body|, 1, 0
  {
    hide RowsUnder, Singles;
    if body != [] {
      var rows := Provided(predicates, ctx, body[0].pred, PatternOf(body[0].terms, b));
      forall k | 0 <= k < |rows|
        ensures |rows[k]| == 1
      {
        SinglesAre(RowsUnder(FIELDS, predicates, ctx, body[0].pred), PatternOf(body[0].terms, b)[0], rows[k]);
      }
      ContextRowsReturn(h, logic, predicates, ctx, rows, body, b);
    }
  }

  lemma {:induction false} ContextRowsReturn(h: Graph, logic: Protocol, predicates: Predicates, ctx: Context,
                                             rows: Rows,
                                             body: seq<Atom>, b: Bindings)
    requires ContextAtoms(logic, body) && body != [] && forall k :: 0 <= k < |rows| ==> |rows[k]| == 1
    ensures SolveRows(rows, body, b, FactsOf(h, logic, predicates, ctx)).Ok?
    decreases |body|, 0, |rows|
  {
    hide FactsOf, Unify;
    if rows != [] {
      ContextRowsReturn(h, logic, predicates, ctx, rows[1..], body, b);
      var bound := Unify(body[0].terms, rows[0], b);
      if bound.Some? {
        ContextSearchReturns(h, logic, predicates, ctx, body[1..], bound.value);
      }
    }
  }

  lemma WithoutRelation(logic: Protocol, predicates: Predicates, n: Names, rule: AuthRule, resource: ContextField)
    requires Keyed(logic, predicates) && rule.subjectRelation.None?
    ensures ContextAtoms(logic, Body(logic, predicates, n, rule, resource))
  {
    hide Basics, Constraints, ContextAtoms;
    BasicsAreContextAtoms(logic, predicates, n, rule, resource);
    ConstraintsAreContextAtoms(logic, predicates, OptionalsOf(rule));
    ContextAtomsJoin(logic, Basics(predicates, n, rule, resource), Constraints(predicates, OptionalsOf(rule)));
    var front := Basics(predicates, n, rule, resource) + Constraints(predicates, OptionalsOf(rule));
    assert front + [] == front;
  }

  lemma BasicsAreContextAtoms(logic: Protocol, predicates: Predicates, n: Names, rule: AuthRule, resource: ContextField)
    requires Keyed(logic, predicates)
    ensures ContextAtoms(logic, Basics(predicates, n, rule, resource))
  {
  }

  lemma {:induction false} ConstraintsAreContextAtoms(logic: Protocol, predicates: Predicates, optional: Optionals)
    requires Keyed(logic, predicates)
    ensures ContextAtoms(logic, Constraints(predicates, optional))
  {
    if optional != [] {
      ConstraintsAreContextAtoms(logic, predicates, optional[..|optional| - 1]);
      assert optional[|optional| - 1].0 in predicates && predicates[optional[|optional| - 1].0] != logic.relationMember;
    }
  }

  lemma ContextAtomsJoin(logic: Protocol, x: seq<Atom>, y: seq<Atom>)
    requires ContextAtoms(logic, x) && ContextAtoms(logic, y)
    ensures ContextAtoms(logic, x + y)
  {
  }

  // ---------- a search that fails ----------

  /** Bindings under which everything before the last atom holds, and the last atom's facts fail. */
  ghost predicate FailsAt(front: seq<Atom>, m: Atom, b: Bindings, c: Bindings, facts: Facts, truth: Truth) {
    Extends(b, c) && AllSatisfied(front, c, truth) && facts(m.pred, PatternOf(m.terms, c)).Err?
  }

  /** Every row that is answered for the atom fits it. */
  ghost predicate Fitting(m: Atom, facts: Facts) {
    forall p: Pattern, row :: |p| == |m.terms| && facts(m.pred, p).Ok? && row in facts(m.pred, p).value ==>
      |row| == |m.terms|
  }

  lemma {:induction false} SolveFails(h: Graph, logic: Protocol, predicates: Predicates, ctx: Context,
                                      front: seq<Atom>, m: Atom, b: Bindings)
    requires ContextAtoms(logic, front)
    requires var facts := FactsOf(h, logic, predicates, ctx);
             Fitting(m, facts) && Solve(front + [m], b, facts).Err?
    ensures exists c ::
              FailsAt(front, m, b, c, FactsOf(h, logic, predicates, ctx), TruthOf(h, logic, predicates, ctx))
    decreases |front|, 1, 0
  {
    hide RowsUnder, Singles, TruthOf, AllSatisfied;
    var facts, truth := FactsOf(h, logic, predicates, ctx), TruthOf(h, logic, predicates, ctx);
    var body := front + [m];
    var p := PatternOf(body[0].terms, b);
    if front == [] {
      LastAtomFails(m, b, facts);
      NothingToSatisfy(b, truth);
      assert FailsAt(front, m, b, b, facts, truth);
    } else {
      assert body[0] == front[0];
      var rows := Provided(predicates, ctx, front[0].pred, p);
      UnaryRows(h, logic, predicates, ctx, front[0], p);
      SolveRowsFails(h, logic, predicates, ctx, rows, front, m, b);
    }
  }

  lemma NothingToSatisfy(b: Bindings, truth: Truth)
    ensures AllSatisfied([], b, truth)
  {
  }

  /** The last atom's search fails only with its facts. */
  lemma LastAtomFails(m: Atom, b: Bindings, facts: Facts)
    requires Fitting(m, facts) && Solve([] + [m], b, facts).Err?
    ensures facts(m.pred, PatternOf(m.terms, b)).Err?
  {
    var body := [] + [m];
    assert body == [m];
    var rows := facts(m.pred, PatternOf(m.terms, b));
    if rows.Ok? {
      assert forall k :: 0 <= k < |rows.value| ==> rows.value[k] in rows.value;
      LastRowsAnswer(rows.value, m, b, facts);
    }
  }

  lemma {:induction false} LastRowsAnswer(rows: Rows, m: Atom, b: Bindings, facts: Facts)
    requires forall k :: 0 <= k < |rows| ==> |rows[k]| == |m.terms|
    ensures SolveRows(rows, [m], b, facts).Ok?
  {
    if rows != [] {
      LastRowsAnswer(rows[1..], m, b, facts);
      assert [m][1..] == [];
    }
  }

  lemma UnaryRows(h: Graph, logic: Protocol, predicates: Predicates, ctx: Context, a: Atom, p: Pattern)
    requires a.pred != logic.relationMember && |a.terms| == 1 == |p|
    ensures var rows := Provided(predicates, ctx, a.pred, p);
            && FactsOf(h, logic, predicates, ctx)(a.pred, p) == Ok(rows)
            && forall k :: 0 <= k < |rows| ==> |rows[k]| == 1 && TruthOf(h, logic, predicates, ctx)(a.pred, rows[k])
  {
    hide RowsUnder, Singles;
    var rows := Provided(predicates, ctx, a.pred, p);
    forall k | 0 <= k < |rows|
      ensures |rows[k]| == 1 && rows[k][0] in RowsUnder(FIELDS, predicates, ctx, a.pred)
    {
      SinglesAre(RowsUnder(FIELDS, predicates, ctx, a.pred), p[0], rows[k]);
    }
  }

  lemma {:induction false} SolveRowsFails(h: Graph, logic: Protocol, predicates: Predicates, ctx: Context, rows: Rows,
                                          front: seq<Atom>, m: Atom, b: Bindings)
    requires ContextAtoms(logic, front) && front != []
    requires var facts, truth := FactsOf(h, logic, predicates, ctx), TruthOf(h, logic, predicates, ctx);
             && Fitting(m, facts) && SolveRows(rows, front + [m], b, facts).Err?
             && forall k :: 0 <= k < |rows| ==> |rows[k]| == 1 && truth(front[0].pred, rows[k])
    ensures exists c ::
              FailsAt(front, m, b, c, FactsOf(h, logic, predicates, ctx), TruthOf(h, logic, predicates, ctx))
    decreases |front|, 0, |rows|
  {
    hide FactsOf, TruthOf, AllSatisfied, Fitting;
    var facts, truth := FactsOf(h, logic, predicates, ctx), TruthOf(h, logic, predicates, ctx);
    var body := front + [m];
    assert body[0] == front[0] && body[1..] == front[1..] + [m];
    var bound := Unify(front[0].terms, rows[0], b);
    if bound.Some? && Solve(front[1..] + [m], bound.value, facts).Err? {
      SolveFails(h, logic, predicates, ctx, front[1..], m, bound.value);
      var c :| FailsAt(front[1..], m, bound.value, c, facts, truth);
      UnifyIsInstance(front[0].terms, rows[0], b);
      InstanceExtends(front[0].terms, bound.value, c, rows[0]);
      assert Satisfied(front[0], c, truth);
      AllFromFirst(front, c, truth);
      assert FailsAt(front, m, b, c, facts, truth);
    } else {
      SolveRowsFails(h, logic, predicates, ctx, rows[1..], front, m, b);
    }
  }

  /** The first rule whose attempt is not a plain failure decides whether the whole search fails. */
  lemma {:induction false} FirstProofFails(rules: seq<Rule>, pred: Id, args: seq<Id>, facts: Facts)
    requires forall k :: 0 <= k < |rules| ==> rules[k].head.pred == pred
    ensures FirstProof(rules, pred, args, facts).Err? <==>
            exists k :: FailsFirst(rules, args, facts, k)
  {
    hide Attempt;
    if rules != [] {
      FirstProofFails(rules[1..], pred, args, facts);
      if FirstProof(rules, pred, args, facts).Err? {
        if Attempt(rules[0], args, facts).Err? {
          assert FailsFirst(rules, args, facts, 0);
        } else {
          var k :| FailsFirst(rules[1..], args, facts, k);
          assert FailsFirst(rules, args, facts, k + 1);
        }
      }
      if k :| FailsFirst(rules, args, facts, k) {
        assert k > 0 ==> FailsFirst(rules[1..], args, facts, k - 1);
      }
    }
  }

  predicate FailsFirst(rules: seq<Rule>, args: seq<Id>, facts: Facts, k: int) {
    && 0 <= k < |rules| && Attempt(rules[k], args, facts).Err?
    && forall j :: 0 <= j < k ==> Attempt(rules[j], args, facts) == Ok(None)
  }

  lemma {:induction false} SomeFailsFirst(rules: seq<Rule>, args: seq<Id>, facts: Facts, k: nat)
    requires k < |rules| && Attempt(rules[k], args, facts).Err?
    requires forall j :: 0 <= j < k && Attempt(rules[j], args, facts).Ok? ==>
               Attempt(rules[j], args, facts).value == None
    ensures exists i :: FailsFirst(rules, args, facts, i)
  {
    hide Attempt;
    if j: nat :| j < k && Attempt(rules[j], args, facts).Err? {
      SomeFailsFirst(rules, args, facts, j);
    } else {
      assert FailsFirst(rules, args, facts, k);
    }
  }

  // ---------- one clause ----------

  /** The search for this effect gets as far as the clause's question for the object's relation. */
  predicate Reaches(rule: AuthRule, ctx: Context, resource: ContextField, effect: Id, subject: Id, action: Id,
                    object_: Id)
  {
    && rule.subjectRelation.Some? && rule.effect == effect && Asks(ctx, subject, action, object_)
    && rule.object_ == (if resource == Object then ctx.object_ else ctx.scope) && Besides(rule, ctx)
  }

  /** Without the membership atom a clause asks for the rest of its rule. */
  lemma FrontMeans(h: Graph, logic: Protocol, predicates: Predicates, ctx: Context, n: Names, rule: AuthRule,
                   resource: ContextField, b: Bindings)
    requires Keyed(logic, predicates) && n.subject in b && n.object_ in b && (resource == Object || resource == Scope)
    ensures AllSatisfied(Basics(predicates, n, rule, resource) + Constraints(predicates, OptionalsOf(rule)), b,
                         TruthOf(h, logic, predicates, ctx)) <==>
            && b[n.subject] == ctx.subject && b[n.object_] == ctx.object_
            && rule.object_ == (if resource == Object then ctx.object_ else ctx.scope) && Besides(rule, ctx)
  {
    hide Satisfied, TruthOf, AllSatisfied, Constraints, Basics;
    AllOfConcat(Basics(predicates, n, rule, resource), Constraints(predicates, OptionalsOf(rule)), b,
                TruthOf(h, logic, predicates, ctx));
    BasicAtoms(h, logic, predicates, ctx, n, rule, resource, b);
    ConstraintAtoms(h, logic, predicates, ctx, OptionalsOf(rule), b);
    OptionalsMeanConditions(ctx, rule);
  }

  /** The rows of a relation fit the membership atom. */
  lemma MembershipFits(h: Graph, logic: Protocol, predicates: Predicates, ctx: Context, n: Names, relation: Id)
    ensures Fitting(Membership(logic, n, Some(relation))[0], FactsOf(h, logic, predicates, ctx))
  {
    hide RelationRows, MemberOf, Provided;
    var m, facts := Membership(logic, n, Some(relation))[0], FactsOf(h, logic, predicates, ctx);
    forall p: Pattern, row | |p| == |m.terms| && facts(m.pred, p).Ok? && row in facts(m.pred, p).value
      ensures |row| == |m.terms|
    {
      if p[0].Some? {
        RelationRowsAre(h, p[0].value, p[1], p[2], row);
      }
    }
  }

  /** The membership atom's facts fail exactly when the object's relation cannot be read. */
  lemma MembershipFails(h: Graph, logic: Protocol, predicates: Predicates, ctx: Context, n: Names, relation: Id,
                        b: Bindings)
    requires n.object_ in b
    ensures var m := Membership(logic, n, Some(relation))[0];
            FactsOf(h, logic, predicates, ctx)(m.pred, PatternOf(m.terms, b)).Err? <==> !Readable(h, b[n.object_])
  {
    hide Readable;
    var m := Membership(logic, n, Some(relation))[0];
    var p := PatternOf(m.terms, b);
    assert |p| == 3 && p[0] == Value(Var(n.object_), b) == Some(b[n.object_]);
    assert FactsOf(h, logic, predicates, ctx)(m.pred, p) == RelationRows(h, p[0].value, p[1], p[2]);
  }

  lemma FailedClauseReaches(h: Graph, logic: Protocol, predicates: Predicates, ctx: Context, n: Names, rule: AuthRule,
                            clause: Rule, resource: ContextField, effect: Id, subject: Id, action: Id, object_: Id)
    requires Keyed(logic, predicates) && (resource == Object || resource == Scope) && n.decision != logic.relationMember
    requires clause.head == Head(n, rule) && clause.body == Body(logic, predicates, n, rule, resource)
    requires Attempt(clause, [effect, subject, action, object_], FactsOf(h, logic, predicates, ctx)).Err?
    ensures Reaches(rule, ctx, resource, effect, subject, action, object_) && !Readable(h, ctx.object_)
  {
    hide FactsOf, TruthOf, Solve, AllSatisfied, Basics, Constraints, Attempt, Head, Besides, Readable, Unify, Fitting;
    var args, facts := [effect, subject, action, object_], FactsOf(h, logic, predicates, ctx);
    var truth := TruthOf(h, logic, predicates, ctx);
    HeadIs(n, rule);
    NoQueryFacts(h, logic, predicates, ctx, clause, args);
    var b := Unify(clause.head.terms, args, map[]).value;
    if rule.subjectRelation.None? {
      WithoutRelation(logic, predicates, n, rule, resource);
      ContextSearchReturns(h, logic, predicates, ctx, clause.body, b);
      assert false;
    } else {
      var m := Membership(logic, n, rule.subjectRelation)[0];
      var front := Basics(predicates, n, rule, resource) + Constraints(predicates, OptionalsOf(rule));
      FrontIsContext(logic, predicates, n, rule, resource);
      MembershipFits(h, logic, predicates, ctx, n, rule.subjectRelation.value);
      assert clause.body == front + [m];
      SolveFails(h, logic, predicates, ctx, front, m, b);
      var c :| FailsAt(front, m, b, c, facts, truth);
      UnifyIsInstance(clause.head.terms, args, map[]);
      InstanceExtends(clause.head.terms, b, c, args);
      HeadMeans(n, rule, c, args);
      FrontMeans(h, logic, predicates, ctx, n, rule, resource, c);
      MembershipFails(h, logic, predicates, ctx, n, rule.subjectRelation.value, c);
      BesidesAction(rule, ctx);
    }
  }

  lemma HeadIs(n: Names, rule: AuthRule)
    ensures |Head(n, rule).terms| == 4 && Head(n, rule).pred == n.decision
    ensures Head(n, rule).terms[0] == Const(rule.effect)
  {
  }

  lemma BesidesAction(rule: AuthRule, ctx: Context)
    requires Besides(rule, ctx)
    ensures rule.action == ctx.action
  {
  }

  lemma FrontIsContext(logic: Protocol, predicates: Predicates, n: Names, rule: AuthRule, resource: ContextField)
    requires Keyed(logic, predicates)
    ensures ContextAtoms(logic, Basics(predicates, n, rule, resource) + Constraints(predicates, OptionalsOf(rule)))
  {
    hide Basics, Constraints, ContextAtoms;
    BasicsAreContextAtoms(logic, predicates, n, rule, resource);
    ConstraintsAreContextAtoms(logic, predicates, OptionalsOf(rule));
    ContextAtomsJoin(logic, Basics(predicates, n, rule, resource), Constraints(predicates, OptionalsOf(rule)));
  }

  /** As the truth, but with every membership of the context's object. */
  ghost function Generous(h: Graph, logic: Protocol, predicates: Predicates, ctx: Context): Truth {
    (pred: Id, row: seq<Id>) =>
      TruthOf(h, logic, predicates, ctx)(pred, row)
      || (pred == logic.relationMember && |row| == 3 && row[0] == ctx.object_)
  }

  lemma NothingToRead(h: Graph, logic: Protocol, predicates: Predicates, ctx: Context, p: Pattern)
    requires !Readable(h, ctx.object_) && |p| == 3 && p[0] == Some(ctx.object_)
    ensures FactsOf(h, logic, predicates, ctx)(logic.relationMember, p).Err?
  {
    hide Readable;
    assert FactsOf(h, logic, predicates, ctx)(logic.relationMember, p) == RelationRows(h, p[0].value, p[1], p[2]);
  }

  /** While the object's relation cannot be read, no answer shows the difference. */
  lemma GenerousIsComplete(h: Graph, logic: Protocol, predicates: Predicates, ctx: Context)
    requires !Readable(h, ctx.object_)
    ensures var facts, truth := FactsOf(h, logic, predicates, ctx), Generous(h, logic, predicates, ctx);
            Truthful(facts, truth) && Complete(facts, truth, logic.relationMember)
  {
    hide Readable, TruthOf, Provided;
    FactsAreTheTruth(h, logic, predicates, ctx);
    var facts, truth := FactsOf(h, logic, predicates, ctx), Generous(h, logic, predicates, ctx);
    forall pred, p, row |
      facts(pred, p).Ok? && Asked(logic.relationMember, pred, p) && truth(pred, row) && Matches(p, row)
      ensures row in facts(pred, p).value
    {
      if pred == logic.relationMember && |p| == 3 && p[0] == Some(ctx.object_) {
        NothingToRead(h, logic, predicates, ctx, p);
      }
    }
  }

  lemma {:induction false} GenerousAll(h: Graph, logic: Protocol, predicates: Predicates, ctx: Context,
                                       body: seq<Atom>, b: Bindings)
    requires AllSatisfied(body, b, TruthOf(h, logic, predicates, ctx))
    ensures AllSatisfied(body, b, Generous(h, logic, predicates, ctx))
  {
    hide TruthOf, Instance;
    forall k | 0 <= k < |body|
      ensures Satisfied(body[k], b, Generous(h, logic, predicates, ctx))
    {
      assert Satisfied(body[k], b, TruthOf(h, logic, predicates, ctx));
      var row :| Instance(body[k].terms, b, row) && TruthOf(h, logic, predicates, ctx)(body[k].pred, row);
      assert Generous(h, logic, predicates, ctx)(body[k].pred, row);
    }
  }

  lemma GenerousMembership(h: Graph, logic: Protocol, predicates: Predicates, ctx: Context, n: Names, relation: Id,
                           b: Bindings)
    requires n.subject in b && n.object_ in b && b[n.object_] == ctx.object_
    ensures AllSatisfied(Membership(logic, n, Some(relation)), b, Generous(h, logic, predicates, ctx))
  {
    hide TruthOf;
    var m := Membership(logic, n, Some(relation))[0];
    var row := [b[n.object_], relation, b[n.subject]];
    assert Instance(m.terms, b, row) && Generous(h, logic, predicates, ctx)(m.pred, row);
    assert Satisfied(m, b, Generous(h, logic, predicates, ctx));
  }

  lemma ReachedIsProvable(h: Graph, logic: Protocol, predicates: Predicates, ctx: Context, n: Names, rule: AuthRule,
                          clause: Rule, resource: ContextField, effect: Id, subject: Id, action: Id, object_: Id)
    requires Keyed(logic, predicates) && (resource == Object || resource == Scope) && n.subject != n.object_
    requires clause.head == Head(n, rule) && clause.body == Body(logic, predicates, n, rule, resource)
    requires Reaches(rule, ctx, resource, effect, subject, action, object_)
    ensures Provable(clause, [effect, subject, action, object_], Generous(h, logic, predicates, ctx))
  {
    hide TruthOf, Generous, AllSatisfied, Basics, Constraints, Membership, Head, Besides, Instance;
    var args, sigma := [effect, subject, action, object_], map[n.subject := subject, n.object_ := object_];
    BesidesAction(rule, ctx);
    HeadMeans(n, rule, sigma, args);
    FrontMeans(h, logic, predicates, ctx, n, rule, resource, sigma);
    var front := Basics(predicates, n, rule, resource) + Constraints(predicates, OptionalsOf(rule));
    GenerousAll(h, logic, predicates, ctx, front, sigma);
    GenerousMembership(h, logic, predicates, ctx, n, rule.subjectRelation.value, sigma);
    AllOfConcat(front, Membership(logic, n, rule.subjectRelation), sigma, Generous(h, logic, predicates, ctx));
    assert rule.subjectRelation == Some(rule.subjectRelation.value);
    assert Proves(clause, args, Generous(h, logic, predicates, ctx), sigma);
  }

  lemma ConditionsRead(h: Graph, rule: AuthRule, ctx: Context)
    requires Conditions(h, rule, ctx) && rule.subjectRelation.Some?
    ensures Readable(h, ctx.object_)
  {
    hide ReadRelation, Besides;
  }

  lemma ReachedClauseFails(h: Graph, logic: Protocol, predicates: Predicates, ctx: Context, n: Names, rule: AuthRule,
                           clause: Rule, resource: ContextField, effect: Id, subject: Id, action: Id, object_: Id)
    requires Keyed(logic, predicates) && (resource == Object || resource == Scope) && n.subject != n.object_
    requires clause.head == Head(n, rule) && clause.body == Body(logic, predicates, n, rule, resource)
    requires Moded(clause, logic.relationMember)
    requires Reaches(rule, ctx, resource, effect, subject, action, object_) && !Readable(h, ctx.object_)
    ensures Attempt(clause, [effect, subject, action, object_], FactsOf(h, logic, predicates, ctx)).Err?
  {
    hide FactsOf, TruthOf, Generous, Truthful, Complete, Provable, Proves, Attempt, Head, Body, Besides, Readable,
      Conditions, Moded;
    var args, facts := [effect, subject, action, object_], FactsOf(h, logic, predicates, ctx);
    if Attempt(clause, args, facts).Ok? {
      GenerousIsComplete(h, logic, predicates, ctx);
      ReachedIsProvable(h, logic, predicates, ctx, n, rule, clause, resource, effect, subject, action, object_);
      AttemptDecides(clause, args, facts, Generous(h, logic, predicates, ctx), logic.relationMember);
      FactsAreTheTruth(h, logic, predicates, ctx);
      AttemptDecides(clause, args, facts, TruthOf(h, logic, predicates, ctx), logic.relationMember);
      ClauseMeansRule(h, logic, predicates, ctx, n, rule, clause, resource, effect, subject, action, object_);
      ConditionsRead(h, rule, ctx);
    }
  }

  // ---------- the whole query ----------

  /** Clause k is the first to matter: it gets to the object's relation, and no earlier one is proved. */
  ghost predicate ReachedFirst(h: Graph, rules: seq<AuthRule>, ctx: Context, effect: Id, subject: Id, action: Id,
                               object_: Id, k: int)
  {
    && 0 <= k < 2 * |rules| && Reaches(rules[k / 2], ctx, Resource(k), effect, subject, action, object_)
    && forall j :: 0 <= j < k ==> !ClauseBacks(h, rules[j / 2], ctx, Resource(j), effect, subject, action, object_)
  }

  lemma ClauseOutcome(h: Graph, plan: Plan, predicates: Predicates, rules: seq<AuthRule>, n: Names, horn: seq<Rule>,
                      ctx: Context, effect: Id, subject: Id, action: Id, object_: Id, k: nat)
    requires Compiles(plan, predicates, rules, n, horn) && k < |horn|
    ensures var r := Attempt(horn[k], [effect, subject, action, object_], FactsOf(h, plan.logic, predicates, ctx));
            && (r.Err? <==>
                Reaches(rules[k / 2], ctx, Resource(k), effect, subject, action, object_)
                && !Readable(h, ctx.object_))
            && (r.Ok? ==>
                (r.value.Some? <==>
                 ClauseBacks(h, rules[k / 2], ctx, Resource(k), effect, subject, action, object_)))
  {
    hide FactsOf, TruthOf, Truthful, Complete, Provable, Proves, Attempt, Head, Body, Readable, ClauseBacks, Reaches,
      SpellsProgram, Moded;
    var args, facts := [effect, subject, action, object_], FactsOf(h, plan.logic, predicates, ctx);
    var rule := rules[k / 2];
    ProgramIsFlat(plan, predicates, rules, n, horn);
    if Attempt(horn[k], args, facts).Err? {
      FailedClauseReaches(h, plan.logic, predicates, ctx, n, rule, horn[k], Resource(k), effect, subject, action,
                          object_);
    } else {
      FactsAreTheTruth(h, plan.logic, predicates, ctx);
      AttemptDecides(horn[k], args, facts, TruthOf(h, plan.logic, predicates, ctx), plan.logic.relationMember);
      ClauseProvable(h, plan, predicates, rules, n, horn, ctx, effect, subject, action, object_, k);
      if Reaches(rule, ctx, Resource(k), effect, subject, action, object_) && !Readable(h, ctx.object_) {
        ReachedClauseFails(h, plan.logic, predicates, ctx, n, rule, horn[k], Resource(k), effect, subject, action,
                           object_);
      }
    }
  }

  lemma FailureReaches(h: Graph, plan: Plan, predicates: Predicates, rules: seq<AuthRule>, n: Names, horn: seq<Rule>,
                       ctx: Context, effect: Id, subject: Id, action: Id, object_: Id, k: int)
    requires Compiles(plan, predicates, rules, n, horn)
    requires FailsFirst(horn, [effect, subject, action, object_], FactsOf(h, plan.logic, predicates, ctx), k)
    ensures !Readable(h, ctx.object_) && ReachedFirst(h, rules, ctx, effect, subject, action, object_, k)
  {
    hide FactsOf, Attempt, Readable, ClauseBacks, Reaches, Compiles;
    PlanParts(plan, predicates, rules, n, horn);
    ClauseOutcome(h, plan, predicates, rules, n, horn, ctx, effect, subject, action, object_, k);
    forall j | 0 <= j < k
      ensures !ClauseBacks(h, rules[j / 2], ctx, Resource(j), effect, subject, action, object_)
    {
      ClauseOutcome(h, plan, predicates, rules, n, horn, ctx, effect, subject, action, object_, j);
    }
  }

  lemma ReachedFails(h: Graph, plan: Plan, predicates: Predicates, rules: seq<AuthRule>, n: Names, horn: seq<Rule>,
                     ctx: Context, effect: Id, subject: Id, action: Id, object_: Id, k: int)
    requires Compiles(plan, predicates, rules, n, horn)
    requires !Readable(h, ctx.object_) && ReachedFirst(h, rules, ctx, effect, subject, action, object_, k)
    ensures exists i ::
              FailsFirst(horn, [effect, subject, action, object_], FactsOf(h, plan.logic, predicates, ctx), i)
  {
    hide FactsOf, Attempt, Readable, ClauseBacks, Reaches, Compiles, FailsFirst;
    var args, facts := [effect, subject, action, object_], FactsOf(h, plan.logic, predicates, ctx);
    PlanParts(plan, predicates, rules, n, horn);
    ClauseOutcome(h, plan, predicates, rules, n, horn, ctx, effect, subject, action, object_, k);
    forall j | 0 <= j < k && Attempt(horn[j], args, facts).Ok?
      ensures Attempt(horn[j], args, facts).value == None
    {
      ClauseOutcome(h, plan, predicates, rules, n, horn, ctx, effect, subject, action, object_, j);
    }
    SomeFailsFirst(horn, args, facts, k);
  }

  /** A query meets an unreadable relation exactly when the object's relation cannot be read and some
      clause asks for it before any clause is proved. */
  lemma RefusesExactly(h: Graph, plan: Plan, predicates: Predicates, rules: seq<AuthRule>, n: Names, horn: seq<Rule>,
                       ctx: Context, effect: Id, subject: Id, action: Id, object_: Id)
    requires Compiles(plan, predicates, rules, n, horn) && ProgramIn(h, plan) == Ok(horn)
    ensures Query(h, plan, predicates, ctx, effect, subject, action, object_) == Err(InvalidCell) <==>
            && !Readable(h, ctx.object_)
            && exists k :: ReachedFirst(h, rules, ctx, effect, subject, action, object_, k)
  {
    hide FactsOf, Readable, ReachedFirst, Compiles, FirstProof, ProgramIn, FailsFirst, Unlimited;
    var args, facts := [effect, subject, action, object_], FactsOf(h, plan.logic, predicates, ctx);
    ProgramIsFlat(plan, predicates, rules, n, horn);
    FirstProofFails(horn, plan.decision, args, facts);
    FactsUnlimited(h, plan.logic, predicates, ctx);
    NeverExhausted(horn, plan.decision, args, facts);
    if FirstProof(horn, plan.decision, args, facts).Err? {
      OnlyInvalid(FirstProof(horn, plan.decision, args, facts));
      var k :| FailsFirst(horn, args, facts, k);
      FailureReaches(h, plan, predicates, rules, n, horn, ctx, effect, subject, action, object_, k);
    }
    if k :| !Readable(h, ctx.object_) && ReachedFirst(h, rules, ctx, effect, subject, action, object_, k) {
      ReachedFails(h, plan, predicates, rules, n, horn, ctx, effect, subject, action, object_, k);
      OnlyInvalid(FirstProof(horn, plan.decision, args, facts));
    }
  }

  lemma OnlyInvalid(found: Result<Option<Proof>, Fault>)
    requires found.Err? && found != Err(Exhausted)
    ensures found == Err(InvalidCell)
  {
    var fault := found.error;
    assert fault.InvalidCell? || fault.Exhausted?;
  }
}
