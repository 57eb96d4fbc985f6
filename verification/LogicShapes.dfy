/** Which relations are terms, clauses, rules and programs: a reading succeeds on exactly the pairs that spell
    what it returns, in any order but that of arguments, body clauses and rules. */
module LogicShapes {
  import opened Wrappers
  import opened CellGraph
  import opened HornLogic
  import Source = PolicySource
  import opened PolicyRules

  /** Three fields and nothing else. */
  function Three(a: Field, b: Field, c: Field): seq<Pair> {
    Filled([a, b, c])
  }

  lemma ThreeExactly(members: seq<Member>, a: Field, b: Field, c: Field)
    requires a.0 != b.0 && a.0 != c.0 && b.0 != c.0
    ensures multiset(Source.Pairs(members)) == multiset(Three(a, b, c)) <==>
            ClosedRoles(members, {a.0, b.0, c.0}) && Has(members, a.0, a.1) && Has(members, b.0, b.1)
            && Has(members, c.0, c.1)
  {
    hide Filled, Has, Fills, ClosedRoles;
    var fields := [a, b, c];
    FillsExactly(members, fields);
    ThreeRoles(a, b, c);
    SameRoles(members, fields, {a.0, b.0, c.0});
    assert fields[0] == a && fields[1] == b && fields[2] == c;
  }

  lemma ThreeRoles(a: Field, b: Field, c: Field)
    ensures forall role :: role in {a.0, b.0, c.0} <==> HasRole([a, b, c], role)
  {
    var fields := [a, b, c];
    assert fields[0] == a && fields[1] == b && fields[2] == c;
  }

  // ---------- terms ----------

  function TermFields(p: Protocol, t: Term): (Field, Field, Field) {
    ((p.conformsTo, [p.termShape]), (p.variable, if t.Var? then [t.value] else []),
     (p.constant, if t.Const? then [t.value] else []))
  }

  /** A relation is a term exactly when it has the term's shape and one value, variable or constant. */
  lemma TermExactly(members: seq<Member>, p: Protocol, t: Term)
    requires p.Distinct()
    ensures TermOf(members, p) == Ok(t) <==>
            var (shape, variable, constant) := TermFields(p, t);
            multiset(Source.Pairs(members)) == multiset(Three(shape, variable, constant))
  {
    hide ForRole, ClosedRoles, Three;
    var (shape, variable, constant) := TermFields(p, t);
    ThreeExactly(members, shape, variable, constant);
    OneField(members, p.conformsTo, p.termShape);
    ValuesAre(members, p.variable, variable.1);
    ValuesAre(members, p.constant, constant.1);
  }

  lemma ValuesAre(members: seq<Member>, role: Id, values: seq<Id>)
    requires |values| <= 1
    ensures Has(members, role, values) <==> ForRole(members, role) == values
  {
    hide ForRole;
    if Has(members, role, values) {
      ShortIsItself(ForRole(members, role), values);
    }
  }

  // ---------- clauses ----------

  predicate TermsAt(g: Graph, p: Protocol, roots: seq<Id>, budget: nat, terms: seq<Term>) {
    |terms| == |roots| && forall k :: 0 <= k < |roots| ==> ReadTerm(g, p, roots[k], budget) == Ok(terms[k])
  }

  lemma {:induction false} TermsExactly(g: Graph, p: Protocol, roots: seq<Id>, budget: nat, terms: seq<Term>)
    ensures ReadTerms(g, p, roots, budget) == Ok(terms) <==> TermsAt(g, p, roots, budget, terms)
  {
    hide ReadTerm;
    if roots != [] && terms != [] {
      TermsExactly(g, p, roots[1..], budget, terms[1..]);
      assert terms == [terms[0]] + terms[1..];
      ConsTerms(g, p, roots, budget, terms);
    }
  }

  lemma ConsTerms(g: Graph, p: Protocol, roots: seq<Id>, budget: nat, terms: seq<Term>)
    requires roots != [] && terms != []
    ensures TermsAt(g, p, roots, budget, terms) <==>
            ReadTerm(g, p, roots[0], budget) == Ok(terms[0]) && TermsAt(g, p, roots[1..], budget, terms[1..])
  {
    hide ReadTerm;
    assert forall k :: 0 < k < |roots| ==> roots[k] == roots[1..][k - 1];
    assert forall k :: 0 < k < |terms| ==> terms[k] == terms[1..][k - 1];
  }

  /** The relation's participants under the role, in order, and nothing but these three fields. */
  ghost predicate Spelled(g: Graph, root: Id, budget: nat, a: Field, b: Field, c: Field) {
    var read := ReadRelation(g, root, budget);
    read.Ok? && multiset(Source.Pairs(read.value)) == multiset(Three(a, b, c))
    && Under(Source.Pairs(read.value), c.0) == c.1
  }

  lemma SpelledExactly(g: Graph, root: Id, budget: nat, a: Field, b: Field, c: Field)
    requires a.0 != b.0 && a.0 != c.0 && b.0 != c.0 && |a.1| == |b.1| == 1
    ensures var read := ReadRelation(g, root, budget);
            Spelled(g, root, budget, a, b, c) <==>
            && read.Ok? && ClosedRoles(read.value, {a.0, b.0, c.0}) && Single(read.value, a.0) == Ok(a.1[0])
            && Single(read.value, b.0) == Ok(b.1[0]) && ForRole(read.value, c.0) == c.1
  {
    hide ReadRelation, ForRole, ClosedRoles, Three, Under, Single;
    var read := ReadRelation(g, root, budget);
    if read.Ok? {
      ThreeExactly(read.value, a, b, c);
      OneField(read.value, a.0, a.1[0]);
      OneField(read.value, b.0, b.1[0]);
      ForRoleIsUnder(read.value, c.0);
      assert a.1 == [a.1[0]] && b.1 == [b.1[0]];
    }
  }

  /** A clause reads exactly from its shape, its predicate and roots that read, in order, as its terms. */
  lemma ClauseExactly(g: Graph, p: Protocol, root: Id, budget: nat, atom: Atom)
    requires p.Distinct()
    ensures ReadClause(g, p, root, budget) == Ok(atom) <==>
            exists roots: seq<Id> ::
              && Spelled(g, root, budget, (p.conformsTo, [p.clauseShape]), (p.pred, [atom.pred]), (p.argument, roots))
              && TermsAt(g, p, roots, budget, atom.terms)
  {
    hide ReadRelation, ForRole, ClosedRoles, ReadTerms, Spelled, TermsAt;
    var read := ReadRelation(g, root, budget);
    forall roots: seq<Id>
      ensures Spelled(g, root, budget, (p.conformsTo, [p.clauseShape]), (p.pred, [atom.pred]), (p.argument, roots)) <==>
              && read.Ok? && HasShape(read.value, p, p.clauseShape)
              && ClosedRoles(read.value, {p.conformsTo, p.pred, p.argument})
              && Single(read.value, p.pred) == Ok(atom.pred) && ForRole(read.value, p.argument) == roots
      ensures ReadTerms(g, p, roots, budget) == Ok(atom.terms) <==> TermsAt(g, p, roots, budget, atom.terms)
    {
      SpelledExactly(g, root, budget, (p.conformsTo, [p.clauseShape]), (p.pred, [atom.pred]), (p.argument, roots));
      TermsExactly(g, p, roots, budget, atom.terms);
    }
  }

  // ---------- rules and programs ----------

  predicate ClausesAt(g: Graph, p: Protocol, roots: seq<Id>, budget: nat, atoms: seq<Atom>) {
    |atoms| == |roots| && forall k :: 0 <= k < |roots| ==> ReadClause(g, p, roots[k], budget) == Ok(atoms[k])
  }

  lemma {:induction false} ClausesExactly(g: Graph, p: Protocol, roots: seq<Id>, budget: nat, atoms: seq<Atom>)
    ensures ReadClauses(g, p, roots, budget) == Ok(atoms) <==> ClausesAt(g, p, roots, budget, atoms)
  {
    hide ReadClause;
    if roots != [] && atoms != [] {
      ClausesExactly(g, p, roots[1..], budget, atoms[1..]);
      assert atoms == [atoms[0]] + atoms[1..];
      ConsClauses(g, p, roots, budget, atoms);
    }
  }

  lemma ConsClauses(g: Graph, p: Protocol, roots: seq<Id>, budget: nat, atoms: seq<Atom>)
    requires roots != [] && atoms != []
    ensures ClausesAt(g, p, roots, budget, atoms) <==>
            ReadClause(g, p, roots[0], budget) == Ok(atoms[0]) && ClausesAt(g, p, roots[1..], budget, atoms[1..])
  {
    hide ReadClause;
    assert forall k :: 0 < k < |roots| ==> roots[k] == roots[1..][k - 1];
    assert forall k :: 0 < k < |atoms| ==> atoms[k] == atoms[1..][k - 1];
  }

  /** The rule's relation: its shape, the root of its head and the roots of its body. */
  ghost predicate SpelledRule(g: Graph, p: Protocol, root: Id, budget: nat, head: Id, body: seq<Id>) {
    Spelled(g, root, budget, (p.conformsTo, [p.ruleShape]), (p.head, [head]), (p.body, body))
  }

  /** A rule reads exactly from its shape, a root that reads as its head, and roots that read, in order, as
      its body. */
  lemma RuleExactly(g: Graph, p: Protocol, root: Id, budget: nat, rule: Rule)
    requires p.Distinct()
    ensures ReadRule(g, p, root, budget) == Ok(rule) <==>
            rule.root == root && exists head: Id, body: seq<Id> ::
              && SpelledRule(g, p, root, budget, head, body)
              && ReadClause(g, p, head, budget) == Ok(rule.head) && ClausesAt(g, p, body, budget, rule.body)
  {
    hide ReadRelation, ForRole, ClosedRoles, ReadClause, ReadClauses, SpelledRule, ClausesAt;
    var read := ReadRelation(g, root, budget);
    forall head: Id, body: seq<Id>
      ensures SpelledRule(g, p, root, budget, head, body) <==>
              && read.Ok? && HasShape(read.value, p, p.ruleShape)
              && ClosedRoles(read.value, {p.conformsTo, p.head, p.body})
              && Single(read.value, p.head) == Ok(head) && ForRole(read.value, p.body) == body
      ensures ReadClauses(g, p, body, budget) == Ok(rule.body) <==> ClausesAt(g, p, body, budget, rule.body)
    {
      RuleSpelled(g, p, root, budget, head, body);
      ClausesExactly(g, p, body, budget, rule.body);
    }
  }

  lemma RuleSpelled(g: Graph, p: Protocol, root: Id, budget: nat, head: Id, body: seq<Id>)
    requires p.Distinct()
    ensures var read := ReadRelation(g, root, budget);
            SpelledRule(g, p, root, budget, head, body) <==>
            && read.Ok? && HasShape(read.value, p, p.ruleShape)
            && ClosedRoles(read.value, {p.conformsTo, p.head, p.body})
            && Single(read.value, p.head) == Ok(head) && ForRole(read.value, p.body) == body
  {
    hide ReadRelation, ForRole, ClosedRoles, Single, Spelled;
    SpelledExactly(g, root, budget, (p.conformsTo, [p.ruleShape]), (p.head, [head]), (p.body, body));
  }

  predicate RulesAt(g: Graph, p: Protocol, roots: seq<Id>, budget: nat, rules: seq<Rule>) {
    |rules| == |roots| && forall k :: 0 <= k < |roots| ==> ReadRule(g, p, roots[k], budget) == Ok(rules[k])
  }

  lemma {:induction false} RulesExactly(g: Graph, p: Protocol, roots: seq<Id>, budget: nat, rules: seq<Rule>)
    ensures ReadRules(g, p, roots, budget) == Ok(rules) <==> RulesAt(g, p, roots, budget, rules)
  {
    hide ReadRule;
    if roots != [] && rules != [] {
      RulesExactly(g, p, roots[1..], budget, rules[1..]);
      assert rules == [rules[0]] + rules[1..];
      ConsRules(g, p, roots, budget, rules);
    }
  }

  lemma ConsRules(g: Graph, p: Protocol, roots: seq<Id>, budget: nat, rules: seq<Rule>)
    requires roots != [] && rules != []
    ensures RulesAt(g, p, roots, budget, rules) <==>
            ReadRule(g, p, roots[0], budget) == Ok(rules[0]) && RulesAt(g, p, roots[1..], budget, rules[1..])
  {
    hide ReadRule;
    assert forall k :: 0 < k < |roots| ==> roots[k] == roots[1..][k - 1];
    assert forall k :: 0 < k < |rules| ==> rules[k] == rules[1..][k - 1];
  }

  /** A program reads exactly from one or more rules, no root twice, each reading as the rule in its place. */
  lemma ProgramExactly(g: Graph, p: Protocol, root: Id, budget: nat, rules: seq<Rule>)
    ensures ReadProgram(g, p, root, budget) == Ok(rules) <==>
            && ReadRelation(g, root, budget).Ok?
            && var roots := Under(Source.Pairs(ReadRelation(g, root, budget).value), p.rule);
               && |roots| >= 1 && (forall i, j :: 0 <= i < j < |roots| ==> roots[i] != roots[j])
               && RulesAt(g, p, roots, budget, rules)
  {
    hide ReadRelation, ForRole, Under, ReadRules, RulesAt;
    var read := ReadRelation(g, root, budget);
    if read.Ok? {
      ForRoleIsUnder(read.value, p.rule);
      RulesExactly(g, p, ForRole(read.value, p.rule), budget, rules);
    }
  }
}
