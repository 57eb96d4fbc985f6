/** Relational logic held in the graph: terms, clauses and rules as relations, and the left-to-right
    evaluator for programs whose bodies name primitive facts only. */
module HornLogic {
  import opened Wrappers
  import opened CellGraph

  datatype Term = Var(value: Id) | Const(value: Id)

  datatype Atom = Atom(pred: Id, terms: seq<Term>)

  datatype Rule = Rule(root: Id, head: Atom, body: seq<Atom>)

  datatype Protocol = Protocol(
    conformsTo: Id, rule: Id, head: Id, body: Id, pred: Id, argument: Id, variable: Id, constant: Id,
    termShape: Id, clauseShape: Id, ruleShape: Id, relationMember: Id)
  {
    /** The roles of a released protocol are told apart wherever they meet. */
    predicate Distinct() {
      && conformsTo != variable && conformsTo != constant && variable != constant
      && conformsTo != pred && conformsTo != argument && pred != argument
      && conformsTo != head && conformsTo != body && head != body
    }
  }

  // ---------- reading a program from the graph ----------

  function ForRole(members: seq<Member>, role: Id): seq<Id> {
    if members == [] then []
    else (if members[0].role == role then [members[0].participant] else []) + ForRole(members[1..], role)
  }

  function Single(members: seq<Member>, role: Id): Result<Id, Fault> {
    var values := ForRole(members, role);
    if |values| == 1 then Ok(values[0]) else Err(InvalidCell)
  }

  predicate ClosedRoles(members: seq<Member>, admitted: set<Id>) {
    forall k :: 0 <= k < |members| ==> members[k].role in admitted
  }

  predicate HasShape(members: seq<Member>, p: Protocol, shape: Id) {
    Single(members, p.conformsTo) == Ok(shape)
  }

  function TermOf(members: seq<Member>, p: Protocol): Result<Term, Fault> {
    if !HasShape(members, p, p.termShape) || !ClosedRoles(members, {p.conformsTo, p.variable, p.constant})
    then Err(InvalidCell)
    else
      var variables, constants := ForRole(members, p.variable), ForRole(members, p.constant);
      if |variables| + |constants| != 1 then Err(InvalidCell)
      else if |variables| == 1 then Ok(Var(variables[0])) else Ok(Const(constants[0]))
  }

  function ReadTerm(g: Graph, p: Protocol, root: Id, budget: nat): Result<Term, Fault> {
    var members :- ReadRelation(g, root, budget);
    TermOf(members, p)
  }

  function ReadTerms(g: Graph, p: Protocol, roots: seq<Id>, budget: nat): Result<seq<Term>, Fault> {
    if roots == [] then Ok([])
    else
      var first :- ReadTerm(g, p, roots[0], budget);
      var rest :- ReadTerms(g, p, roots[1..], budget);
      Ok([first] + rest)
  }

  function ReadClause(g: Graph, p: Protocol, root: Id, budget: nat): Result<Atom, Fault> {
    var members :- ReadRelation(g, root, budget);
    if !HasShape(members, p, p.clauseShape) || !ClosedRoles(members, {p.conformsTo, p.pred, p.argument})
    then Err(InvalidCell)
    else
      var pred :- Single(members, p.pred);
      var terms :- ReadTerms(g, p, ForRole(members, p.argument), budget);
      Ok(Atom(pred, terms))
  }

  function ReadClauses(g: Graph, p: Protocol, roots: seq<Id>, budget: nat): Result<seq<Atom>, Fault> {
    if roots == [] then Ok([])
    else
      var first :- ReadClause(g, p, roots[0], budget);
      var rest :- ReadClauses(g, p, roots[1..], budget);
      Ok([first] + rest)
  }

  function ReadRule(g: Graph, p: Protocol, root: Id, budget: nat): Result<Rule, Fault> {
    var members :- ReadRelation(g, root, budget);
    if !HasShape(members, p, p.ruleShape) || !ClosedRoles(members, {p.conformsTo, p.head, p.body}) then Err(InvalidCell)
    else
      var headRoot :- Single(members, p.head);
      var head :- ReadClause(g, p, headRoot, budget);
      var body :- ReadClauses(g, p, ForRole(members, p.body), budget);
      Ok(Rule(root, head, body))
  }

  function ReadRules(g: Graph, p: Protocol, roots: seq<Id>, budget: nat): Result<seq<Rule>, Fault> {
    if roots == [] then Ok([])
    else
      var first :- ReadRule(g, p, roots[0], budget);
      var rest :- ReadRules(g, p, roots[1..], budget);
      Ok([first] + rest)
  }

  predicate NoRepeat(roots: seq<Id>) {
    forall i, j :: 0 <= i < j < |roots| ==> roots[i] != roots[j]
  }

  function ReadProgram(g: Graph, p: Protocol, root: Id, budget: nat): Result<seq<Rule>, Fault> {
    var members :- ReadRelation(g, root, budget);
    var roots := ForRole(members, p.rule);
    if roots == [] || !NoRepeat(roots) then Err(InvalidCell) else ReadRules(g, p, roots, budget)
  }

  // ---------- what a budget can do to a reading ----------

  /** The smaller budget only ever cuts a reading short, or with `ample` not even that. */
  predicate CutShort<T(==)>(small: Result<T, Fault>, large: Result<T, Fault>, ample: bool) {
    (small == Err(Exhausted) && !ample) || (small == large && (ample ==> small != Err(Exhausted)))
  }

  ghost predicate Cuts(g: Graph, a: nat, b: nat, ample: bool) {
    forall root :: CutShort(ReadRelation(g, root, a), ReadRelation(g, root, b), ample)
  }

  lemma RootCut(g: Graph, root: Id, a: nat, b: nat, ample: bool)
    requires Cuts(g, a, b, ample)
    ensures CutShort(ReadRelation(g, root, a), ReadRelation(g, root, b), ample)
  {
    hide ReadRelation;
  }

  lemma {:induction false} TermsCut(g: Graph, p: Protocol, roots: seq<Id>, a: nat, b: nat, ample: bool)
    requires Cuts(g, a, b, ample)
    ensures CutShort(ReadTerms(g, p, roots, a), ReadTerms(g, p, roots, b), ample)
  {
    hide ReadRelation, Cuts, TermOf;
    if roots != [] {
      RootCut(g, roots[0], a, b, ample);
      TermsCut(g, p, roots[1..], a, b, ample);
      var read := ReadRelation(g, roots[0], a);
      if read.Ok? { TermFault(read.value, p); }
    }
  }

  lemma TermFault(members: seq<Member>, p: Protocol)
    ensures TermOf(members, p) != Err(Exhausted)
  {
  }

  lemma ClauseCut(g: Graph, p: Protocol, root: Id, a: nat, b: nat, ample: bool)
    requires Cuts(g, a, b, ample)
    ensures CutShort(ReadClause(g, p, root, a), ReadClause(g, p, root, b), ample)
  {
    hide ReadRelation, ReadTerms, Cuts, ForRole;
    RootCut(g, root, a, b, ample);
    if ReadRelation(g, root, a).Ok? {
      TermsCut(g, p, ForRole(ReadRelation(g, root, a).value, p.argument), a, b, ample);
    }
  }

  lemma {:induction false} ClausesCut(g: Graph, p: Protocol, roots: seq<Id>, a: nat, b: nat, ample: bool)
    requires Cuts(g, a, b, ample)
    ensures CutShort(ReadClauses(g, p, roots, a), ReadClauses(g, p, roots, b), ample)
  {
    hide ReadClause, Cuts;
    if roots != [] {
      ClauseCut(g, p, roots[0], a, b, ample);
      ClausesCut(g, p, roots[1..], a, b, ample);
    }
  }

  lemma RuleCut(g: Graph, p: Protocol, root: Id, a: nat, b: nat, ample: bool)
    requires Cuts(g, a, b, ample)
    ensures CutShort(ReadRule(g, p, root, a), ReadRule(g, p, root, b), ample)
  {
    hide ReadRelation, ReadClause, ReadClauses, Cuts, ForRole;
    RootCut(g, root, a, b, ample);
    var read := ReadRelation(g, root, a);
    if read.Ok? {
      var head := Single(read.value, p.head);
      if head.Ok? {
        ClauseCut(g, p, head.value, a, b, ample);
      }
      ClausesCut(g, p, ForRole(read.value, p.body), a, b, ample);
    }
  }

  lemma {:induction false} RulesCut(g: Graph, p: Protocol, roots: seq<Id>, a: nat, b: nat, ample: bool)
    requires Cuts(g, a, b, ample)
    ensures CutShort(ReadRules(g, p, roots, a), ReadRules(g, p, roots, b), ample)
  {
    hide ReadRule, Cuts;
    if roots != [] {
      RuleCut(g, p, roots[0], a, b, ample);
      RulesCut(g, p, roots[1..], a, b, ample);
    }
  }

  /** A larger budget never changes what a program reads as, only whether it can be read; and a budget
      above the number of cells never matters. */
  lemma ProgramCut(g: Graph, p: Protocol, root: Id, a: nat, b: nat)
    requires |g| < b
    ensures CutShort(ReadProgram(g, p, root, a), ReadProgram(g, p, root, b), |g| < a)
  {
    hide ReadRelation, ReadRules, ForRole;
    forall root
      ensures CutShort(ReadRelation(g, root, a), ReadRelation(g, root, b), |g| < a)
    {
      ReadEnough(g, root, b, b);
      if |g| < a {
        ReadEnough(g, root, a, b);
      } else if ReadRelation(g, root, a) != Err(Exhausted) {
        BudgetsAgree(g, root, a, b);
      }
    }
    if ReadRelation(g, root, a).Ok? {
      RulesCut(g, p, ForRole(ReadRelation(g, root, a).value, p.rule), a, b, |g| < a);
    }
  }

  // ---------- programs written into cells ----------

  predicate Within(cells: seq<Cell>, all: seq<Cell>) {
    forall k :: 0 <= k < |cells| ==> cells[k] in all
  }

  function TermPairs(p: Protocol, t: Term): seq<Pair> {
    [(p.conformsTo, p.termShape), (if t.Var? then p.variable else p.constant, t.value)]
  }

  function Tagged(role: Id, roots: seq<Id>): (r: seq<Pair>)
    ensures |r| == |roots|
    ensures forall k :: 0 <= k < |r| ==> r[k] == (role, roots[k])
  {
    if roots == [] then [] else [(role, roots[0])] + Tagged(role, roots[1..])
  }

  function ClausePairs(p: Protocol, pred: Id, terms: seq<Id>): seq<Pair> {
    [(p.conformsTo, p.clauseShape), (p.pred, pred)] + Tagged(p.argument, terms)
  }

  function RulePairs(p: Protocol, head: Id, body: seq<Id>): seq<Pair> {
    [(p.conformsTo, p.ruleShape), (p.head, head)] + Tagged(p.body, body)
  }

  /** These cells spell out the term under this root. */
  predicate SpellsTerm(all: seq<Cell>, p: Protocol, root: Id, t: Term) {
    root != Null && Within(Composed(root, TermPairs(p, t)), all)
  }

  predicate SpellsTerms(all: seq<Cell>, p: Protocol, roots: seq<Id>, terms: seq<Term>) {
    |roots| == |terms| && forall k :: 0 <= k < |roots| ==> SpellsTerm(all, p, roots[k], terms[k])
  }

  ghost predicate SpellsClause(all: seq<Cell>, p: Protocol, root: Id, a: Atom) {
    root != Null && exists terms: seq<Id> ::
      SpellsTerms(all, p, terms, a.terms) && Within(Composed(root, ClausePairs(p, a.pred, terms)), all)
  }

  ghost predicate SpellsClauses(all: seq<Cell>, p: Protocol, roots: seq<Id>, atoms: seq<Atom>) {
    |roots| == |atoms| && forall k :: 0 <= k < |roots| ==> SpellsClause(all, p, roots[k], atoms[k])
  }

  ghost predicate SpellsRule(all: seq<Cell>, p: Protocol, rule: Rule) {
    rule.root != Null && exists head: Id, body: seq<Id> ::
      && SpellsClause(all, p, head, rule.head) && SpellsClauses(all, p, body, rule.body)
      && Within(Composed(rule.root, RulePairs(p, head, body)), all)
  }

  ghost predicate SpellsRules(all: seq<Cell>, p: Protocol, rules: seq<Rule>) {
    forall k :: 0 <= k < |rules| ==> SpellsRule(all, p, rules[k])
  }

  function Roots(rules: seq<Rule>): (r: seq<Id>)
    ensures |r| == |rules|
    ensures forall k :: 0 <= k < |r| ==> r[k] == rules[k].root
  {
    if rules == [] then [] else [rules[0].root] + Roots(rules[1..])
  }

  ghost predicate SpellsProgram(all: seq<Cell>, p: Protocol, root: Id, rules: seq<Rule>) {
    && root != Null && SpellsRules(all, p, rules)
    && Within(Composed(root, Tagged(p.rule, Roots(rules))), all)
  }

  /** What was written stays written when more cells follow. */
  lemma SpellsMore(all: seq<Cell>, more: seq<Cell>, p: Protocol)
    ensures forall root, t :: SpellsTerm(all, p, root, t) ==> SpellsTerm(all + more, p, root, t)
    ensures forall root, a :: SpellsClause(all, p, root, a) ==> SpellsClause(all + more, p, root, a)
    ensures forall rule :: SpellsRule(all, p, rule) ==> SpellsRule(all + more, p, rule)
  {
    forall root, a | SpellsClause(all, p, root, a)
      ensures SpellsClause(all + more, p, root, a)
    {
      SpellsMoreClause(all, more, p, root, a);
    }
    forall rule | SpellsRule(all, p, rule)
      ensures SpellsRule(all + more, p, rule)
    {
      hide SpellsClause;
      var head: Id, body: seq<Id> :|
        && SpellsClause(all, p, head, rule.head) && SpellsClauses(all, p, body, rule.body)
        && Within(Composed(rule.root, RulePairs(p, head, body)), all);
      assert SpellsClauses(all + more, p, body, rule.body);
    }
  }

  lemma SpellsMoreClause(all: seq<Cell>, more: seq<Cell>, p: Protocol, root: Id, a: Atom)
    requires SpellsClause(all, p, root, a)
    ensures SpellsClause(all + more, p, root, a)
  {
    hide Composed;
    var terms: seq<Id> :|
      SpellsTerms(all, p, terms, a.terms) && Within(Composed(root, ClausePairs(p, a.pred, terms)), all);
    assert SpellsTerms(all + more, p, terms, a.terms);
  }

  lemma WithinHeld(g: Graph, cells: seq<Cell>, all: seq<Cell>)
    requires Holds(g, all) && Within(cells, all)
    ensures Holds(g, cells)
  {
    forall k | 0 <= k < |cells|
      ensures cells[k].id in g && g[cells[k].id] == cells[k]
    {
      assert cells[k] in all;
    }
  }

  lemma {:induction false} ForRoleOfPairs(root: Id, pairs: seq<Pair>, i: nat, role: Id)
    requires i <= |pairs|
    requires forall k :: i <= k < |pairs| ==> pairs[k].0 != role
    ensures ForRole(MembersFrom(root, pairs, i), role) == []
    decreases |pairs| - i
  {
    if i < |pairs| {
      ForRoleOfPairs(root, pairs, i + 1, role);
      assert MembersFrom(root, pairs, i)[1..] == MembersFrom(root, pairs, i + 1);
    }
  }

  lemma {:induction false} ForRoleOfTagged(root: Id, pairs: seq<Pair>, i: nat, role: Id, roots: seq<Id>)
    requires i <= |pairs| && pairs[i..] == Tagged(role, roots)
    ensures ForRole(MembersFrom(root, pairs, i), role) == roots
    decreases |pairs| - i
  {
    if i < |pairs| {
      assert pairs[i] == pairs[i..][0] == (role, roots[0]);
      assert pairs[i + 1..] == pairs[i..][1..] == Tagged(role, roots[1..]);
      ForRoleOfTagged(root, pairs, i + 1, role, roots[1..]);
      assert MembersFrom(root, pairs, i)[1..] == MembersFrom(root, pairs, i + 1);
    }
  }

  /** The three parts of a relation with a shape, one named member, and a tail under a third role. */
  lemma ForRoleStep(root: Id, pairs: seq<Pair>, i: nat, role: Id)
    requires i < |pairs|
    ensures ForRole(MembersFrom(root, pairs, i), role)
         == (if pairs[i].0 == role then [pairs[i].1] else []) + ForRole(MembersFrom(root, pairs, i + 1), role)
  {
    assert MembersFrom(root, pairs, i)[1..] == MembersFrom(root, pairs, i + 1);
  }

  lemma OnlyTheseRoles(root: Id, a: Pair, b: Pair, role: Id, tail: seq<Id>)
    ensures ClosedRoles(Members(root, [a, b] + Tagged(role, tail)), {a.0, b.0, role})
  {
    hide MembersFrom;
  }

  lemma PartsOfPairs(root: Id, a: Pair, b: Pair, role: Id, tail: seq<Id>)
    requires a.0 != b.0 && a.0 != role && b.0 != role
    ensures var members := Members(root, [a, b] + Tagged(role, tail));
            && ForRole(members, a.0) == [a.1] && ForRole(members, b.0) == [b.1] && ForRole(members, role) == tail
            && ClosedRoles(members, {a.0, b.0, role})
  {
    hide ForRole, ClosedRoles, MembersFrom;
    OnlyTheseRoles(root, a, b, role, tail);
    var pairs := [a, b] + Tagged(role, tail);
    assert pairs[2..] == Tagged(role, tail);
    ForRoleOfTagged(root, pairs, 2, role, tail);
    ForRoleOfPairs(root, pairs, 1, a.0);
    ForRoleOfPairs(root, pairs, 2, b.0);
    ForRoleStep(root, pairs, 0, a.0);
    ForRoleStep(root, pairs, 0, b.0);
    ForRoleStep(root, pairs, 1, b.0);
    ForRoleStep(root, pairs, 0, role);
    ForRoleStep(root, pairs, 1, role);
  }

  // A written term, clause or rule reads back as itself, whenever it can be read at all.

  lemma ReadSpelledTerm(g: Graph, all: seq<Cell>, p: Protocol, root: Id, t: Term, budget: nat)
    requires p.Distinct() && Holds(g, all) && SpellsTerm(all, p, root, t)
    ensures ReadTerm(g, p, root, budget).Ok? ==> ReadTerm(g, p, root, budget).value == t
    ensures ReadTerm(g, p, root, budget).Ok? <==> 2 <= budget && Present(g, TermPairs(p, t))
  {
    var pairs := TermPairs(p, t);
    WithinHeld(g, Composed(root, pairs), all);
    ReadComposed(g, root, pairs, budget);
    var m0, m1 := MembersFrom(root, pairs, 0), MembersFrom(root, pairs, 1);
    assert m0[1..] == m1 && m1[1..] == [];
    assert ForRole(m0, p.conformsTo) == [p.termShape] + ForRole(m1, p.conformsTo) && ForRole(m1, p.conformsTo) == [];
    var role, other := pairs[1].0, if t.Var? then p.constant else p.variable;
    assert ForRole(m0, role) == ForRole(m1, role) && ForRole(m1, role) == [t.value];
    assert ForRole(m0, other) == ForRole(m1, other) && ForRole(m1, other) == [];
  }

  predicate TermsPresent(g: Graph, p: Protocol, terms: seq<Term>) {
    forall k :: 0 <= k < |terms| ==> Present(g, TermPairs(p, terms[k]))
  }

  lemma {:induction false} ReadSpelledTerms(g: Graph, all: seq<Cell>, p: Protocol, roots: seq<Id>, terms: seq<Term>,
                                            budget: nat)
    requires p.Distinct() && Holds(g, all) && SpellsTerms(all, p, roots, terms)
    ensures ReadTerms(g, p, roots, budget).Ok? ==> ReadTerms(g, p, roots, budget).value == terms
    ensures 2 <= budget && TermsPresent(g, p, terms) ==> ReadTerms(g, p, roots, budget).Ok?
  {
    hide SpellsTerm, ReadTerm;
    if roots != [] {
      ReadSpelledTerm(g, all, p, roots[0], terms[0], budget);
      assert SpellsTerms(all, p, roots[1..], terms[1..]);
      ReadSpelledTerms(g, all, p, roots[1..], terms[1..], budget);
      assert terms == [terms[0]] + terms[1..];
    }
  }

  predicate AtomPresent(g: Graph, p: Protocol, a: Atom) {
    && p.conformsTo in g && p.clauseShape in g && p.pred in g && p.argument in g
    && a.pred in g && TermsPresent(g, p, a.terms)
  }

  lemma ReadSpelledClause(g: Graph, all: seq<Cell>, p: Protocol, root: Id, a: Atom, budget: nat)
    requires p.Distinct() && Holds(g, all) && SpellsClause(all, p, root, a)
    ensures ReadClause(g, p, root, budget).Ok? ==> ReadClause(g, p, root, budget).value == a
    ensures 2 + |a.terms| <= budget && AtomPresent(g, p, a) ==> ReadClause(g, p, root, budget).Ok?
  {
    hide Composed, SpellsTerm, ReadTerms, ReadRelation;
    var terms: seq<Id> :|
      SpellsTerms(all, p, terms, a.terms) && Within(Composed(root, ClausePairs(p, a.pred, terms)), all);
    var pairs := ClausePairs(p, a.pred, terms);
    WithinHeld(g, Composed(root, pairs), all);
    ReadComposed(g, root, pairs, budget);
    PartsOfPairs(root, (p.conformsTo, p.clauseShape), (p.pred, a.pred), p.argument, terms);
    ReadSpelledTerms(g, all, p, terms, a.terms, budget);
    TermRootsHeld(g, all, p, terms, a.terms);
  }

  lemma TermRootsHeld(g: Graph, all: seq<Cell>, p: Protocol, roots: seq<Id>, terms: seq<Term>)
    requires Holds(g, all) && SpellsTerms(all, p, roots, terms)
    ensures forall k :: 0 <= k < |roots| ==> roots[k] in g
  {
    forall k | 0 <= k < |roots|
      ensures roots[k] in g
    {
      var pairs := TermPairs(p, terms[k]);
      WithinHeld(g, Composed(roots[k], pairs), all);
      CellHeld(g, roots[k], pairs, 0);
    }
  }

  lemma ClauseRootsHeld(g: Graph, all: seq<Cell>, p: Protocol, roots: seq<Id>, atoms: seq<Atom>)
    requires Holds(g, all) && SpellsClauses(all, p, roots, atoms)
    ensures forall k :: 0 <= k < |roots| ==> roots[k] in g
  {
    forall k | 0 <= k < |roots|
      ensures roots[k] in g
    {
      var terms: seq<Id> :|
        SpellsTerms(all, p, terms, atoms[k].terms)
          && Within(Composed(roots[k], ClausePairs(p, atoms[k].pred, terms)), all);
      var pairs := ClausePairs(p, atoms[k].pred, terms);
      WithinHeld(g, Composed(roots[k], pairs), all);
      CellHeld(g, roots[k], pairs, 0);
    }
  }

  predicate AtomsPresent(g: Graph, p: Protocol, atoms: seq<Atom>, budget: nat) {
    forall k :: 0 <= k < |atoms| ==> AtomPresent(g, p, atoms[k]) && 2 + |atoms[k].terms| <= budget
  }

  lemma {:induction false} ReadSpelledClauses(g: Graph, all: seq<Cell>, p: Protocol, roots: seq<Id>, atoms: seq<Atom>,
                                              budget: nat)
    requires p.Distinct() && Holds(g, all) && SpellsClauses(all, p, roots, atoms)
    ensures ReadClauses(g, p, roots, budget).Ok? ==> ReadClauses(g, p, roots, budget).value == atoms
    ensures AtomsPresent(g, p, atoms, budget) ==> ReadClauses(g, p, roots, budget).Ok?
  {
    hide SpellsClause, ReadClause, AtomPresent;
    if roots != [] {
      ReadSpelledClause(g, all, p, roots[0], atoms[0], budget);
      assert SpellsClauses(all, p, roots[1..], atoms[1..]);
      ReadSpelledClauses(g, all, p, roots[1..], atoms[1..], budget);
      assert atoms == [atoms[0]] + atoms[1..];
    }
  }

  predicate RulePresent(g: Graph, p: Protocol, rule: Rule, budget: nat) {
    && p.conformsTo in g && p.ruleShape in g && p.head in g && p.body in g
    && AtomsPresent(g, p, [rule.head], budget) && AtomsPresent(g, p, rule.body, budget) && 2 + |rule.body| <= budget
  }

  lemma ReadSpelledRule(g: Graph, all: seq<Cell>, p: Protocol, rule: Rule, budget: nat)
    requires p.Distinct() && Holds(g, all) && SpellsRule(all, p, rule)
    ensures ReadRule(g, p, rule.root, budget).Ok? ==> ReadRule(g, p, rule.root, budget).value == rule
    ensures RulePresent(g, p, rule, budget) ==> ReadRule(g, p, rule.root, budget).Ok?
  {
    hide Composed, SpellsClause, ReadClause, ReadClauses, ReadRelation, AtomPresent;
    var head: Id, body: seq<Id> :|
      && SpellsClause(all, p, head, rule.head) && SpellsClauses(all, p, body, rule.body)
      && Within(Composed(rule.root, RulePairs(p, head, body)), all);
    var pairs := RulePairs(p, head, body);
    WithinHeld(g, Composed(rule.root, pairs), all);
    ReadComposed(g, rule.root, pairs, budget);
    PartsOfPairs(rule.root, (p.conformsTo, p.ruleShape), (p.head, head), p.body, body);
    ReadSpelledClause(g, all, p, head, rule.head, budget);
    ReadSpelledClauses(g, all, p, body, rule.body, budget);
    ClauseRootsHeld(g, all, p, [head], [rule.head]);
    ClauseRootsHeld(g, all, p, body, rule.body);
    assert [head][0] in g && (RulePresent(g, p, rule, budget) ==> AtomPresent(g, p, [rule.head][0]));
  }

  predicate RulesPresent(g: Graph, p: Protocol, rules: seq<Rule>, budget: nat) {
    forall k :: 0 <= k < |rules| ==> RulePresent(g, p, rules[k], budget)
  }

  lemma FirstAndRest(g: Graph, all: seq<Cell>, p: Protocol, rules: seq<Rule>, budget: nat)
    requires rules != []
    ensures SpellsRules(all, p, rules) ==> SpellsRule(all, p, rules[0]) && SpellsRules(all, p, rules[1..])
    ensures RulesPresent(g, p, rules, budget) ==>
              RulePresent(g, p, rules[0], budget) && RulesPresent(g, p, rules[1..], budget)
  {
  }

  lemma {:induction false} ReadSpelledRules(g: Graph, all: seq<Cell>, p: Protocol, rules: seq<Rule>, budget: nat)
    requires p.Distinct() && Holds(g, all) && SpellsRules(all, p, rules)
    ensures ReadRules(g, p, Roots(rules), budget).Ok? ==> ReadRules(g, p, Roots(rules), budget).value == rules
    ensures RulesPresent(g, p, rules, budget) ==> ReadRules(g, p, Roots(rules), budget).Ok?
  {
    hide SpellsRule, ReadRule, RulePresent, RulesPresent, SpellsRules, Holds;
    if rules != [] {
      var rest := rules[1..];
      FirstAndRest(g, all, p, rules, budget);
      ReadSpelledRule(g, all, p, rules[0], budget);
      ReadSpelledRules(g, all, p, rest, budget);
      assert Roots(rules)[1..] == Roots(rest);
      assert rules == [rules[0]] + rest;
    }
  }

  lemma RuleRootHeld(g: Graph, all: seq<Cell>, p: Protocol, rule: Rule)
    requires Holds(g, all) && SpellsRule(all, p, rule)
    ensures rule.root in g
  {
    hide Composed, SpellsClause;
    var head: Id, body: seq<Id> :|
      && SpellsClause(all, p, head, rule.head) && SpellsClauses(all, p, body, rule.body)
      && Within(Composed(rule.root, RulePairs(p, head, body)), all);
    WithinHeld(g, Composed(rule.root, RulePairs(p, head, body)), all);
    CellHeld(g, rule.root, RulePairs(p, head, body), 0);
  }

  /** A program written into cells reads back as itself from every graph that holds the cells, as
      soon as it can be read; and it can be once what it names is there and the budget covers it. */
  lemma ReadSpelledProgram(g: Graph, all: seq<Cell>, p: Protocol, root: Id, rules: seq<Rule>, budget: nat)
    requires p.Distinct() && Holds(g, all) && SpellsProgram(all, p, root, rules) && rules != []
             && NoRepeat(Roots(rules))
    ensures ReadProgram(g, p, root, budget).Ok? ==> ReadProgram(g, p, root, budget).value == rules
    ensures p.rule in g && |rules| <= budget && RulesPresent(g, p, rules, budget) ==>
              ReadProgram(g, p, root, budget).Ok?
  {
    hide Composed, SpellsRule, ReadRules, ReadRelation, RulePresent;
    var pairs := Tagged(p.rule, Roots(rules));
    WithinHeld(g, Composed(root, pairs), all);
    ReadComposed(g, root, pairs, budget);
    assert pairs[0..] == pairs;
    ForRoleOfTagged(root, pairs, 0, p.rule, Roots(rules));
    ReadSpelledRules(g, all, p, rules, budget);
    forall k | 0 <= k < |rules|
      ensures rules[k].root in g
    {
      RuleRootHeld(g, all, p, rules[k]);
    }
  }
}
