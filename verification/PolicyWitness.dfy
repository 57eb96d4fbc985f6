/** A graph with a released policy of two permits, on which the compiled program allows where the
    source evaluation raises: the object is no relation, and only the second permit asks for it. */
module PolicyWitness {
  import opened Octets
  import opened Wrappers
  import opened CellGraph
  import opened HornLogic
  import opened HornSolver
  import opened PolicyCompiler
  import opened PolicyEvaluation
  import opened PolicyInstallation
  import opened PolicyMeaning
  import Source = PolicySource
  import Rules = PolicyRules

  const SUBJECT := Named(1)
  const PRINCIPAL := Named(2)
  const TENANT := Named(3)
  const ASSURANCE := Named(4)
  const ACTION := Named(5)
  const OBJECT := Named(6)
  const SCOPE := Named(7)
  const PERMIT := Named(8)
  const FORBID := Named(9)
  const MEMBER := Named(10)
  const VERSION := Named(11)
  const RELEASED := Named(12)
  const DIGEST := Named(13)

  const FIRST := Named(100)
  const SECOND := Named(101)
  const POLICY := Named(102)
  const NEXT: nat := 103

  const RULE_ROLES := Source.RuleRoles(
    Named(20), Named(21), Named(22), Named(23), Named(24), Named(25), Named(26), Named(27), Named(28), Named(29),
    Named(30), Named(31), Named(32), Named(33), Named(34))

  const POLICY_ROLES := Source.PolicyRoles(Named(40), Named(41), Named(42), Named(43))

  const AUTH := Source.AuthProtocol(RULE_ROLES, POLICY_ROLES, {ACTION}, PERMIT, FORBID, RELEASED)

  const LOGIC := Protocol(
    Named(50), Named(51), Named(52), Named(53), Named(54), Named(55), Named(56), Named(57), Named(58), Named(59),
    Named(60), Named(61))

  const PREDICATES: Predicates := map f: ContextField | f in FIELDS :: PredicateOf(f)

  function PredicateOf(f: ContextField): Id {
    match f
    case Subject => Named(70)
    case Principal => Named(71)
    case Tenant => Named(72)
    case Assurance => Named(73)
    case Action => Named(74)
    case Object => Named(75)
    case Scope => Named(76)
    case Purpose => Named(77)
    case Classification => Named(78)
    case Audience => Named(79)
  }

  function PermitPairs(): seq<Pair> {
    [(RULE_ROLES.effect, PERMIT), (RULE_ROLES.principal, PRINCIPAL), (RULE_ROLES.object_, OBJECT),
     (RULE_ROLES.action, ACTION)]
  }

  function AskingPairs(): seq<Pair> {
    PermitPairs() + [(RULE_ROLES.subjectRelation, MEMBER)]
  }

  function PolicyPairs(): seq<Pair> {
    [(POLICY_ROLES.ruleMember, FIRST), (POLICY_ROLES.ruleMember, SECOND), (POLICY_ROLES.version, VERSION),
     (POLICY_ROLES.lifecycle, RELEASED), (POLICY_ROLES.digest, DIGEST)]
  }

  function PermitOf(root: Id, relation: Option<Id>): AuthRule {
    Source.AuthRule(root, PERMIT, PRINCIPAL, OBJECT, ACTION, None, None, None, None, None, None, None, None, relation,
                    None, None)
  }

  /** Two permits for the same request; the second also asks for the subject's membership. */
  function TwoPermits(): seq<AuthRule> {
    [PermitOf(FIRST, None), PermitOf(SECOND, Some(MEMBER))]
  }

  function Released(): Source.Policy {
    Source.Policy(POLICY, [FIRST, SECOND], VERSION, RELEASED, DIGEST)
  }

  function AskingContext(): Context {
    Context(SUBJECT, [PRINCIPAL], TENANT, ASSURANCE, ACTION, OBJECT, SCOPE, None, None, None)
  }

  // ---------- the graph ----------

  function Texts(pairs: seq<Pair>, c: Source.Coding): seq<Bytes> {
    if pairs == [] then [] else [c.text(pairs[0].0), c.text(pairs[0].1)] + Texts(pairs[1..], c)
  }

  function RuleHash(root: Id, pairs: seq<Pair>, c: Source.Coding): Bytes {
    c.hash([c.text(root)] + Texts(pairs, c))
  }

  /** The digest that a release records. */
  function RecordedDigest(c: Source.Coding): Bytes {
    c.hash([c.text(POLICY), []] + [RuleHash(FIRST, PermitPairs(), c), RuleHash(SECOND, AskingPairs(), c)])
  }

  /** Leaves, but for the object: it has a second link and no first, and so is no relation. */
  function Leaves(c: Source.Coding): Graph {
    map i: nat | 1 <= i < 100 ::
      Named(i) := Cell(Named(i), Null, if i == 6 then SCOPE else Null, if i == 13 then RecordedDigest(c) else [])
  }

  function Relations(): seq<Cell> {
    Composed(FIRST, PermitPairs()) + (Composed(SECOND, AskingPairs()) + Composed(POLICY, PolicyPairs()))
  }

  function ReleasedGraph(c: Source.Coding): Graph {
    Install(Leaves(c), Relations())
  }

  /** Both rules and the policy are in place beside the leaves. */
  lemma GraphHolds(c: Source.Coding)
    ensures var g := ReleasedGraph(c);
            && Includes(g, Leaves(c)) && GraphBelow(g, NEXT) && Holds(g, Composed(FIRST, PermitPairs()))
            && Holds(g, Composed(SECOND, AskingPairs())) && Holds(g, Composed(POLICY, PolicyPairs()))
            && FIRST in g && SECOND in g && POLICY in g
  {
    hide Composed, Install, Leaves, Includes, PermitPairs, AskingPairs, PolicyPairs;
    var a, b, p := Composed(FIRST, PermitPairs()), Composed(SECOND, AskingPairs()), Composed(POLICY, PolicyPairs());
    RelationsAreNew();
    LeavesBelow(c);
    InstallHolds(Leaves(c), Relations(), 100, 103);
    var g := ReleasedGraph(c);
    PartsHeld(g, a, b, p);
    RootHeld(g, FIRST, PermitPairs());
    RootHeld(g, SECOND, AskingPairs());
    RootHeld(g, POLICY, PolicyPairs());
  }

  lemma RelationsAreNew()
    ensures DistinctIds(Relations()) && AllFrom(Relations(), 100, 103)
  {
    hide Composed, PermitPairs, AskingPairs, PolicyPairs;
    var a, b, p := Composed(FIRST, PermitPairs()), Composed(SECOND, AskingPairs()), Composed(POLICY, PolicyPairs());
    ComposedIsNew(FIRST, PermitPairs(), 100, 101);
    ComposedIsNew(SECOND, AskingPairs(), 101, 102);
    ComposedIsNew(POLICY, PolicyPairs(), 102, 103);
    JoinNew(b, p, 101, 102, 103);
    JoinNew(a, b + p, 100, 101, 103);
  }

  lemma LeavesBelow(c: Source.Coding)
    ensures GraphBelow(Leaves(c), 100)
  {
  }

  lemma PartsHeld(g: Graph, a: seq<Cell>, b: seq<Cell>, p: seq<Cell>)
    requires Holds(g, a + (b + p))
    ensures Holds(g, a) && Holds(g, b) && Holds(g, p)
  {
    var all := a + (b + p);
    assert forall k :: 0 <= k < |a| ==> a[k] == all[k];
    assert forall k :: 0 <= k < |b| ==> b[k] == all[|a| + k];
    assert forall k :: 0 <= k < |p| ==> p[k] == all[|a| + |b| + k];
  }

  lemma RootHeld(g: Graph, root: Id, pairs: seq<Pair>)
    requires Holds(g, Composed(root, pairs))
    ensures root in g
  {
    if pairs == [] {
      assert Composed(root, pairs)[0].id in g;
    } else {
      CellHeld(g, root, pairs, 0);
    }
  }

  // ---------- reading it ----------

  function RelationPairs(relation: Option<Id>): seq<Pair> {
    if relation.None? then [] else [(RULE_ROLES.subjectRelation, relation.value)]
  }

  /** The fields of a permit in four parts: what every rule has, eight that are absent, the relation, two absent. */
  lemma PermitFields(root: Id, relation: Option<Id>)
    returns (four: seq<Rules.Field>, none: seq<Rules.Field>, asked: seq<Rules.Field>, rest: seq<Rules.Field>)
    ensures Rules.RuleFields(RULE_ROLES, PermitOf(root, relation)) == four + (none + (asked + rest))
    ensures four == [(RULE_ROLES.effect, [PERMIT]), (RULE_ROLES.principal, [PRINCIPAL]),
                     (RULE_ROLES.object_, [OBJECT]), (RULE_ROLES.action, [ACTION])]
    ensures asked == [(RULE_ROLES.subjectRelation, Rules.Optional(relation))]
    ensures forall k :: 0 <= k < |none| ==> none[k].1 == []
    ensures forall k :: 0 <= k < |rest| ==> rest[k].1 == []
  {
    hide RULE_ROLES;
    var r := RULE_ROLES;
    four := [(r.effect, [PERMIT]), (r.principal, [PRINCIPAL]), (r.object_, [OBJECT]), (r.action, [ACTION])];
    none := [(r.interface_, []), (r.purpose, []), (r.tenant, []), (r.assurance, []), (r.classification, []),
             (r.audience, []), (r.lifecycleState, []), (r.operationalState, [])];
    asked, rest := [(r.subjectRelation, Rules.Optional(relation))], [(r.expiresAt, []), (r.maxInvocations, [])];
  }

  lemma RolesAreDistinct()
    ensures Rules.DistinctRuleRoles(RULE_ROLES)
  {
  }

  /** The pairs of a permit are what creating that rule writes. */
  lemma PermitIsWritten(root: Id, relation: Option<Id>)
    ensures Rules.DistinctRuleRoles(RULE_ROLES) && PermitOf(root, relation).root == root
    ensures Rules.RulePairs(RULE_ROLES, PermitOf(root, relation)) == PermitPairs() + RelationPairs(relation)
  {
    hide Rules.Filled, Rules.RuleFields, Rules.DistinctRuleRoles, PermitPairs, RelationPairs, RULE_ROLES;
    RolesAreDistinct();
    var four, none, asked, rest := PermitFields(root, relation);
    Rules.FilledJoins(four, none + (asked + rest));
    Rules.FilledJoins(none, asked + rest);
    Rules.FilledJoins(asked, rest);
    Rules.FilledNone(none);
    Rules.FilledNone(rest);
    FourWritten(four);
    AskedWritten(asked, relation);
    assert Rules.Filled(asked) + [] == Rules.Filled(asked);
    assert [] + Rules.Filled(asked) == Rules.Filled(asked);
  }

  lemma FourWritten(four: seq<Rules.Field>)
    requires four == [(RULE_ROLES.effect, [PERMIT]), (RULE_ROLES.principal, [PRINCIPAL]),
                      (RULE_ROLES.object_, [OBJECT]), (RULE_ROLES.action, [ACTION])]
    ensures Rules.Filled(four) == PermitPairs()
  {
    var last, two, three := four[3..], four[2..], four[1..];
    assert two[1..] == last && three[1..] == two && last[1..] == [];
    assert Rules.Filled(last) == [(RULE_ROLES.action, ACTION)] + [];
    assert Rules.Filled(two) == [(RULE_ROLES.object_, OBJECT)] + Rules.Filled(last);
    assert Rules.Filled(three) == [(RULE_ROLES.principal, PRINCIPAL)] + Rules.Filled(two);
  }

  lemma AskedWritten(asked: seq<Rules.Field>, relation: Option<Id>)
    requires asked == [(RULE_ROLES.subjectRelation, Rules.Optional(relation))]
    ensures Rules.Filled(asked) == RelationPairs(relation)
  {
    assert asked[1..] == [];
  }

  lemma PolicyIsWritten()
    ensures Rules.DistinctPolicyRoles(POLICY_ROLES)
    ensures Rules.PolicyPairs(POLICY_ROLES, Released()) == PolicyPairs()
  {
    var fields := Rules.PolicyFields(POLICY_ROLES, Released());
    var last, two, three := fields[3..], fields[2..], fields[1..];
    assert two[1..] == last && three[1..] == two && last[1..] == [];
    assert Rules.Filled(last) == [(POLICY_ROLES.digest, DIGEST)] + [];
    assert Rules.Filled(two) == [(POLICY_ROLES.lifecycle, RELEASED)] + Rules.Filled(last);
    assert Rules.Filled(three) == [(POLICY_ROLES.version, VERSION)] + Rules.Filled(two);
    var roots := [FIRST, SECOND];
    assert roots[1..] == [SECOND] && [SECOND][1..] == [];
    assert Tagged(POLICY_ROLES.ruleMember, [SECOND]) == [(POLICY_ROLES.ruleMember, SECOND)];
  }

  /** The fields under a rule's digest are the texts of its pairs, when it owns no values. */
  lemma {:induction false} FieldsAreTexts(g: Graph, root: Id, pairs: seq<Pair>, i: nat, c: Source.Coding)
    requires i <= |pairs|
    requires forall k :: 0 <= k < |pairs| ==>
               pairs[k].0 != RULE_ROLES.expiresAt && pairs[k].0 != RULE_ROLES.maxInvocations
    ensures Source.MemberFields(g, AUTH, MembersFrom(root, pairs, i), c) == Texts(pairs[i..], c)
    decreases |pairs| - i
  {
    if i < |pairs| {
      FieldsAreTexts(g, root, pairs, i + 1, c);
      var members, rest := MembersFrom(root, pairs, i), MembersFrom(root, pairs, i + 1);
      assert members[1..] == rest && pairs[i..][1..] == pairs[i + 1..];
      var first := [c.text(members[0].role), c.text(members[0].participant)];
      assert first + [] == first;
    }
  }

  /** A permit in the graph: it reads as the rule, and its digest is the recorded one. */
  lemma PermitInGraph(g: Graph, root: Id, pairs: seq<Pair>, relation: Option<Id>, c: Source.Coding)
    requires pairs == PermitPairs() + RelationPairs(relation)
    requires root != Null && Holds(g, Composed(root, pairs)) && Present(g, pairs)
    ensures Source.ReadAuthRule(g, AUTH, root) == Ok(PermitOf(root, relation))
    ensures Source.RuleDigest(g, AUTH, root, c) == Ok(RuleHash(root, pairs, c))
  {
    hide Composed, MembersFrom, Source.MemberFields, Texts, Source.AuthRuleOf, ReadRelation, PermitOf, Holds;
    ReadComposed(g, root, pairs, Source.RULE_BUDGET);
    PermitIsWritten(root, relation);
    Rules.WrittenRuleReads(g, AUTH, PermitOf(root, relation));
    FieldsAreTexts(g, root, pairs, 0, c);
    assert pairs[0..] == pairs;
  }

  lemma LeavesPresent(g: Graph, c: Source.Coding)
    requires Includes(g, Leaves(c)) && FIRST in g && SECOND in g
    ensures Present(g, PermitPairs()) && Present(g, AskingPairs()) && Present(g, PolicyPairs())
    ensures g[VERSION].atom == [] && DIGEST in g && g[DIGEST].atom == RecordedDigest(c)
    ensures g[OBJECT] == Cell(OBJECT, Null, SCOPE, [])
    ensures forall i: nat :: 1 <= i < 100 ==> Named(i) in g
  {
    hide RecordedDigest;
    assert forall i: nat :: 1 <= i < 100 ==> Named(i) in Leaves(c);
  }

  /** No cell of it has a link that leads nowhere, so that commits may have made it. */
  lemma NothingDangles(c: Source.Coding)
    ensures NoDangling(ReleasedGraph(c))
  {
    hide Composed, Holds, Linked, Leaves, Includes, PermitPairs, AskingPairs, PolicyPairs, GraphBelow, DistinctIds,
      AllFrom, Present, Install;
    var g := ReleasedGraph(c);
    GraphHolds(c);
    LeavesPresent(g, c);
    ComposedLinked(g, FIRST, PermitPairs());
    ComposedLinked(g, SECOND, AskingPairs());
    ComposedLinked(g, POLICY, PolicyPairs());
    LeavesLinked(g, c);
    RelationsAreNew();
    LeavesBelow(c);
    InstallNoDangling(Leaves(c), Relations(), 100, 103);
  }

  lemma LeavesLinked(g: Graph, c: Source.Coding)
    requires Includes(g, Leaves(c))
    ensures forall id :: id in Leaves(c) ==> Linked(g, Leaves(c)[id])
  {
    hide RecordedDigest;
    assert SCOPE in Leaves(c);
  }

  /** The policy verifies, and its rules are the two permits. */
  lemma PolicyIsReleased(g: Graph, c: Source.Coding)
    requires forall fields :: c.hash(fields) != []
    requires g == ReleasedGraph(c)
    ensures Source.VerifyPolicy(g, AUTH, POLICY, c)
            == Ok(Released())
    ensures Source.ReadAuthRules(g, AUTH, [FIRST, SECOND]) == Ok(TwoPermits())
  {
    hide Composed, MembersFrom, Source.ReadAuthRule, Source.RuleDigest, ReadRelation, PermitOf, Holds, ForRole,
      ClosedRoles, PermitPairs, AskingPairs, PolicyPairs, RuleHash, Leaves, Install, Includes, Present;
    GraphHolds(c);
    LeavesPresent(g, c);
    AskingIsPermit();
    PermitInGraph(g, FIRST, PermitPairs(), None, c);
    PermitInGraph(g, SECOND, AskingPairs(), Some(MEMBER), c);
    PolicyIsWritten();
    Rules.WrittenPolicyReads(g, AUTH, Released());
    TwoRules(g, c);
  }

  lemma AskingIsPermit()
    ensures PermitPairs() == PermitPairs() + []
    ensures AskingPairs() == PermitPairs() + [(RULE_ROLES.subjectRelation, MEMBER)]
  {
  }

  lemma TwoRules(g: Graph, c: Source.Coding)
    requires Source.ReadAuthRule(g, AUTH, FIRST) == Ok(TwoPermits()[0])
    requires Source.ReadAuthRule(g, AUTH, SECOND) == Ok(TwoPermits()[1])
    requires Source.RuleDigest(g, AUTH, FIRST, c) == Ok(RuleHash(FIRST, PermitPairs(), c))
    requires Source.RuleDigest(g, AUTH, SECOND, c) == Ok(RuleHash(SECOND, AskingPairs(), c))
    ensures Source.ReadAuthRules(g, AUTH, [FIRST, SECOND]) == Ok(TwoPermits())
    ensures Source.RuleDigests(g, AUTH, [FIRST, SECOND], c)
            == Ok([RuleHash(FIRST, PermitPairs(), c), RuleHash(SECOND, AskingPairs(), c)])
  {
    hide Source.ReadAuthRule, Source.RuleDigest, PermitOf, RuleHash;
    var roots := [FIRST, SECOND];
    assert roots[1..] == [SECOND] && [SECOND][1..] == [];
    assert [TwoPermits()[0]] + [TwoPermits()[1]] == TwoPermits();
    var first, second := RuleHash(FIRST, PermitPairs(), c), RuleHash(SECOND, AskingPairs(), c);
    assert [first] + [second] == [first, second];
    assert [TwoPermits()[1]] + [] == [TwoPermits()[1]] && [second] + [] == [second];
    assert Source.ReadAuthRules(g, AUTH, [SECOND]) == Ok([TwoPermits()[1]] + []);
    assert Source.RuleDigests(g, AUTH, [SECOND], c) == Ok([RuleHash(SECOND, AskingPairs(), c)] + []);
  }

  // ---------- the run ----------

  lemma ProtocolsHeld(g: Graph)
    requires forall i: nat :: 1 <= i < 100 ==> Named(i) in g
    ensures LogicHeld(g, LOGIC) && PredicatesAdmitted(g, LOGIC, PREDICATES) && LOGIC.Distinct()
  {
    forall f: ContextField
      ensures f in PREDICATES && PREDICATES[f] == PredicateOf(f)
    {
      EveryField(f);
    }
  }

  lemma EveryField(f: ContextField)
    ensures f in FIELDS
  {
    assert FIELDS[0] == Subject && FIELDS[1] == Principal && FIELDS[2] == Tenant && FIELDS[3] == Assurance
           && FIELDS[4] == Action && FIELDS[5] == Object && FIELDS[6] == Scope && FIELDS[7] == Purpose
           && FIELDS[8] == Classification && FIELDS[9] == Audience;
  }

  lemma RequestHeld(g: Graph)
    requires forall i: nat :: 1 <= i < 100 ==> Named(i) in g
    ensures Source.Answerable(g, AUTH, IdentityOf(AskingContext()), RequestOf(AskingContext()))
  {
  }

  lemma PermitsSupported()
    ensures forall k :: 0 <= k < 2 ==> Supported(TwoPermits()[k]) && EffectKnown(AUTH, TwoPermits()[k])
  {
  }

  /** The policy is released, and the compiler may take it. */
  lemma TwoPermitsAreAdmissible(c: Source.Coding)
    requires forall fields :: c.hash(fields) != []
    ensures var g := ReleasedGraph(c);
            && Admissible(g, AUTH, POLICY, LOGIC, PREDICATES, 1000, c) && GraphBelow(g, NEXT)
            && LogicHeld(g, LOGIC) && PredicatesAdmitted(g, LOGIC, PREDICATES) && LOGIC.Distinct()
            && Source.Answerable(g, AUTH, IdentityOf(AskingContext()), RequestOf(AskingContext()))
            && NeverReadable(g, OBJECT)
  {
    hide Source.VerifyPolicy, Source.ReadAuthRules, Install, Leaves, Includes, GraphBelow, Composed, Holds, LogicHeld,
      PredicatesAdmitted, Source.Answerable, NeverReadable, RecordedDigest, Supported, EffectKnown;
    var g := ReleasedGraph(c);
    GraphHolds(c);
    LeavesPresent(g, c);
    ProtocolsHeld(g);
    RequestHeld(g);
    PolicyIsReleased(g, c);
    PermitsSupported();
    HalfLinked(g, OBJECT);
  }

  /** The compiler makes a plan of it. */
  method CompileTwoPermits(c: Source.Coding) returns (plan: Plan, last: nat)
    requires forall fields :: c.hash(fields) != []
    ensures plan.auth == AUTH && plan.policy == POLICY && plan.logic == LOGIC
    ensures PlanFor(ReleasedGraph(c), plan, PREDICATES, c)
    ensures DistinctIds(plan.cells) && AllFrom(plan.cells, NEXT, last) && NEXT <= last
  {
    hide *;
    TwoPermitsAreAdmissible(c);
    RuleTotal(c);
    MemberIsBelow();
    var r;
    r, last := PreparePolicy(ReleasedGraph(c), AUTH, POLICY, LOGIC, PREDICATES, 1000, c, NEXT);
    plan := r.value;
  }

  lemma RuleTotal(c: Source.Coding)
    requires forall fields :: c.hash(fields) != []
    ensures Source.VerifyPolicy(ReleasedGraph(c), AUTH, POLICY, c).Ok?
    ensures 3 + CELLS_PER_RULE * |Source.VerifyPolicy(ReleasedGraph(c), AUTH, POLICY, c).value.rules| <= 1000
  {
    hide Source.VerifyPolicy, Source.ReadAuthRules, ReleasedGraph;
    PolicyIsReleased(ReleasedGraph(c), c);
  }

  lemma MemberIsBelow()
    ensures Below(LOGIC.relationMember, NEXT)
  {
  }

  /** Committed, the plan allows with any budget above what its queries need, while the source
      evaluation raises on a request that it could answer but for the object. */
  method SourceRaisesHere(plan: Plan, c: Source.Coding, primitive: Provider, budget: nat, patience: nat,
                          clock: Source.Clock, ghost last: nat, ghost enough: nat)
    returns (compiled: Result<Answer, EvaluationRefusal>, source: Result<Source.Decision, Fault>)
    requires c.Injective() && forall fields :: c.hash(fields) != []
    requires plan.auth == AUTH && plan.policy == POLICY && plan.logic == LOGIC
    requires PlanFor(ReleasedGraph(c), plan, PREDICATES, c)
    requires DistinctIds(plan.cells) && AllFrom(plan.cells, NEXT, last) && NEXT <= last
    requires ContextProvider(primitive, PREDICATES, AskingContext())
    requires ContextSupplies(primitive, PREDICATES, AskingContext(), enough)
    requires Needed(Install(ReleasedGraph(c), plan.cells), plan, PREDICATES, AskingContext(), SUBJECT, ACTION, OBJECT,
                    enough) <= budget / 2
    requires patience >= 5
    ensures var h := Install(ReleasedGraph(c), plan.cells);
            && RulesIn(h, plan, c, TwoPermits())
            && Source.Answerable(h, AUTH, IdentityOf(AskingContext()), RequestOf(AskingContext()))
    ensures compiled.Ok? && compiled.value.0 && source.Err?
  {
    hide *;
    var g := ReleasedGraph(c);
    TwoPermitsAreAdmissible(c);
    TwoPermitsAreRead(c);
    WitnessRequest();
    var h;
    h, compiled, source := AllowsWhereSourceRaises(g, plan, c, TwoPermits(), AskingContext(), primitive, budget,
                                                   patience, clock, PREDICATES, NEXT, last, 1, enough);
  }

  lemma TwoPermitsAreRead(c: Source.Coding)
    requires forall fields :: c.hash(fields) != []
    ensures var verified := Source.VerifyPolicy(ReleasedGraph(c), AUTH, POLICY, c);
            verified.Ok? && Source.ReadAuthRules(ReleasedGraph(c), AUTH, verified.value.rules) == Ok(TwoPermits())
  {
    hide Source.VerifyPolicy, Source.ReadAuthRules, ReleasedGraph;
    PolicyIsReleased(ReleasedGraph(c), c);
  }

  lemma WitnessRequest()
    ensures PermitFirst(AUTH, TwoPermits(), AskingContext()) && AsksRelation(TwoPermits()[1], AskingContext())
    ensures var ctx := AskingContext(); ctx.subject == SUBJECT && ctx.action == ACTION && ctx.object_ == OBJECT
    ensures |TwoPermits()| == 2
  {
  }
}
