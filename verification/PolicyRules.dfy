/** Which relation is which rule and which policy: a rule or policy reads from exactly the pairs that are
    written for it, whatever their order, and so from the cells that its creation composes. */
module PolicyRules {
  import opened Wrappers
  import opened CellGraph
  import opened HornLogic
  import opened PolicySource

  /** A role and the participants under it. */
  type Field = (Id, seq<Id>)

  function Optional(value: Option<Id>): seq<Id> {
    if value.None? then [] else [value.value]
  }

  /** One pair for each participant, field after field. */
  function Filled(fields: seq<Field>): seq<Pair> {
    if fields == [] then [] else Tagged(fields[0].0, fields[0].1) + Filled(fields[1..])
  }

  function RuleFields(r: RuleRoles, rule: AuthRule): seq<Field> {
    [(r.effect, [rule.effect]), (r.principal, [rule.principal]), (r.object_, [rule.object_]),
     (r.action, [rule.action]), (r.interface_, Optional(rule.interface_)), (r.purpose, Optional(rule.purpose)),
     (r.tenant, Optional(rule.tenant)), (r.assurance, Optional(rule.assurance)),
     (r.classification, Optional(rule.classification)), (r.audience, Optional(rule.audience)),
     (r.lifecycleState, Optional(rule.lifecycleState)), (r.operationalState, Optional(rule.operationalState)),
     (r.subjectRelation, Optional(rule.subjectRelation)), (r.expiresAt, Optional(rule.expiresAt)),
     (r.maxInvocations, Optional(rule.maxInvocations))]
  }

  /** What creating a rule writes: four pairs, and one for each optional field that is there. */
  function RulePairs(r: RuleRoles, rule: AuthRule): seq<Pair> {
    Filled(RuleFields(r, rule))
  }

  function PolicyFields(r: PolicyRoles, policy: Policy): seq<Field> {
    [(r.ruleMember, policy.rules), (r.version, [policy.version]), (r.lifecycle, [policy.lifecycle]),
     (r.digest, [policy.digest])]
  }

  /** What creating a policy writes: its rules in order, then its version, lifecycle and digest. */
  function PolicyPairs(r: PolicyRoles, policy: Policy): seq<Pair> {
    Filled(PolicyFields(r, policy))
  }

  predicate DistinctFields(fields: seq<Field>) {
    forall i, j :: 0 <= i < j < |fields| ==> fields[i].0 != fields[j].0
  }

  predicate DistinctRuleRoles(r: RuleRoles) {
    NoRepeat([r.effect, r.principal, r.object_, r.action, r.interface_, r.purpose, r.tenant, r.assurance,
              r.classification, r.audience, r.lifecycleState, r.operationalState, r.subjectRelation, r.expiresAt,
              r.maxInvocations])
  }

  predicate DistinctPolicyRoles(r: PolicyRoles) {
    NoRepeat([r.ruleMember, r.version, r.lifecycle, r.digest])
  }

  // ---------- pairs and the participants under a role ----------

  function Under(pairs: seq<Pair>, role: Id): seq<Id> {
    if pairs == [] then []
    else (if pairs[0].0 == role then [pairs[0].1] else []) + Under(pairs[1..], role)
  }

  lemma {:induction false} ForRoleIsUnder(members: seq<Member>, role: Id)
    ensures ForRole(members, role) == Under(Pairs(members), role)
  {
    if members != [] {
      assert Pairs(members)[1..] == Pairs(members[1..]);
      ForRoleIsUnder(members[1..], role);
    }
  }

  lemma {:induction false} UnderCounts(pairs: seq<Pair>, role: Id, value: Id)
    ensures multiset(pairs)[(role, value)] == multiset(Under(pairs, role))[value]
  {
    if pairs != [] {
      UnderCounts(pairs[1..], role, value);
      OneMorePair(pairs, role, value, Under(pairs[1..], role));
    }
  }

  lemma OneMorePair(pairs: seq<Pair>, role: Id, value: Id, rest: seq<Id>)
    requires pairs != [] && multiset(pairs[1..])[(role, value)] == multiset(rest)[value]
    ensures multiset(pairs)[(role, value)]
            == multiset((if pairs[0].0 == role then [pairs[0].1] else []) + rest)[value]
  {
    assert pairs == [pairs[0]] + pairs[1..];
    if pairs[0].0 != role {
      assert [] + rest == rest;
    }
  }

  lemma {:induction false} UnderJoins(a: seq<Pair>, b: seq<Pair>, role: Id)
    ensures Under(a + b, role) == Under(a, role) + Under(b, role)
  {
    if a == [] {
      assert a + b == b && [] + Under(b, role) == Under(b, role);
    } else {
      assert (a + b)[1..] == a[1..] + b && (a + b)[0] == a[0];
      UnderJoins(a[1..], b, role);
      var here := if a[0].0 == role then [a[0].1] else [];
      assert here + (Under(a[1..], role) + Under(b, role)) == (here + Under(a[1..], role)) + Under(b, role);
    }
  }

  lemma {:induction false} UnderTagged(tag: Id, values: seq<Id>, role: Id)
    ensures Under(Tagged(tag, values), role) == if tag == role then values else []
  {
    if values != [] {
      assert Tagged(tag, values)[1..] == Tagged(tag, values[1..]);
      UnderTagged(tag, values[1..], role);
    }
  }

  lemma {:induction false} FilledJoins(a: seq<Field>, b: seq<Field>)
    ensures Filled(a + b) == Filled(a) + Filled(b)
  {
    if a == [] {
      assert a + b == b;
    } else {
      assert (a + b)[1..] == a[1..] + b;
      FilledJoins(a[1..], b);
    }
  }

  lemma {:induction false} FilledNone(fields: seq<Field>)
    requires forall k :: 0 <= k < |fields| ==> fields[k].1 == []
    ensures Filled(fields) == []
  {
    if fields != [] {
      FilledNone(fields[1..]);
    }
  }

  lemma {:induction false} UnderFilled(fields: seq<Field>, role: Id)
    requires DistinctFields(fields)
    ensures forall k :: 0 <= k < |fields| && fields[k].0 == role ==> Under(Filled(fields), role) == fields[k].1
    ensures (forall k :: 0 <= k < |fields| ==> fields[k].0 != role) ==> Under(Filled(fields), role) == []
  {
    if fields != [] {
      UnderFilled(fields[1..], role);
      UnderJoins(Tagged(fields[0].0, fields[0].1), Filled(fields[1..]), role);
      UnderTagged(fields[0].0, fields[0].1, role);
      assert forall k :: 0 < k < |fields| ==> fields[k] == fields[1..][k - 1];
    }
  }

  predicate Has(members: seq<Member>, role: Id, values: seq<Id>) {
    multiset(ForRole(members, role)) == multiset(values)
  }

  predicate AllHave(members: seq<Member>, fields: seq<Field>) {
    forall k :: 0 <= k < |fields| ==> Has(members, fields[k].0, fields[k].1)
  }

  predicate HasRole(fields: seq<Field>, role: Id) {
    exists k :: 0 <= k < |fields| && fields[k].0 == role
  }

  /** Only these roles, and under each the field's participants. */
  ghost predicate Fills(members: seq<Member>, fields: seq<Field>) {
    && (forall m :: 0 <= m < |members| ==> HasRole(fields, members[m].role))
    && AllHave(members, fields)
  }

  lemma FillsExactly(members: seq<Member>, fields: seq<Field>)
    requires DistinctFields(fields)
    ensures Fills(members, fields) <==> multiset(Pairs(members)) == multiset(Filled(fields))
  {
    hide ForRole, Under, Filled, DistinctFields;
    if Fills(members, fields) {
      forall pair: Pair
        ensures multiset(Pairs(members))[pair] == multiset(Filled(fields))[pair]
      {
        CountsAgree(members, fields, pair);
      }
    }
    if multiset(Pairs(members)) == multiset(Filled(fields)) {
      forall m | 0 <= m < |members|
        ensures HasRole(fields, members[m].role)
      {
        assert Pairs(members)[m] in multiset(Filled(fields));
        UnderCounts(Filled(fields), members[m].role, members[m].participant);
        UnderFilled(fields, members[m].role);
      }
      forall k | 0 <= k < |fields|
        ensures Has(members, fields[k].0, fields[k].1)
      {
        FieldAgrees(members, fields, k);
      }
    }
  }

  lemma FieldAgrees(members: seq<Member>, fields: seq<Field>, k: nat)
    requires DistinctFields(fields) && k < |fields| && multiset(Pairs(members)) == multiset(Filled(fields))
    ensures Has(members, fields[k].0, fields[k].1)
  {
    hide ForRole, Under, Filled, DistinctFields;
    var role := fields[k].0;
    ForRoleIsUnder(members, role);
    UnderFilled(fields, role);
    forall value
      ensures multiset(ForRole(members, role))[value] == multiset(fields[k].1)[value]
    {
      UnderCounts(Pairs(members), role, value);
      UnderCounts(Filled(fields), role, value);
    }
  }

  lemma CountsAgree(members: seq<Member>, fields: seq<Field>, pair: Pair)
    requires DistinctFields(fields) && Fills(members, fields)
    ensures multiset(Pairs(members))[pair] == multiset(Filled(fields))[pair]
  {
    hide ForRole, Under, Filled, DistinctFields;
    var (role, value) := pair;
    UnderCounts(Pairs(members), role, value);
    UnderCounts(Filled(fields), role, value);
    ForRoleIsUnder(members, role);
    UnderFilled(fields, role);
    if k :| 0 <= k < |fields| && fields[k].0 == role {
      assert Has(members, fields[k].0, fields[k].1);
    } else {
      assert forall m :: 0 <= m < |members| ==> Pairs(members)[m] != pair;
    }
  }

  lemma ShortIsItself(a: seq<Id>, b: seq<Id>)
    requires multiset(a) == multiset(b) && |b| <= 1
    ensures a == b
  {
    assert |a| == |multiset(a)| == |b|;
    if |b| == 1 {
      assert a[0] in multiset(b);
    }
  }

  // ---------- rules ----------

  /** A relation is a rule exactly when it has that rule's pairs, in any order, and no others. */
  lemma RuleIsItsPairs(root: Id, members: seq<Member>, r: RuleRoles, rule: AuthRule)
    requires DistinctRuleRoles(r)
    ensures AuthRuleOf(root, members, r) == Ok(rule) <==>
            rule.root == root && multiset(Pairs(members)) == multiset(RulePairs(r, rule))
  {
    hide ForRole, Filled, Fills, DistinctFields, ClosedRoles, AllowedRoles;
    RuleFieldsDistinct(r, rule);
    FillsExactly(members, RuleFields(r, rule));
    RuleFills(root, members, r, rule);
  }

  lemma RuleFieldsDistinct(r: RuleRoles, rule: AuthRule)
    requires DistinctRuleRoles(r)
    ensures DistinctFields(RuleFields(r, rule))
  {
    var roles := [r.effect, r.principal, r.object_, r.action, r.interface_, r.purpose, r.tenant, r.assurance,
                  r.classification, r.audience, r.lifecycleState, r.operationalState, r.subjectRelation, r.expiresAt,
                  r.maxInvocations];
    assert forall k :: 0 <= k < |RuleFields(r, rule)| ==> RuleFields(r, rule)[k].0 == roles[k];
  }

  lemma RuleFills(root: Id, members: seq<Member>, r: RuleRoles, rule: AuthRule)
    ensures AuthRuleOf(root, members, r) == Ok(rule) <==>
            rule.root == root && Fills(members, RuleFields(r, rule))
  {
    hide ForRole, Fills, ClosedRoles, AllowedRoles, Single, AtMostOne, RuleFields;
    OneField(members, r.effect, rule.effect);
    OneField(members, r.principal, rule.principal);
    OneField(members, r.object_, rule.object_);
    OneField(members, r.action, rule.action);
    OptionalField(members, r.interface_, rule.interface_);
    OptionalField(members, r.purpose, rule.purpose);
    OptionalField(members, r.tenant, rule.tenant);
    OptionalField(members, r.assurance, rule.assurance);
    OptionalField(members, r.classification, rule.classification);
    OptionalField(members, r.audience, rule.audience);
    OptionalField(members, r.lifecycleState, rule.lifecycleState);
    OptionalField(members, r.operationalState, rule.operationalState);
    OptionalField(members, r.subjectRelation, rule.subjectRelation);
    OptionalField(members, r.expiresAt, rule.expiresAt);
    OptionalField(members, r.maxInvocations, rule.maxInvocations);
    RuleFillsFieldwise(members, r, rule);
  }

  predicate RuleHas(members: seq<Member>, r: RuleRoles, rule: AuthRule) {
    && Has(members, r.effect, [rule.effect]) && Has(members, r.principal, [rule.principal])
    && Has(members, r.object_, [rule.object_]) && Has(members, r.action, [rule.action])
    && Has(members, r.interface_, Optional(rule.interface_))
    && Has(members, r.purpose, Optional(rule.purpose)) && Has(members, r.tenant, Optional(rule.tenant))
    && Has(members, r.assurance, Optional(rule.assurance))
    && Has(members, r.classification, Optional(rule.classification))
    && Has(members, r.audience, Optional(rule.audience))
    && Has(members, r.lifecycleState, Optional(rule.lifecycleState))
    && Has(members, r.operationalState, Optional(rule.operationalState))
    && Has(members, r.subjectRelation, Optional(rule.subjectRelation))
    && Has(members, r.expiresAt, Optional(rule.expiresAt))
    && Has(members, r.maxInvocations, Optional(rule.maxInvocations))
  }

  lemma RuleFillsFieldwise(members: seq<Member>, r: RuleRoles, rule: AuthRule)
    ensures Fills(members, RuleFields(r, rule)) <==>
            ClosedRoles(members, AllowedRoles(r)) && RuleHas(members, r, rule)
  {
    hide ForRole, AllowedRoles, Has, Fills, ClosedRoles, AllHave;
    FillsByRole(members, r, rule);
    EachHas(members, r, rule);
  }

  lemma EachHas(members: seq<Member>, r: RuleRoles, rule: AuthRule)
    ensures AllHave(members, RuleFields(r, rule)) <==> RuleHas(members, r, rule)
  {
    hide Has, Optional;
    var fields := RuleFields(r, rule);
    assert |fields| == 15;
    if AllHave(members, fields) {
      assert Has(members, fields[0].0, fields[0].1) && Has(members, fields[1].0, fields[1].1)
             && Has(members, fields[2].0, fields[2].1) && Has(members, fields[3].0, fields[3].1)
             && Has(members, fields[4].0, fields[4].1) && Has(members, fields[5].0, fields[5].1)
             && Has(members, fields[6].0, fields[6].1) && Has(members, fields[7].0, fields[7].1)
             && Has(members, fields[8].0, fields[8].1) && Has(members, fields[9].0, fields[9].1)
             && Has(members, fields[10].0, fields[10].1) && Has(members, fields[11].0, fields[11].1)
             && Has(members, fields[12].0, fields[12].1) && Has(members, fields[13].0, fields[13].1)
             && Has(members, fields[14].0, fields[14].1);
    }
  }

  lemma FillsByRole(members: seq<Member>, r: RuleRoles, rule: AuthRule)
    ensures Fills(members, RuleFields(r, rule)) <==>
            ClosedRoles(members, AllowedRoles(r)) && AllHave(members, RuleFields(r, rule))
  {
    hide ForRole, AllowedRoles, RuleFields;
    var fields := RuleFields(r, rule);
    forall role
      ensures role in AllowedRoles(r) <==> HasRole(fields, role)
    {
      RuleRole(r, rule, role);
    }
    SameRoles(members, fields, AllowedRoles(r));
  }

  lemma SameRoles(members: seq<Member>, fields: seq<Field>, admitted: set<Id>)
    requires forall role :: role in admitted <==> HasRole(fields, role)
    ensures Fills(members, fields) <==> ClosedRoles(members, admitted) && AllHave(members, fields)
  {
    hide Has, HasRole;
  }

  lemma RuleRole(r: RuleRoles, rule: AuthRule, role: Id)
    ensures var fields := RuleFields(r, rule);
            role in AllowedRoles(r) <==> HasRole(fields, role)
  {
    var fields := RuleFields(r, rule);
    assert fields[0].0 == r.effect && fields[1].0 == r.principal && fields[2].0 == r.object_
           && fields[3].0 == r.action && fields[4].0 == r.interface_ && fields[5].0 == r.purpose
           && fields[6].0 == r.tenant && fields[7].0 == r.assurance && fields[8].0 == r.classification
           && fields[9].0 == r.audience && fields[10].0 == r.lifecycleState && fields[11].0 == r.operationalState
           && fields[12].0 == r.subjectRelation && fields[13].0 == r.expiresAt && fields[14].0 == r.maxInvocations;
  }

  lemma OneField(members: seq<Member>, role: Id, value: Id)
    ensures Single(members, role) == Ok(value) <==> Has(members, role, [value])
  {
    hide ForRole;
    var values := ForRole(members, role);
    if Has(members, role, [value]) {
      ShortIsItself(values, [value]);
    }
  }

  lemma OptionalField(members: seq<Member>, role: Id, value: Option<Id>)
    ensures AtMostOne(members, role) == Ok(value) <==> Has(members, role, Optional(value))
  {
    hide ForRole;
    var values := ForRole(members, role);
    if Has(members, role, Optional(value)) {
      ShortIsItself(values, Optional(value));
    }
  }

  /** A rule that was written reads back as itself, wherever its cells and what they name are. */
  lemma WrittenRuleReads(g: Graph, p: AuthProtocol, rule: AuthRule)
    requires DistinctRuleRoles(p.ruleRoles) && rule.root != Null
    requires Holds(g, Composed(rule.root, RulePairs(p.ruleRoles, rule)))
    ensures ReadAuthRule(g, p, rule.root).Ok? <==> Present(g, RulePairs(p.ruleRoles, rule))
    ensures ReadAuthRule(g, p, rule.root).Ok? ==> ReadAuthRule(g, p, rule.root).value == rule
  {
    hide AuthRuleOf, RulePairs, Composed, Holds, Present, MembersFrom, ReadRelation, DistinctRuleRoles;
    var pairs := RulePairs(p.ruleRoles, rule);
    AtMostFifteen(p.ruleRoles, rule);
    ReadComposed(g, rule.root, pairs, RULE_BUDGET);
    assert Pairs(Members(rule.root, pairs)) == pairs by {
      PairsOfMembers(rule.root, pairs);
    }
    RuleIsItsPairs(rule.root, Members(rule.root, pairs), p.ruleRoles, rule);
  }

  lemma PairsOfMembers(root: Id, pairs: seq<Pair>)
    ensures Pairs(Members(root, pairs)) == pairs
  {
  }

  lemma AtMostFifteen(r: RuleRoles, rule: AuthRule)
    ensures |RulePairs(r, rule)| <= 15
  {
    FilledSize(RuleFields(r, rule));
  }

  lemma {:induction false} FilledSize(fields: seq<Field>)
    requires forall k :: 0 <= k < |fields| ==> |fields[k].1| <= 1
    ensures |Filled(fields)| <= |fields|
  {
    if fields != [] {
      FilledSize(fields[1..]);
    }
  }

  // ---------- policies ----------

  /** A relation is a policy exactly when it has that policy's pairs, in any order but that of its rules. */
  lemma PolicyIsItsPairs(g: Graph, p: AuthProtocol, root: Id, policy: Policy)
    requires DistinctPolicyRoles(p.policyRoles)
    ensures ReadPolicy(g, p, root) == Ok(policy) <==>
            && policy.root == root && NoRepeat(policy.rules) && ReadRelation(g, root, POLICY_BUDGET).Ok?
            && var pairs := Pairs(ReadRelation(g, root, POLICY_BUDGET).value);
               && multiset(pairs) == multiset(PolicyPairs(p.policyRoles, policy))
               && Under(pairs, p.policyRoles.ruleMember) == policy.rules
  {
    hide ForRole, Filled, Fills, DistinctFields, Under, ReadRelation, NoRepeat, DistinctPolicyRoles;
    var read, r := ReadRelation(g, root, POLICY_BUDGET), p.policyRoles;
    if read.Ok? {
      PolicyFieldsDistinct(r, policy);
      FillsExactly(read.value, PolicyFields(r, policy));
      ForRoleIsUnder(read.value, r.ruleMember);
      OneField(read.value, r.version, policy.version);
      OneField(read.value, r.lifecycle, policy.lifecycle);
      OneField(read.value, r.digest, policy.digest);
      PolicyFillsFieldwise(read.value, r, policy);
    }
  }

  lemma PolicyFieldsDistinct(r: PolicyRoles, policy: Policy)
    requires DistinctPolicyRoles(r)
    ensures DistinctFields(PolicyFields(r, policy))
  {
    var roles := [r.ruleMember, r.version, r.lifecycle, r.digest];
    assert forall k :: 0 <= k < |PolicyFields(r, policy)| ==> PolicyFields(r, policy)[k].0 == roles[k];
  }

  lemma PolicyFillsFieldwise(members: seq<Member>, r: PolicyRoles, policy: Policy)
    ensures Fills(members, PolicyFields(r, policy)) <==>
            && ClosedRoles(members, {r.ruleMember, r.version, r.lifecycle, r.digest})
            && Has(members, r.ruleMember, policy.rules) && Has(members, r.version, [policy.version])
            && Has(members, r.lifecycle, [policy.lifecycle]) && Has(members, r.digest, [policy.digest])
  {
    hide ForRole;
    var fields := PolicyFields(r, policy);
    assert |fields| == 4;
    assert fields[0].0 == r.ruleMember && fields[1].0 == r.version && fields[2].0 == r.lifecycle
           && fields[3].0 == r.digest;
    assert Fills(members, fields)
           <==> ClosedRoles(members, {r.ruleMember, r.version, r.lifecycle, r.digest})
                && forall k :: 0 <= k < 4 ==> Has(members, fields[k].0, fields[k].1);
  }

  /** A policy that was written reads back as itself, its rules in order, within its budget. */
  lemma WrittenPolicyReads(g: Graph, p: AuthProtocol, policy: Policy)
    requires DistinctPolicyRoles(p.policyRoles) && policy.root != Null
    requires Holds(g, Composed(policy.root, PolicyPairs(p.policyRoles, policy)))
    ensures ReadPolicy(g, p, policy.root).Ok?
            <==> && Present(g, PolicyPairs(p.policyRoles, policy)) && |policy.rules| + 3 <= POLICY_BUDGET
                 && NoRepeat(policy.rules)
    ensures ReadPolicy(g, p, policy.root).Ok? ==> ReadPolicy(g, p, policy.root).value == policy
  {
    hide Composed, Holds, Present, MembersFrom, ReadRelation, DistinctPolicyRoles, PolicyFields, Filled, Under,
      ForRole, ClosedRoles, NoRepeat;
    var pairs := PolicyPairs(p.policyRoles, policy);
    PolicySize(p.policyRoles, policy);
    ReadComposed(g, policy.root, pairs, POLICY_BUDGET);
    var members := Members(policy.root, pairs);
    PairsOfMembers(policy.root, pairs);
    PolicyFieldsDistinct(p.policyRoles, policy);
    UnderFilled(PolicyFields(p.policyRoles, policy), p.policyRoles.ruleMember);
    RulesFirst(p.policyRoles, policy);
    ForRoleIsUnder(members, p.policyRoles.ruleMember);
    PolicyIsItsPairs(g, p, policy.root, policy);
  }

  lemma RulesFirst(r: PolicyRoles, policy: Policy)
    ensures |PolicyFields(r, policy)| == 4 && PolicyFields(r, policy)[0] == (r.ruleMember, policy.rules)
  {
  }

  lemma PolicySize(r: PolicyRoles, policy: Policy)
    ensures |PolicyPairs(r, policy)| == |policy.rules| + 3
  {
    var fields := PolicyFields(r, policy);
    assert Tagged(r.version, [policy.version]) == [(r.version, policy.version)];
    assert Tagged(r.lifecycle, [policy.lifecycle]) == [(r.lifecycle, policy.lifecycle)];
    assert Tagged(r.digest, [policy.digest]) == [(r.digest, policy.digest)];
    var first, second, third := fields[1..], fields[1..][1..], fields[1..][1..][1..];
    assert Filled(third) == Tagged(r.digest, [policy.digest]) + Filled(third[1..]);
    assert Filled(second) == Tagged(r.lifecycle, [policy.lifecycle]) + Filled(third);
    assert Filled(first) == Tagged(r.version, [policy.version]) + Filled(second);
  }
}
