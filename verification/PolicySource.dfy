/** The released authorization policy that the compiler starts from: its rules and digest as the
    graph holds them, and the decision it makes on a request. */
module PolicySource {
  import opened Octets
  import opened Wrappers
  import opened CellGraph
  import opened HornLogic

  datatype RuleRoles = RuleRoles(
    effect: Id, principal: Id, object_: Id, action: Id, interface_: Id, purpose: Id, tenant: Id, assurance: Id,
    classification: Id, audience: Id, lifecycleState: Id, operationalState: Id, subjectRelation: Id,
    expiresAt: Id, maxInvocations: Id)

  datatype PolicyRoles = PolicyRoles(ruleMember: Id, version: Id, lifecycle: Id, digest: Id)

  datatype AuthProtocol = AuthProtocol(
    ruleRoles: RuleRoles, policyRoles: PolicyRoles, actions: set<Id>, permit: Id, forbid: Id, released: Id)

  datatype AuthRule = AuthRule(
    root: Id, effect: Id, principal: Id, object_: Id, action: Id,
    interface_: Option<Id>, purpose: Option<Id>, tenant: Option<Id>, assurance: Option<Id>,
    classification: Option<Id>, audience: Option<Id>, lifecycleState: Option<Id>, operationalState: Option<Id>,
    subjectRelation: Option<Id>, expiresAt: Option<Id>, maxInvocations: Option<Id>)

  datatype Policy = Policy(root: Id, rules: seq<Id>, version: Id, lifecycle: Id, digest: Id)

  const RULE_BUDGET: nat := 128
  const POLICY_BUDGET: nat := 100_000

  // ---------- reading ----------

  function AtMostOne(members: seq<Member>, role: Id): Result<Option<Id>, Fault> {
    var values := ForRole(members, role);
    if |values| > 1 then Err(InvalidCell) else Ok(if values == [] then None else Some(values[0]))
  }

  function AllowedRoles(r: RuleRoles): set<Id> {
    {r.effect, r.principal, r.object_, r.action, r.interface_, r.purpose, r.tenant, r.assurance, r.classification,
     r.audience, r.lifecycleState, r.operationalState, r.subjectRelation, r.expiresAt, r.maxInvocations}
  }

  function AuthRuleOf(root: Id, members: seq<Member>, r: RuleRoles): Result<AuthRule, Fault> {
    if !ClosedRoles(members, AllowedRoles(r)) then Err(InvalidCell)
    else
      var effect :- Single(members, r.effect);
      var principal :- Single(members, r.principal);
      var object_ :- Single(members, r.object_);
      var action :- Single(members, r.action);
      var interface_ :- AtMostOne(members, r.interface_);
      var purpose :- AtMostOne(members, r.purpose);
      var tenant :- AtMostOne(members, r.tenant);
      var assurance :- AtMostOne(members, r.assurance);
      var classification :- AtMostOne(members, r.classification);
      var audience :- AtMostOne(members, r.audience);
      var lifecycleState :- AtMostOne(members, r.lifecycleState);
      var operationalState :- AtMostOne(members, r.operationalState);
      var subjectRelation :- AtMostOne(members, r.subjectRelation);
      var expiresAt :- AtMostOne(members, r.expiresAt);
      var maxInvocations :- AtMostOne(members, r.maxInvocations);
      Ok(AuthRule(root, effect, principal, object_, action, interface_, purpose, tenant, assurance, classification,
                  audience, lifecycleState, operationalState, subjectRelation, expiresAt, maxInvocations))
  }

  function ReadAuthRule(g: Graph, p: AuthProtocol, root: Id): Result<AuthRule, Fault> {
    var members :- ReadRelation(g, root, RULE_BUDGET);
    AuthRuleOf(root, members, p.ruleRoles)
  }

  function ReadAuthRules(g: Graph, p: AuthProtocol, roots: seq<Id>): Result<seq<AuthRule>, Fault> {
    if roots == [] then Ok([])
    else
      var first :- ReadAuthRule(g, p, roots[0]);
      var rest :- ReadAuthRules(g, p, roots[1..]);
      Ok([first] + rest)
  }

  function ReadPolicy(g: Graph, p: AuthProtocol, root: Id): Result<Policy, Fault> {
    var members :- ReadRelation(g, root, POLICY_BUDGET);
    var r := p.policyRoles;
    if !ClosedRoles(members, {r.ruleMember, r.version, r.lifecycle, r.digest}) then Err(InvalidCell)
    else
      var version :- Single(members, r.version);
      var lifecycle :- Single(members, r.lifecycle);
      var digest :- Single(members, r.digest);
      var rules := ForRole(members, r.ruleMember);
      if !NoRepeat(rules) then Err(InvalidCell) else Ok(Policy(root, rules, version, lifecycle, digest))
  }

  // ---------- digests ----------

  /** Text of identities and the hash over a list of length-prefixed fields. */
  datatype Coding = Coding(text: Id -> Bytes, hash: seq<Bytes> -> Bytes)
  {
    ghost predicate Injective() {
      (forall a, b :: text(a) == text(b) ==> a == b) && (forall s, t :: hash(s) == hash(t) ==> s == t)
    }
  }

  function MemberFields(g: Graph, p: AuthProtocol, members: seq<Member>, c: Coding): seq<Bytes> {
    if members == [] then []
    else
      var m := members[0];
      [c.text(m.role), c.text(m.participant)]
      + (if m.role in {p.ruleRoles.expiresAt, p.ruleRoles.maxInvocations} && m.participant in g
         then [g[m.participant].atom] else [])
      + MemberFields(g, p, members[1..], c)
  }

  function RuleDigest(g: Graph, p: AuthProtocol, root: Id, c: Coding): Result<Bytes, Fault> {
    var _ :- ReadAuthRule(g, p, root);
    var members :- ReadRelation(g, root, RULE_BUDGET);
    Ok(c.hash([c.text(root)] + MemberFields(g, p, members, c)))
  }

  function RuleDigests(g: Graph, p: AuthProtocol, roots: seq<Id>, c: Coding): Result<seq<Bytes>, Fault> {
    if roots == [] then Ok([])
    else
      var first :- RuleDigest(g, p, roots[0], c);
      var rest :- RuleDigests(g, p, roots[1..], c);
      Ok([first] + rest)
  }

  function PolicyDigest(g: Graph, p: AuthProtocol, policy: Policy, c: Coding): Result<Bytes, Fault> {
    if policy.version !in g then Err(InvalidCell)
    else
      var rules :- RuleDigests(g, p, policy.rules, c);
      Ok(c.hash([c.text(policy.root), g[policy.version].atom] + rules))
  }

  /** A released policy whose recorded digest is the digest of what the graph holds. */
  function VerifyPolicy(g: Graph, p: AuthProtocol, root: Id, c: Coding): Result<Policy, Fault> {
    var policy :- ReadPolicy(g, p, root);
    if policy.lifecycle != p.released || policy.digest !in g then Err(InvalidCell)
    else
      var actual :- PolicyDigest(g, p, policy, c);
      if g[policy.digest].atom == [] || g[policy.digest].atom != actual then Err(InvalidCell) else Ok(policy)
  }

  function Pairs(members: seq<Member>): (r: seq<Pair>)
    ensures |r| == |members| && forall k :: 0 <= k < |r| ==> r[k] == (members[k].role, members[k].participant)
  {
    seq(|members|, k requires 0 <= k < |members| => (members[k].role, members[k].participant))
  }

  lemma {:induction false} SamePairsSameRoles(a: seq<Member>, b: seq<Member>, role: Id)
    requires Pairs(a) == Pairs(b)
    ensures ForRole(a, role) == ForRole(b, role)
  {
    if a != [] {
      assert |a| == |b| && Pairs(a)[0] == Pairs(b)[0];
      assert forall k :: 0 <= k < |a[1..]| ==>
             Pairs(a[1..])[k] == Pairs(a)[k + 1] && Pairs(b[1..])[k] == Pairs(b)[k + 1];
      SamePairsSameRoles(a[1..], b[1..], role);
    }
  }

  /** Which rule a relation is depends on its roles and participants only. */
  lemma SamePairsSameRule(root: Id, a: seq<Member>, b: seq<Member>, r: RuleRoles)
    requires Pairs(a) == Pairs(b)
    ensures AuthRuleOf(root, a, r) == AuthRuleOf(root, b, r)
  {
    hide ForRole, AllowedRoles;
    forall role
      ensures ForRole(a, role) == ForRole(b, role)
    {
      SamePairsSameRoles(a, b, role);
    }
    assert forall k :: 0 <= k < |a| ==> a[k].role == Pairs(a)[k].0 == Pairs(b)[k].0 == b[k].role;
    assert |a| == |b|;
  }

  lemma {:induction false} FieldsPinMembers(g: Graph, h: Graph, p: AuthProtocol, a: seq<Member>, b: seq<Member>,
                                            c: Coding)
    requires c.Injective() && MemberFields(g, p, a, c) == MemberFields(h, p, b, c)
    requires forall k :: 0 <= k < |a| ==> a[k].participant in g
    requires forall k :: 0 <= k < |b| ==> b[k].participant in h
    ensures Pairs(a) == Pairs(b)
  {
    if a == [] {
      assert |MemberFields(g, p, a, c)| == 0;
    } else {
      var fa, fb := MemberFields(g, p, a, c), MemberFields(h, p, b, c);
      assert fa[0] == c.text(a[0].role) && fa[1] == c.text(a[0].participant);
      assert b != [] && fb[0] == c.text(b[0].role) && fb[1] == c.text(b[0].participant);
      var n := if a[0].role in {p.ruleRoles.expiresAt, p.ruleRoles.maxInvocations} then 3 else 2;
      assert fa[n..] == MemberFields(g, p, a[1..], c);
      assert fb[n..] == MemberFields(h, p, b[1..], c);
      FieldsPinMembers(g, h, p, a[1..], b[1..], c);
      assert forall k :: 0 < k < |a| ==> Pairs(a)[k] == Pairs(a[1..])[k - 1];
      assert forall k :: 0 < k < |b| ==> Pairs(b)[k] == Pairs(b[1..])[k - 1];
      assert |a[1..]| == |Pairs(a[1..])| == |b[1..]|;
    }
  }

  lemma RuleDigestPins(g: Graph, h: Graph, p: AuthProtocol, a: Id, b: Id, c: Coding)
    requires c.Injective() && RuleDigest(g, p, a, c).Ok? && RuleDigest(g, p, a, c) == RuleDigest(h, p, b, c)
    ensures a == b && ReadAuthRule(g, p, a).Ok? && ReadAuthRule(g, p, a) == ReadAuthRule(h, p, b)
  {
    hide AuthRuleOf, MemberFields;
    var ma, mb := ReadRelation(g, a, RULE_BUDGET).value, ReadRelation(h, b, RULE_BUDGET).value;
    var fa, fb := [c.text(a)] + MemberFields(g, p, ma, c), [c.text(b)] + MemberFields(h, p, mb, c);
    assert fa == fb;
    assert fa[0] == c.text(a) && fb[0] == c.text(b);
    assert fa[1..] == MemberFields(g, p, ma, c) && fb[1..] == MemberFields(h, p, mb, c);
    WalkMembersPresent(g, a, {}, RULE_BUDGET);
    WalkMembersPresent(h, b, {}, RULE_BUDGET);
    FieldsPinMembers(g, h, p, ma, mb, c);
    SamePairsSameRule(a, ma, mb, p.ruleRoles);
  }

  lemma {:induction false} RuleDigestsPin(g: Graph, h: Graph, p: AuthProtocol, a: seq<Id>, b: seq<Id>, c: Coding)
    requires c.Injective() && RuleDigests(g, p, a, c).Ok? && RuleDigests(g, p, a, c) == RuleDigests(h, p, b, c)
    ensures a == b && ReadAuthRules(g, p, a).Ok? && ReadAuthRules(g, p, a) == ReadAuthRules(h, p, b)
  {
    hide RuleDigest, ReadAuthRule;
    if a == [] || b == [] {
      assert |RuleDigests(g, p, a, c).value| == |RuleDigests(h, p, b, c).value|;
    } else {
      var da, db := RuleDigests(g, p, a, c).value, RuleDigests(h, p, b, c).value;
      assert da[0] == db[0] && da[1..] == RuleDigests(g, p, a[1..], c).value
             && db[1..] == RuleDigests(h, p, b[1..], c).value;
      RuleDigestPins(g, h, p, a[0], b[0], c);
      RuleDigestsPin(g, h, p, a[1..], b[1..], c);
      assert a == [a[0]] + a[1..] && b == [b[0]] + b[1..];
    }
  }

  /** Two graphs in which the policy verifies with the same recorded digest hold the same rules. */
  lemma DigestPinsRules(g: Graph, h: Graph, p: AuthProtocol, root: Id, c: Coding)
    requires c.Injective() && VerifyPolicy(g, p, root, c).Ok? && VerifyPolicy(h, p, root, c).Ok?
    requires g[VerifyPolicy(g, p, root, c).value.digest].atom == h[VerifyPolicy(h, p, root, c).value.digest].atom
    ensures var a, b := VerifyPolicy(g, p, root, c).value, VerifyPolicy(h, p, root, c).value;
            && a.rules == b.rules && ReadAuthRules(g, p, a.rules).Ok?
            && ReadAuthRules(h, p, b.rules) == ReadAuthRules(g, p, a.rules)
  {
    hide RuleDigests, ReadAuthRules, ReadPolicy;
    var a, b := VerifyPolicy(g, p, root, c).value, VerifyPolicy(h, p, root, c).value;
    var da, db := RuleDigests(g, p, a.rules, c).value, RuleDigests(h, p, b.rules, c).value;
    var fa, fb := [c.text(a.root), g[a.version].atom] + da, [c.text(b.root), h[b.version].atom] + db;
    assert c.hash(fa) == c.hash(fb);
    assert fa == fb && fa[2..] == da && fb[2..] == db;
    RuleDigestsPin(g, h, p, a.rules, b.rules, c);
  }

  // ---------- the decision ----------

  datatype Identity = Identity(subject: Id, principals: seq<Id>, tenant: Option<Id>, assurance: Option<Id>)

  datatype Request = Request(
    action: Id, object_: Id, lineage: seq<Id>, interface_: Option<Id>, purpose: Option<Id>, classification: Option<Id>,
    audience: Option<Id>, lifecycleState: Option<Id>, operationalState: Option<Id>, invocations: int)

  /** The clock, and the text of an expiry or a limit as a number where it is one. */
  datatype Clock = Clock(now: real, expiry: Bytes -> Option<real>, limit: Bytes -> Option<int>)

  datatype Reason = ExplicitForbid | ExplicitPermit | DefaultDeny

  datatype Decision = Decision(allowed: bool, determining: seq<Id>, reason: Reason)

  predicate Met(required: Option<Id>, actual: Option<Id>) {
    required.Some? ==> required == actual
  }

  predicate HasMember(members: seq<Member>, role: Id, participant: Id) {
    exists k :: 0 <= k < |members| && members[k].role == role && members[k].participant == participant
  }

  predicate ConditionsMet(rule: AuthRule, identity: Identity, request: Request) {
    && rule.principal in identity.principals
    && (rule.object_ == request.object_ || rule.object_ in request.lineage)
    && rule.action == request.action
    && Met(rule.tenant, identity.tenant) && Met(rule.assurance, identity.assurance)
    && Met(rule.interface_, request.interface_) && Met(rule.purpose, request.purpose)
    && Met(rule.classification, request.classification) && Met(rule.audience, request.audience)
    && Met(rule.lifecycleState, request.lifecycleState) && Met(rule.operationalState, request.operationalState)
  }

  /** The subject's membership in the object's relation, where the rule asks for it. */
  function RelationMet(g: Graph, rule: AuthRule, identity: Identity, request: Request): Result<bool, Fault> {
    if rule.subjectRelation.None? then Ok(true)
    else
      var members :- ReadRelation(g, request.object_, POLICY_BUDGET);
      Ok(HasMember(members, rule.subjectRelation.value, identity.subject))
  }

  function NotExpired(g: Graph, rule: AuthRule, clock: Clock): Result<bool, Fault> {
    if rule.expiresAt.None? then Ok(true)
    else if rule.expiresAt.value !in g then Err(InvalidCell)
    else
      var at := clock.expiry(g[rule.expiresAt.value].atom);
      if at.None? then Err(InvalidCell) else Ok(clock.now < at.value)
  }

  function WithinLimit(g: Graph, rule: AuthRule, request: Request, clock: Clock): Result<bool, Fault> {
    if rule.maxInvocations.None? then Ok(true)
    else if rule.maxInvocations.value !in g then Err(InvalidCell)
    else
      var limit := clock.limit(g[rule.maxInvocations.value].atom);
      if limit.None? then Err(InvalidCell) else Ok(0 <= request.invocations < limit.value)
  }

  function RuleMatches(g: Graph, rule: AuthRule, identity: Identity, request: Request,
                       clock: Clock): Result<bool, Fault> {
    if !ConditionsMet(rule, identity, request) then Ok(false)
    else
      var related :- RelationMet(g, rule, identity, request);
      if !related then Ok(false)
      else
        var live :- NotExpired(g, rule, clock);
        if !live then Ok(false) else WithinLimit(g, rule, request, clock)
  }

  function MatchingRoots(g: Graph, rules: seq<AuthRule>, effect: Id, identity: Identity, request: Request,
                         clock: Clock): seq<Id> {
    if rules == [] then []
    else
      Listed(g, rules[0], effect, identity, request, clock)
      + MatchingRoots(g, rules[1..], effect, identity, request, clock)
  }

  function Listed(g: Graph, rule: AuthRule, effect: Id, identity: Identity, request: Request, clock: Clock): seq<Id> {
    if rule.effect == effect && RuleMatches(g, rule, identity, request, clock) == Ok(true) then [rule.root] else []
  }

  /** Whether a rule can be judged, and has one of the two effects if it matches. */
  predicate Judged(g: Graph, p: AuthProtocol, rule: AuthRule, identity: Identity, request: Request, clock: Clock) {
    var m := RuleMatches(g, rule, identity, request, clock);
    m.Ok? && (m.value ==> rule.effect == p.permit || rule.effect == p.forbid)
  }

  predicate Named(g: Graph, root: Option<Id>) {
    root.Some? ==> root.value in g
  }

  /** Identities and request name cells of the graph, and the action is declared. */
  predicate Answerable(g: Graph, p: AuthProtocol, identity: Identity, request: Request) {
    && identity.subject in g && (forall k :: 0 <= k < |identity.principals| ==> identity.principals[k] in g)
    && Named(g, identity.tenant) && Named(g, identity.assurance)
    && request.action in p.actions && request.invocations >= 0
    && request.action in g && request.object_ in g
       && (forall k :: 0 <= k < |request.lineage| ==> request.lineage[k] in g)
    && Named(g, request.interface_) && Named(g, request.purpose) && Named(g, request.classification)
    && Named(g, request.audience) && Named(g, request.lifecycleState) && Named(g, request.operationalState)
  }

  /** The source's own evaluation: default deny, and a forbid overrides every permit. */
  method Evaluate(g: Graph, p: AuthProtocol, rules: seq<AuthRule>, identity: Identity, request: Request, clock: Clock)
    returns (r: Result<Decision, Fault>)
    ensures r.Ok? <==> Answerable(g, p, identity, request)
                       && forall k :: 0 <= k < |rules| ==> Judged(g, p, rules[k], identity, request, clock)
    ensures r.Ok? ==> r.value == SourceDecision(g, p, rules, identity, request, clock)
  {
    hide RuleMatches, Answerable, MatchingRoots;
    if !Answerable(g, p, identity, request) {
      return Err(InvalidCell);
    }
    var permits: seq<Id>, forbids: seq<Id> := [], [];
    ghost var n := |rules|;
    assert rules[..0] == [] && rules[..n] == rules;
    RootsSoFar(g, rules, 0, p.forbid, identity, request, clock);
    RootsSoFar(g, rules, 0, p.permit, identity, request, clock);
    for i := 0 to |rules|
      invariant forall k :: 0 <= k < i ==> Judged(g, p, rules[k], identity, request, clock)
      invariant forbids == MatchingRoots(g, rules[..i], p.forbid, identity, request, clock)
      invariant permits
                == if p.permit == p.forbid then [] else MatchingRoots(g, rules[..i], p.permit, identity, request, clock)
    {
      RootsSoFar(g, rules, i + 1, p.forbid, identity, request, clock);
      RootsSoFar(g, rules, i + 1, p.permit, identity, request, clock);
      var matches := RuleMatches(g, rules[i], identity, request, clock);
      if matches.Err? {
        assert !Judged(g, p, rules[i], identity, request, clock);
        return Err(matches.error);
      }
      if matches.value {
        if rules[i].effect == p.forbid {
          forbids := forbids + [rules[i].root];
        } else if rules[i].effect == p.permit {
          permits := permits + [rules[i].root];
        } else {
          assert !Judged(g, p, rules[i], identity, request, clock);
          return Err(InvalidCell);
        }
      }
    }
    if forbids != [] {
      return Ok(Decision(false, forbids, ExplicitForbid));
    }
    if permits != [] {
      return Ok(Decision(true, permits, ExplicitPermit));
    }
    return Ok(Decision(false, [], DefaultDeny));
  }

  /** The listed roots of a longer prefix end with what its last rule lists. */
  lemma {:induction false} RootsSoFar(g: Graph, rules: seq<AuthRule>, i: nat, effect: Id, identity: Identity,
                                      request: Request,
                                      clock: Clock)
    requires i <= |rules|
    ensures MatchingRoots(g, rules[..i], effect, identity, request, clock)
         == if i == 0 then [] else MatchingRoots(g, rules[..i - 1], effect, identity, request, clock)
                                   + Listed(g, rules[i - 1], effect, identity, request, clock)
    decreases i
  {
    hide Listed;
    if i == 1 {
      assert rules[..1][1..] == [] == rules[..0];
    } else if i > 1 {
      assert rules[..i][1..] == rules[1..][..i - 1] && rules[..i - 1][1..] == rules[1..][..i - 2];
      RootsSoFar(g, rules[1..], i - 1, effect, identity, request, clock);
    }
  }

  function SourceDecision(g: Graph, p: AuthProtocol, rules: seq<AuthRule>, identity: Identity, request: Request,
                          clock: Clock): Decision {
    var forbids := MatchingRoots(g, rules, p.forbid, identity, request, clock);
    var permits := MatchingRoots(g, rules, p.permit, identity, request, clock);
    if forbids != [] then Decision(false, forbids, ExplicitForbid)
    else if permits != [] then Decision(true, permits, ExplicitPermit)
    else Decision(false, [], DefaultDeny)
  }

  /** A root is listed exactly when a rule of that effect and root matches. */
  lemma {:induction false} ListedRootsMatch(g: Graph, rules: seq<AuthRule>, effect: Id, identity: Identity,
                                            request: Request,
                                            clock: Clock, root: Id)
    ensures root in MatchingRoots(g, rules, effect, identity, request, clock) <==>
            exists k :: 0 <= k < |rules| && rules[k].root == root && rules[k].effect == effect
                        && RuleMatches(g, rules[k], identity, request, clock) == Ok(true)
  {
    hide RuleMatches;
    if rules != [] {
      ListedRootsMatch(g, rules[1..], effect, identity, request, clock, root);
      assert forall k :: 0 < k < |rules| ==> rules[k] == rules[1..][k - 1];
      assert forall k :: 0 <= k < |rules[1..]| ==> rules[1..][k] == rules[k + 1];
    }
  }

  /** The subject is under the role in the object's relation, which can be read. */
  predicate RelatedOn(g: Graph, relation: Id, object_: Id, subject: Id) {
    var read := ReadRelation(g, object_, POLICY_BUDGET);
    read.Ok? && exists m :: m in read.value && m.role == relation && m.participant == subject
  }

  /** A rule matches exactly when its principal, object and action are the request's, every optional field that it
      has is what the identity or the request says, its expiry is to come and its limit not reached. */
  lemma MatchesExactly(g: Graph, rule: AuthRule, identity: Identity, request: Request, clock: Clock)
    ensures RuleMatches(g, rule, identity, request, clock) == Ok(true) <==>
            && rule.principal in identity.principals && rule.object_ in [request.object_] + request.lineage
            && rule.action == request.action
            && rule.tenant in {None, identity.tenant} && rule.assurance in {None, identity.assurance}
            && rule.interface_ in {None, request.interface_} && rule.purpose in {None, request.purpose}
            && rule.classification in {None, request.classification} && rule.audience in {None, request.audience}
            && rule.lifecycleState in {None, request.lifecycleState}
            && rule.operationalState in {None, request.operationalState}
            && (rule.subjectRelation.Some? ==>
                  RelatedOn(g, rule.subjectRelation.value, request.object_, identity.subject))
            && (rule.expiresAt.Some? ==>
                  && rule.expiresAt.value in g && clock.expiry(g[rule.expiresAt.value].atom).Some?
                  && clock.expiry(g[rule.expiresAt.value].atom).value > clock.now)
            && (rule.maxInvocations.Some? ==>
                  && rule.maxInvocations.value in g && clock.limit(g[rule.maxInvocations.value].atom).Some?
                  && 0 <= request.invocations <= clock.limit(g[rule.maxInvocations.value].atom).value - 1)
  {
    hide ReadRelation;
    var read := ReadRelation(g, request.object_, POLICY_BUDGET);
    if read.Ok? && rule.subjectRelation.Some? {
      MemberIsIn(read.value, rule.subjectRelation.value, identity.subject);
    }
  }

  lemma MemberIsIn(members: seq<Member>, role: Id, participant: Id)
    ensures HasMember(members, role, participant) <==>
            exists m :: m in members && m.role == role && m.participant == participant
  {
    if m :| m in members && m.role == role && m.participant == participant {
      var k :| 0 <= k < |members| && members[k] == m;
    }
  }

  /** A request is answerable exactly when every root that the identity or the request names is in the graph,
      the action is declared and the invocations are a count. */
  lemma AnswerableExactly(g: Graph, p: AuthProtocol, identity: Identity, request: Request)
    ensures Answerable(g, p, identity, request) <==>
            && request.action in p.actions && 0 <= request.invocations
            && forall root ::
                 || root in [identity.subject] + identity.principals
                 || Some(root) in {identity.tenant, identity.assurance}
                 || root in [request.action, request.object_] + request.lineage
                 || Some(root) in {request.interface_, request.purpose, request.classification, request.audience,
                                   request.lifecycleState, request.operationalState} ==>
                   root in g
  {
    if Answerable(g, p, identity, request) {
      assert forall root :: root in identity.principals ==> root in g;
    }
  }
}
