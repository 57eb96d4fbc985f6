/** A list of action and object obligations, decided one after the other on a live store that other
    threads may commit to between any two steps. */
module PolicyObligations {
  import opened Wrappers
  import opened CellGraph
  import opened HornLogic
  import opened HornSolver
  import opened PolicyCompiler
  import opened PolicyEvaluation
  import Source = PolicySource

  datatype Refusal =
    | BadRequest | NotTheOwnersPolicy | BadObligations | NotAuthenticated | Moved | Stale
    | Evaluation(refusal: EvaluationRefusal)

  datatype Outcome = Outcome(revision: nat, allowed: bool, proofs: seq<(Id, Id, Proof)>)

  const MAX_PAIRS: nat := 32
  const PAIRS_BUDGET: nat := 64

  /** A captured context: the revision it was read at, and the stamp of the owner's selection and of
      the caller's authentication at that moment. */
  datatype Captured = Captured(revision: nat, owner: nat)

  /** The owner's authority: the policy, and who asks about an action on an object, as far as the
      graph authenticates it under the selection and authentication with this stamp. */
  datatype Authority = Authority(
    auth: Source.AuthProtocol, policy: Id, scope: Id, resolve: (Graph, nat, Id, Id) -> Option<Context>, evidence: nat)

  /** A resolved context is about the request it was captured for. */
  ghost predicate Resolves(a: Authority) {
    forall g, owner, action, object_ :: a.resolve(g, owner, action, object_).Some? ==>
      var ctx := a.resolve(g, owner, action, object_).value;
      ctx.action == action && ctx.object_ == object_ && ctx.scope == a.scope
  }

  /** The context's facts, as long as the budget covers them with their evidence. */
  function ProviderOf(predicates: Predicates, ctx: Context, evidence: nat): Provider {
    (pred: Id, p: Pattern, left: nat) =>
      var rows := Provided(predicates, ctx, pred, p);
      if |rows| * (evidence + 3) > left then Err(Exhausted) else Ok(rows)
  }

  /** A budget from which this provider answers: no context field has more facts than there are
      principals, or one. */
  function EnoughFor(ctx: Context, evidence: nat): nat {
    (|ctx.principals| + 1) * (evidence + 3)
  }

  lemma {:induction false} SinglesAreFew(values: seq<Id>, wanted: Option<Id>)
    ensures |Singles(values, wanted)| <= |values|
  {
    if values != [] {
      SinglesAreFew(values[1..], wanted);
    }
  }

  lemma {:induction false} FieldsAreFew(fields: seq<ContextField>, predicates: Predicates, ctx: Context, pred: Id)
    ensures |RowsUnder(fields, predicates, ctx, pred)| <= |ctx.principals| + 1
  {
    if fields != [] {
      FieldsAreFew(fields[1..], predicates, ctx, pred);
    }
  }

  lemma ProviderSupplies(predicates: Predicates, ctx: Context, evidence: nat)
    ensures ContextSupplies(ProviderOf(predicates, ctx, evidence), predicates, ctx, EnoughFor(ctx, evidence))
  {
    hide RowsUnder, Singles;
    forall pred: Id, p: Pattern, left: nat | left >= EnoughFor(ctx, evidence)
      ensures ProviderOf(predicates, ctx, evidence)(pred, p, left) == Ok(Provided(predicates, ctx, pred, p))
    {
      FieldsAreFew(FIELDS, predicates, ctx, pred);
      if |p| == 1 {
        SinglesAreFew(RowsUnder(FIELDS, predicates, ctx, pred), p[0]);
      }
      Fewer(|Provided(predicates, ctx, pred, p)|, |ctx.principals| + 1, evidence + 3);
    }
  }

  lemma Fewer(a: nat, b: nat, k: nat)
    requires a <= b
    ensures a * k <= b * k
  {
  }

  /** The source policy allows the request of this context: a permit applies and no forbid does. */
  ghost predicate AllowedBy(h: Graph, plan: Plan, c: Source.Coding, ctx: Context) {
    exists rules: seq<AuthRule> :: RulesIn(h, plan, c, rules) && Permitted(h, plan, rules, ctx)
  }

  ghost predicate DeniedBy(h: Graph, plan: Plan, c: Source.Coding, ctx: Context) {
    exists rules: seq<AuthRule> :: RulesIn(h, plan, c, rules) && !Permitted(h, plan, rules, ctx)
  }

  ghost predicate Permitted(h: Graph, plan: Plan, rules: seq<AuthRule>, ctx: Context) {
    (exists k :: Backs(h, rules, ctx, plan.permit, k)) && forall k :: !Backs(h, rules, ctx, plan.forbid, k)
  }

  lemma VerdictPermits(h: Graph, plan: Plan, rules: seq<AuthRule>, ctx: Context, answer: Answer)
    requires Verdict(h, plan, rules, ctx, ctx.subject, ctx.action, ctx.object_, answer)
    ensures answer.0 <==> Permitted(h, plan, rules, ctx)
    ensures answer.0 ==> answer.1.Some?
  {
    hide Applies;
  }

  /** Allowed and denied cannot both hold on one graph. */
  lemma OneVerdict(h: Graph, plan: Plan, c: Source.Coding, ctx: Context)
    ensures !(AllowedBy(h, plan, c, ctx) && DeniedBy(h, plan, c, ctx))
  {
    hide Backs, Source.VerifyPolicy, Source.ReadAuthRules;
  }

  /** What other threads do between two steps: commit a graph, or change the owner's selection or
      the caller's authentication. */
  datatype Foreign = Commit(graph: Graph) | Reselect(owner: nat)

  /** What has been committed and selected up to some moment. */
  ghost predicate Follows(before: Moment, after: Moment) {
    && before.revision <= after.revision && before.stamps <= after.stamps
    && forall k :: k in before.history ==> k in after.history && after.history[k] == before.history[k]
  }

  datatype Moment = Moment(revision: nat, history: map<nat, Graph>, stamps: seq<nat>)

  lemma FollowsOn(a: Moment, b: Moment, c: Moment)
    requires Follows(a, b) && Follows(b, c)
    ensures Follows(a, c)
  {
  }

  /** A stamp that was current at or after some moment stays so. */
  lemma StampStays(before: seq<nat>, after: seq<nat>, since: nat, owner: nat)
    requires before <= after && since <= |before| && owner in before[since..]
    ensures owner in after[since..]
  {
    assert before[since..] <= after[since..];
  }

  /** The store with its pending foreign steps, the current stamp of selection and authentication,
      and how often a context may still be validated before it expires. */
  class Runtime {
    var graph: Graph
    var revision: nat
    var owner: nat
    var pending: seq<seq<Foreign>>
    var patience: nat
    ghost var history: map<nat, Graph>
    /** The stamps in order of time; the last is the current one. */
    ghost var stamps: seq<nat>

    ghost predicate Valid()
      reads this
    {
      && revision in history && history[revision] == graph && (forall k :: k in history ==> k <= revision)
      && stamps != [] && stamps[|stamps| - 1] == owner
    }

    ghost function Now(): Moment
      reads this`revision, this`history, this`stamps
    {
      Moment(revision, history, stamps)
    }

    /** Other threads run: every commit is a new revision, every other selection a new stamp. */
    method Interfere()
      requires Valid()
      modifies this`graph, this`revision, this`owner, this`pending, this`history, this`stamps
      ensures Valid() && Follows(old(Now()), Now())
      ensures revision == old(revision) ==> graph == old(graph)
    {
      if pending == [] {
        return;
      }
      var steps := pending[0];
      pending := pending[1..];
      for i := 0 to |steps|
        invariant Valid() && Follows(old(Now()), Now())
        invariant revision == old(revision) ==> graph == old(graph)
      {
        match steps[i]
        case Commit(g) =>
          graph, revision := g, revision + 1;
          history := history[revision := graph];
        case Reselect(next) =>
          if next != owner {
            owner, stamps := next, stamps + [next];
          }
      }
    }

    /** Not expired, the store has not moved since the context was captured, and the selection and
        the authentication are those of the capture. */
    method Validate(captured: Captured) returns (ok: bool)
      requires Valid() && captured.revision in history
      modifies this
      ensures Valid() && Follows(old(Now()), Now())
      ensures ok ==> revision == captured.revision && graph == history[captured.revision] && owner == captured.owner
      ensures ok <==> old(patience) > 0 && revision == captured.revision && owner == captured.owner
      ensures patience == if old(patience) == 0 then 0 else old(patience) - 1
    {
      Interfere();
      if patience == 0 {
        return false;
      }
      patience := patience - 1;
      return revision == captured.revision && owner == captured.owner;
    }
  }

  /** The pairs of the relation, if they are admitted as obligations. */
  function Obligations(g: Graph, auth: Source.AuthProtocol, root: Id): Option<seq<Pair>> {
    var read := ReadRelation(g, root, PAIRS_BUDGET);
    if read.Err? then None
    else
      var pairs := Source.Pairs(read.value);
      if && 0 < |pairs| <= MAX_PAIRS
         && (forall i, j :: 0 <= i < j < |pairs| ==> pairs[i] != pairs[j])
         && (forall k :: 0 <= k < |pairs| ==> pairs[k].0 in auth.actions && pairs[k].1 != Null && pairs[k].1 in g)
      then Some(pairs) else None
  }

  /** One to 32 members, no two alike, each a declared action on a target that is there. */
  ghost predicate Admissible(g: Graph, auth: Source.AuthProtocol, members: seq<Member>) {
    && 1 <= |members| <= 32
    && (forall i, j :: 0 <= i < j < |members| ==>
          members[i].role != members[j].role || members[i].participant != members[j].participant)
    && forall m :: m in members ==> m.role in auth.actions && m.participant != Null && m.participant in g
  }

  /** The relation can be read within 64 cells and has these members, all admissible. */
  ghost predicate Required(g: Graph, auth: Source.AuthProtocol, root: Id, members: seq<Member>) {
    ReadRelation(g, root, 64) == Ok(members) && Admissible(g, auth, members)
  }

  predicate AsPairs(members: seq<Member>, pairs: seq<Pair>) {
    && |pairs| == |members|
    && forall k :: 0 <= k < |members| ==> pairs[k] == (members[k].role, members[k].participant)
  }

  /** The obligations are the relation's members, each of them, in order, exactly when these are admissible. */
  lemma ObligationsAre(g: Graph, auth: Source.AuthProtocol, root: Id)
    ensures Obligations(g, auth, root).Some? <==> exists members :: Required(g, auth, root, members)
    ensures forall members :: Required(g, auth, root, members) ==>
              Obligations(g, auth, root).Some? && AsPairs(members, Obligations(g, auth, root).value)
  {
    hide ReadRelation, Admissible;
    var read := ReadRelation(g, root, 64);
    if read.Ok? {
      var members, pairs := read.value, Source.Pairs(read.value);
      AdmissiblePairs(g, auth, members, pairs);
      assert Admissible(g, auth, members) <==> Required(g, auth, root, members);
    }
  }

  lemma AdmissiblePairs(g: Graph, auth: Source.AuthProtocol, members: seq<Member>, pairs: seq<Pair>)
    requires AsPairs(members, pairs)
    ensures Admissible(g, auth, members) <==>
            && 0 < |pairs| <= MAX_PAIRS
            && (forall i, j :: 0 <= i < j < |pairs| ==> pairs[i] != pairs[j])
            && (forall k :: 0 <= k < |pairs| ==> pairs[k].0 in auth.actions && pairs[k].1 != Null && pairs[k].1 in g)
  {
    if Admissible(g, auth, members) {
      assert forall k :: 0 <= k < |members| ==> members[k] in members;
    }
  }

  /** What of the budget each pair gets. */
  function Share(budget: nat, pairs: seq<Pair>): nat {
    if pairs == [] then 0 else budget / |pairs|
  }

  /** Every obligation so far has a captured context, and a proof from a permit of the source policy that
      applies to it on this graph, where no forbid does. */
  ghost predicate AllAllowed(h: Graph, plan: Plan, c: Source.Coding, a: Authority, captures: seq<Captured>,
                             pairs: seq<Pair>, proofs: seq<(Id, Id, Proof)>)
  {
    && |captures| == |pairs| == |proofs|
    && forall k :: 0 <= k < |pairs| ==>
         (proofs[k].0, proofs[k].1) == pairs[k] && PairAllowed(h, plan, c, a, captures[k].owner, pairs[k], proofs[k].2)
  }

  ghost predicate PairAllowed(h: Graph, plan: Plan, c: Source.Coding, a: Authority, owner: nat, pair: Pair,
                              proof: Proof)
  {
    var ctx := a.resolve(h, owner, pair.0, pair.1);
    ctx.Some? && exists rules: seq<AuthRule> ::
      RulesIn(h, plan, c, rules)
      && Verdict(h, plan, rules, ctx.value, ctx.value.subject, pair.0, pair.1, (true, Some(proof)))
  }

  /** One proof for each member of the relation, in order, about its role and participant. */
  ghost predicate EachAllowed(h: Graph, plan: Plan, c: Source.Coding, a: Authority, captures: seq<Captured>,
                              members: seq<Member>, proofs: seq<(Id, Id, Proof)>)
  {
    && |captures| == |members| == |proofs|
    && forall k :: 0 <= k < |members| ==>
         && proofs[k].0 == members[k].role && proofs[k].1 == members[k].participant
         && PairAllowed(h, plan, c, a, captures[k].owner, (members[k].role, members[k].participant), proofs[k].2)
  }

  /** The last member that a context was captured for is denied, and those before it are allowed. */
  ghost predicate FirstDenied(h: Graph, plan: Plan, c: Source.Coding, a: Authority, captures: seq<Captured>,
                              members: seq<Member>)
  {
    && 0 < |captures| <= |members|
    && (var k := |captures| - 1;
        PairDenied(h, plan, c, a, captures[k].owner, (members[k].role, members[k].participant)))
    && forall k :: 0 <= k < |captures| - 1 ==> MemberAllowed(h, plan, c, a, captures[k].owner, members[k])
  }

  ghost predicate MemberAllowed(h: Graph, plan: Plan, c: Source.Coding, a: Authority, owner: nat, m: Member) {
    exists proof: Proof :: PairAllowed(h, plan, c, a, owner, (m.role, m.participant), proof)
  }

  /** An allowed pair is one that the source policy allows. */
  lemma AllowedPairIsPermitted(h: Graph, plan: Plan, c: Source.Coding, a: Authority, owner: nat, pair: Pair,
                               proof: Proof)
    requires Resolves(a) && PairAllowed(h, plan, c, a, owner, pair, proof)
    ensures AllowedBy(h, plan, c, a.resolve(h, owner, pair.0, pair.1).value)
  {
    hide RulesIn, Verdict, Permitted;
    var ctx := a.resolve(h, owner, pair.0, pair.1).value;
    var rules: seq<AuthRule> :|
      RulesIn(h, plan, c, rules) && Verdict(h, plan, rules, ctx, ctx.subject, pair.0, pair.1, (true, Some(proof)));
    VerdictPermits(h, plan, rules, ctx, (true, Some(proof)));
  }

  /** Why the evaluation of a pair refuses: for a context captured under one of these stamps, a cause. */
  ghost predicate PairRefused(h: Graph, plan: Plan, c: Source.Coding, a: Authority, predicates: Predicates,
                              stamps: seq<nat>, pair: Pair, share: nat, patience: nat, refusal: EvaluationRefusal)
  {
    exists owner :: owner in stamps && ContextRefused(h, plan, c, a, predicates, owner, pair, share, patience, refusal)
  }

  ghost predicate ContextRefused(h: Graph, plan: Plan, c: Source.Coding, a: Authority, predicates: Predicates,
                                 owner: nat, pair: Pair, share: nat, patience: nat, refusal: EvaluationRefusal)
  {
    var resolved := a.resolve(h, owner, pair.0, pair.1);
    resolved.Some? && var ctx := resolved.value;
    Cause(h, plan, c, plan.logic, predicates, ctx, ctx.subject, pair.0, pair.1,
          ProviderOf(predicates, ctx, a.evidence), EnoughFor(ctx, a.evidence), share, patience, refusal)
  }

  ghost predicate PairDenied(h: Graph, plan: Plan, c: Source.Coding, a: Authority, owner: nat, pair: Pair) {
    var ctx := a.resolve(h, owner, pair.0, pair.1);
    ctx.Some? && DeniedBy(h, plan, c, ctx.value)
  }

  lemma StampsStay(captures: seq<Captured>, before: seq<nat>, after: seq<nat>, since: nat)
    requires before <= after && since <= |before|
    requires forall k :: 0 <= k < |captures| ==> captures[k].owner in before[since..]
    ensures forall k :: 0 <= k < |captures| ==> captures[k].owner in after[since..]
  {
    forall k | 0 <= k < |captures|
      ensures captures[k].owner in after[since..]
    {
      StampStays(before, after, since, captures[k].owner);
    }
  }

  /** Captures at one revision, under stamps that were current from some moment on. */
  ghost predicate Drawn(captures: seq<Captured>, revision: nat, stamps: seq<nat>, from: nat) {
    && from < |stamps|
    && forall k :: 0 <= k < |captures| ==> captures[k].revision == revision && captures[k].owner in stamps[from..]
  }

  lemma DrawnStays(captures: seq<Captured>, revision: nat, before: Moment, after: Moment, from: nat)
    requires Drawn(captures, revision, before.stamps, from) && Follows(before, after)
    ensures Drawn(captures, revision, after.stamps, from)
  {
    StampsStay(captures, before.stamps, after.stamps, from);
  }

  lemma OneMoreDrawn(captures: seq<Captured>, captured: Captured, stamps: seq<nat>, from: nat, since: nat)
    requires Drawn(captures, captured.revision, stamps, from)
    requires from <= since < |stamps| && stamps[since] == captured.owner
    ensures Drawn(captures + [captured], captured.revision, stamps, from)
  {
    assert stamps[from..][since - from] == captured.owner;
  }

  /** As long as no stamp changes, all captures carry the current one. */
  lemma DrawnAreOne(captures: seq<Captured>, revision: nat, stamps: seq<nat>, from: nat)
    requires Drawn(captures, revision, stamps, from) && |stamps| == from + 1
    ensures forall k :: 0 <= k < |captures| ==> captures[k].owner == stamps[|stamps| - 1]
  {
  }

  /** All captures were validated, one after the other, while the stamps from `since` on were current:
      each capture's stamp is among those, and the last one's is the first and the last of them. */
  ghost predicate StillCurrent(captures: seq<Captured>, stamps: seq<nat>, since: nat) {
    && captures != [] && since < |stamps|
    && captures[|captures| - 1].owner == stamps[since] == stamps[|stamps| - 1]
    && forall k :: 0 <= k < |captures| ==> captures[k].owner in stamps[since..]
  }

  /** When no selection or authentication comes back after it was given up, all contexts were
      captured under the very one that is current in the end. */
  lemma OneAuthentication(captures: seq<Captured>, stamps: seq<nat>, since: nat)
    requires StillCurrent(captures, stamps, since)
    requires forall i, j :: 0 <= i < j < |stamps| ==> stamps[i] != stamps[j]
    ensures forall k :: 0 <= k < |captures| ==> captures[k].owner == stamps[|stamps| - 1]
  {
    assert since == |stamps| - 1;
  }

  /** All pairs, or the first that is not allowed, on one revision that is still current when the
      last validation ends, and under selections and authentications that still stood then. */
  method EvaluateObligations(rt: Runtime, root: Id, plan: Plan, a: Authority, predicates: Predicates, budget: nat,
                             c: Source.Coding, ghost g: Graph)
    returns (r: Result<Outcome, Refusal>, ghost captures: seq<Captured>, ghost since: nat)
    requires rt.Valid() && Resolves(a)
    requires c.Injective() && PlanFor(g, plan, predicates, c) && plan.logic.Distinct()
    modifies rt
    ensures rt.Valid() && Follows(old(rt.Now()), rt.Now())
    ensures r.Ok? ==>
              && r.value.revision == rt.revision && r.value.revision in rt.history
              && var h := rt.history[r.value.revision];
              && rt.graph == h && StillCurrent(captures, rt.stamps, since)
              && exists members ::
                   Required(h, plan.auth, root, members) && 2 * |members| <= budget
                   && if r.value.allowed then EachAllowed(h, plan, c, a, captures, members, r.value.proofs)
                      else r.value.proofs == [] && FirstDenied(h, plan, c, a, captures, members)
    ensures !(2 <= budget <= 1_000_000) ==> r == Err(BadRequest)
    ensures r == Err(BadRequest) && 2 <= budget <= 1_000_000 ==>
              exists members :: Required(rt.graph, plan.auth, root, members) && budget < 2 * |members|
    ensures r == Err(NotTheOwnersPolicy) <==>
              2 <= budget <= 1_000_000 && (plan.policy != a.policy || plan.auth != a.auth)
    ensures r == Err(BadObligations) ==> forall members :: !Required(rt.graph, plan.auth, root, members)
    ensures r == Err(Moved) ==> rt.revision > old(rt.revision)
    ensures r == Err(Stale) ==> rt.patience == 0 || rt.revision > old(rt.revision) || rt.stamps != old(rt.stamps)
    ensures r == Err(NotAuthenticated) ==> SomeUnresolved(rt, plan, a, root)
    ensures r.Err? && r.error.Evaluation? ==>
              SomeRefused(rt, plan, c, a, predicates, root, budget, r.error.refusal)
  {
    hide *;
    captures, since := [], 0;
    FollowsItself(rt.Now());
    NowIs(rt);
    ghost var start := rt.Now();
    ghost var from := |rt.stamps| - 1;
    if !(2 <= budget <= 1_000_000) {
      return Err(BadRequest), captures, since;
    }
    if plan.policy != a.policy || plan.auth != a.auth {
      return Err(NotTheOwnersPolicy), captures, since;
    }
    rt.Interfere();
    var h: Graph, revision: nat := rt.graph, rt.revision;
    CurrentIsHistory(rt);
    NowIs(rt);
    FollowsMeans(start, rt.Now());
    var found := Obligations(h, plan.auth, root);
    ObligationsAre(h, plan.auth, root);
    if found.None? {
      return Err(BadObligations), captures, since;
    }
    var pairs := found.value;
    ghost var members :| Required(h, plan.auth, root, members);
    MemberCount(h, plan.auth, root, members, pairs);
    var share := Share(budget, pairs);
    if share < 2 {
      SmallShare(budget, pairs);
      assert Required(rt.graph, plan.auth, root, members) && budget < 2 * |members|;
      return Err(BadRequest), captures, since;
    }
    LargeShare(budget, pairs);
    var proofs: seq<(Id, Id, Proof)> := [];
    var providers: seq<Captured> := [];
    NoPairs(h, plan, c, a);
    assert proofs == [];
    NoneDrawn(rt, revision, from);
    assert pairs[..0] == [];
    for i := 0 to |pairs|
      invariant rt.Valid() && Follows(start, rt.Now()) && from < |rt.stamps|
      invariant revision in rt.history && rt.history[revision] == h && rt.revision >= revision >= old(rt.revision)
      invariant |proofs| == i == |providers| && AllAllowed(h, plan, c, a, providers, pairs[..i], proofs)
      invariant Drawn(providers, revision, rt.stamps, from)
      invariant i > 0 ==> StillCurrent(providers, rt.stamps, since)
    {
      ghost var before := rt.Now();
      var decided;
      decided, providers, since :=
        DecidePair(rt, h, revision, pairs[i], plan, a, predicates, share, c, providers, from, g);
      NowIs(rt);
      FollowsOn(start, before, rt.Now());
      FollowsMeans(start, rt.Now());
      if decided.Err? {
        PairFails(rt, h, revision, plan, c, a, predicates, root, budget, pairs, members, i, decided.error);
        return Err(decided.error), captures, since;
      }
      var (allowed, proof) := decided.value;
      captures := providers;
      if !allowed {
        DeniedMember(h, plan, c, a, captures, pairs, proofs, members, i);
        assert Required(h, plan.auth, root, members) && 2 * |members| <= budget;
        return Ok(Outcome(revision, false, [])), captures, since;
      }
      AllowedPair(h, plan, c, a, providers, pairs, proofs, proof.value, i);
      proofs := proofs + [(pairs[i].0, pairs[i].1, proof.value)];
    }
    assert pairs[..|pairs|] == pairs;
    ghost var before := rt.Now();
    NowIs(rt);
    since := StartsHere(rt, providers, since);
    var current := ValidateAll(rt, revision, providers, from, since);
    NowIs(rt);
    FollowsOn(start, before, rt.Now());
    FollowsMeans(start, rt.Now());
    FollowsMeans(before, rt.Now());
    captures := providers;
    if !current {
      return Err(Stale), captures, since;
    }
    AllowedMembers(h, plan, c, a, captures, pairs, proofs, members);
    assert Required(h, plan.auth, root, members) && 2 * |members| <= budget;
    return Ok(Outcome(revision, true, proofs)), captures, since;
  }

  /** Some member that the relation had at some revision is resolved to no context now. */
  ghost predicate SomeUnresolved(rt: Runtime, plan: Plan, a: Authority, root: Id)
    reads rt
  {
    exists revision, members: seq<Member>, k ::
      revision in rt.history && Required(rt.history[revision], plan.auth, root, members) && 0 <= k < |members|
      && a.resolve(rt.graph, rt.owner, members[k].role, members[k].participant) == None
  }

  /** The evaluation of some member refuses. */
  ghost predicate SomeRefused(rt: Runtime, plan: Plan, c: Source.Coding, a: Authority, predicates: Predicates,
                              root: Id, budget: nat, refusal: EvaluationRefusal)
    reads rt
  {
    exists members: seq<Member>, k ::
      Required(rt.graph, plan.auth, root, members) && 0 <= k < |members|
      && MemberRefused(rt.graph, plan, c, a, predicates, rt.stamps, members, k, budget, rt.patience, refusal)
  }

  /** It refuses for a cause, with the member's share of the budget. */
  ghost predicate MemberRefused(h: Graph, plan: Plan, c: Source.Coding, a: Authority, predicates: Predicates,
                                stamps: seq<nat>, members: seq<Member>, k: nat, budget: nat, patience: nat,
                                refusal: EvaluationRefusal)
  {
    k < |members|
    && PairRefused(h, plan, c, a, predicates, stamps, (members[k].role, members[k].participant),
                   budget / |members|, patience, refusal)
  }

  lemma PairFails(rt: Runtime, h: Graph, revision: nat, plan: Plan, c: Source.Coding, a: Authority,
                  predicates: Predicates, root: Id, budget: nat, pairs: seq<Pair>, members: seq<Member>, k: nat,
                  error: Refusal)
    requires revision in rt.history && rt.history[revision] == h
    requires Required(h, plan.auth, root, members) && AsPairs(members, pairs) && k < |pairs|
    ensures error == NotAuthenticated && a.resolve(rt.graph, rt.owner, pairs[k].0, pairs[k].1) == None ==>
              SomeUnresolved(rt, plan, a, root)
    ensures error.Evaluation? && rt.graph == h
            && PairRefused(h, plan, c, a, predicates, rt.stamps, pairs[k], Share(budget, pairs), rt.patience,
                           error.refusal) ==>
              SomeRefused(rt, plan, c, a, predicates, root, budget, error.refusal)
  {
    hide Required, PairRefused;
    assert pairs[k] == (members[k].role, members[k].participant);
    if error.Evaluation?
       && PairRefused(h, plan, c, a, predicates, rt.stamps, pairs[k], Share(budget, pairs), rt.patience,
                      error.refusal) {
      assert MemberRefused(h, plan, c, a, predicates, rt.stamps, members, k, budget, rt.patience, error.refusal);
    }
  }

  lemma DeniedMember(h: Graph, plan: Plan, c: Source.Coding, a: Authority, captures: seq<Captured>, pairs: seq<Pair>,
                     proofs: seq<(Id, Id, Proof)>, members: seq<Member>, i: nat)
    requires AsPairs(members, pairs) && i < |pairs| && |captures| == i + 1
    requires AllAllowed(h, plan, c, a, captures[..i], pairs[..i], proofs)
    requires PairDenied(h, plan, c, a, captures[i].owner, pairs[i])
    ensures FirstDenied(h, plan, c, a, captures, members)
  {
    hide PairAllowed, PairDenied;
    assert pairs[i] == (members[i].role, members[i].participant);
    forall k | 0 <= k < i
      ensures MemberAllowed(h, plan, c, a, captures[k].owner, members[k])
    {
      assert captures[..i][k] == captures[k] && pairs[..i][k] == pairs[k];
      assert PairAllowed(h, plan, c, a, captures[k].owner, pairs[k], proofs[k].2);
    }
  }

  lemma AllowedMembers(h: Graph, plan: Plan, c: Source.Coding, a: Authority, captures: seq<Captured>,
                       pairs: seq<Pair>, proofs: seq<(Id, Id, Proof)>, members: seq<Member>)
    requires AsPairs(members, pairs) && AllAllowed(h, plan, c, a, captures, pairs, proofs)
    ensures EachAllowed(h, plan, c, a, captures, members, proofs)
  {
    hide PairAllowed;
    assert forall k :: 0 <= k < |pairs| ==> (proofs[k].0, proofs[k].1) == pairs[k];
  }

  lemma NowIs(rt: Runtime)
    requires rt.Valid()
    ensures rt.Now() == Moment(rt.revision, rt.history, rt.stamps) && rt.stamps != []
  {
  }

  lemma NoneDrawn(rt: Runtime, revision: nat, from: nat)
    requires from < |rt.stamps|
    ensures Drawn([], revision, rt.stamps, from)
  {
  }

  lemma FollowsItself(now: Moment)
    ensures Follows(now, now)
  {
  }

  lemma FollowsMeans(before: Moment, after: Moment)
    requires Follows(before, after)
    ensures before.revision <= after.revision && before.stamps <= after.stamps
  {
  }

  /** A further round of validations starts with the stamp of the last capture. */
  lemma StartsHere(rt: Runtime, captures: seq<Captured>, since: nat) returns (later: nat)
    requires rt.Valid() && StillCurrent(captures, rt.stamps, since)
    ensures captures != [] && later == |rt.stamps| - 1
    ensures rt.stamps[later] == captures[|captures| - 1].owner
  {
    later := |rt.stamps| - 1;
  }

  lemma CurrentIsHistory(rt: Runtime)
    requires rt.Valid()
    ensures rt.revision in rt.history && rt.history[rt.revision] == rt.graph
  {
  }

  lemma SmallShare(budget: nat, pairs: seq<Pair>)
    requires pairs != [] && Share(budget, pairs) < 2
    ensures budget < 2 * |pairs|
  {
  }

  lemma LargeShare(budget: nat, pairs: seq<Pair>)
    requires pairs != [] && Share(budget, pairs) >= 2
    ensures 2 * |pairs| <= budget
  {
    assert budget == budget / |pairs| * |pairs| + budget % |pairs|;
    assert budget / |pairs| * |pairs| >= 2 * |pairs|;
  }

  lemma MemberCount(h: Graph, auth: Source.AuthProtocol, root: Id, members: seq<Member>, pairs: seq<Pair>)
    requires Required(h, auth, root, members) && AsPairs(members, pairs)
    ensures 0 < |pairs| == |members| <= 32
  {
  }

  lemma NoPairs(h: Graph, plan: Plan, c: Source.Coding, a: Authority)
    ensures AllAllowed(h, plan, c, a, [], [], [])
  {
  }

  lemma AllowedPair(h: Graph, plan: Plan, c: Source.Coding, a: Authority, captures: seq<Captured>, pairs: seq<Pair>,
                    proofs: seq<(Id, Id, Proof)>, proof: Proof, i: nat)
    requires i < |pairs| && |captures| == i + 1 && AllAllowed(h, plan, c, a, captures[..i], pairs[..i], proofs)
    requires PairAllowed(h, plan, c, a, captures[i].owner, pairs[i], proof)
    ensures AllAllowed(h, plan, c, a, captures, pairs[..i + 1], proofs + [(pairs[i].0, pairs[i].1, proof)])
  {
    hide PairAllowed;
    var more := proofs + [(pairs[i].0, pairs[i].1, proof)];
    forall k | 0 <= k < i + 1
      ensures (more[k].0, more[k].1) == pairs[k]
      ensures PairAllowed(h, plan, c, a, captures[k].owner, pairs[k], more[k].2)
    {
      assert k < i ==> captures[..i][k] == captures[k] && pairs[..i][k] == pairs[k] && more[k] == proofs[k];
    }
  }

  /** Every captured context is validated again, in the order of capture. */
  method ValidateAll(rt: Runtime, revision: nat, captures: seq<Captured>, ghost from: nat, ghost since: nat)
    returns (ok: bool)
    requires rt.Valid() && revision in rt.history && captures != [] && Drawn(captures, revision, rt.stamps, from)
    requires since < |rt.stamps| && rt.stamps[since] == captures[|captures| - 1].owner
    modifies rt
    ensures rt.Valid() && Follows(old(rt.Now()), rt.Now())
    ensures revision in rt.history && rt.history[revision] == old(rt.history)[revision]
    ensures ok ==>
              rt.revision == revision && rt.graph == rt.history[revision] && StillCurrent(captures, rt.stamps, since)
    ensures !ok ==> rt.patience == 0 || rt.revision != revision || |rt.stamps| > from + 1
    ensures Drawn(captures, revision, rt.stamps, from)
  {
    hide Drawn, Follows, StillCurrent;
    ghost var start := rt.Now();
    FollowsItself(start);
    for k := 0 to |captures|
      invariant rt.Valid() && Follows(start, rt.Now()) && Drawn(captures, revision, rt.stamps, from)
      invariant revision in rt.history && rt.history[revision] == start.history[revision]
      invariant since < |rt.stamps| && rt.stamps[since] == captures[|captures| - 1].owner
      invariant k > 0 ==>
                  rt.revision == revision && rt.graph == rt.history[revision] && captures[k - 1].owner == rt.owner
      invariant Among(captures, k, rt.stamps, since)
    {
      ghost var before := rt.Now();
      RevisionOf(captures, revision, rt.stamps, from, k);
      var valid := rt.Validate(captures[k]);
      FollowsOn(start, before, rt.Now());
      FollowsMeans(before, rt.Now());
      DrawnStays(captures, revision, before, rt.Now(), from);
      KeptAt(before, rt.Now(), revision);
      if !valid {
        if |rt.stamps| == from + 1 {
          DrawnAreOne(captures, revision, rt.stamps, from);
        }
        return false;
      }
      AmongOneMore(captures, k, before.stamps, rt.stamps, since);
    }
    RoundEnds(captures, rt.stamps, since);
    return true;
  }

  /** The first n captures carry stamps that were current from `since` on. */
  ghost predicate Among(captures: seq<Captured>, n: nat, stamps: seq<nat>, since: nat)
    requires n <= |captures|
  {
    since <= |stamps| && forall k :: 0 <= k < n ==> captures[k].owner in stamps[since..]
  }

  lemma AmongOneMore(captures: seq<Captured>, n: nat, before: seq<nat>, after: seq<nat>, since: nat)
    requires n < |captures| && Among(captures, n, before, since) && before <= after
    requires since < |after| && captures[n].owner == after[|after| - 1]
    ensures Among(captures, n + 1, after, since)
  {
    StampsStay(captures[..n], before, after, since);
    assert after[since..][|after| - 1 - since] == captures[n].owner;
    assert forall k :: 0 <= k < n ==> captures[..n][k] == captures[k];
  }

  lemma RoundEnds(captures: seq<Captured>, stamps: seq<nat>, since: nat)
    requires captures != [] && Among(captures, |captures|, stamps, since) && since < |stamps|
    requires captures[|captures| - 1].owner == stamps[since] == stamps[|stamps| - 1]
    ensures StillCurrent(captures, stamps, since)
  {
  }

  lemma RevisionOf(captures: seq<Captured>, revision: nat, stamps: seq<nat>, from: nat, k: nat)
    requires k < |captures| && Drawn(captures, revision, stamps, from)
    ensures captures[k].revision == revision && from < |stamps|
  {
  }

  lemma KeptAt(before: Moment, after: Moment, revision: nat)
    requires Follows(before, after) && revision in before.history
    ensures revision in after.history && after.history[revision] == before.history[revision]
  {
  }

  /** A context for one pair: resolved on the live store, stamped, and validated once. */
  method Capture(rt: Runtime, a: Authority, pair: Pair) returns (r: Result<(Captured, Context), Refusal>)
    requires rt.Valid()
    modifies rt
    ensures rt.Valid() && Follows(old(rt.Now()), rt.Now())
    ensures r.Ok? ==>
              && r.value.0 == Captured(rt.revision, rt.owner)
              && a.resolve(rt.graph, rt.owner, pair.0, pair.1) == Some(r.value.1)
    ensures r.Err? ==> r.error.NotAuthenticated? || r.error.Stale?
    ensures r == Err(Stale) ==> rt.patience == 0 || rt.revision > old(rt.revision) || |rt.stamps| > |old(rt.stamps)|
    ensures r == Err(NotAuthenticated) ==> a.resolve(rt.graph, rt.owner, pair.0, pair.1) == None
  {
    rt.Interfere();
    var captured := Captured(rt.revision, rt.owner);
    var resolved := a.resolve(rt.graph, rt.owner, pair.0, pair.1);
    if resolved.None? {
      return Err(NotAuthenticated);
    }
    var valid := rt.Validate(captured);
    if !valid {
      return Err(Stale);
    }
    return Ok((captured, resolved.value));
  }

  /** One pair: capture its context, evaluate the plan on the first snapshot, validate every context
      captured so far. */
  method DecidePair(rt: Runtime, h: Graph, revision: nat, pair: Pair, plan: Plan, a: Authority, predicates: Predicates,
                    share: nat, c: Source.Coding, captures: seq<Captured>, ghost from: nat, ghost g: Graph)
    returns (r: Result<Answer, Refusal>, providers: seq<Captured>, ghost since: nat)
    requires rt.Valid() && revision in rt.history && rt.history[revision] == h && Resolves(a)
    requires from < |rt.stamps| && Drawn(captures, revision, rt.stamps, from)
    requires c.Injective() && PlanFor(g, plan, predicates, c) && plan.logic.Distinct()
    modifies rt
    ensures rt.Valid() && Follows(old(rt.Now()), rt.Now())
    ensures revision in rt.history && rt.history[revision] == h
    ensures r.Ok? ==>
              && rt.revision == revision && rt.graph == h
              && |providers| == |captures| + 1 && providers[..|captures|] == captures
              && providers[|captures|] == Captured(revision, rt.owner)
              && Drawn(providers, revision, rt.stamps, from) && StillCurrent(providers, rt.stamps, since)
              && (r.value.0 ==> r.value.1.Some? && PairAllowed(h, plan, c, a, rt.owner, pair, r.value.1.value))
              && (!r.value.0 ==> PairDenied(h, plan, c, a, rt.owner, pair))
    ensures r.Err? ==> r.error.NotAuthenticated? || r.error.Stale? || r.error.Moved? || r.error.Evaluation?
    ensures r == Err(Moved) ==> rt.revision > revision
    ensures r == Err(Stale) ==> rt.patience == 0 || rt.revision > old(rt.revision) || |rt.stamps| > from + 1
    ensures r == Err(NotAuthenticated) ==> a.resolve(rt.graph, rt.owner, pair.0, pair.1) == None
    ensures r.Err? && r.error.Evaluation? ==>
              rt.graph == h
              && PairRefused(h, plan, c, a, predicates, rt.stamps, pair, share, rt.patience, r.error.refusal)
  {
    hide *;
    ghost var start := rt.Now();
    NowIs(rt);
    var taken := Capture(rt, a, pair);
    NowIs(rt);
    KeptAt(start, rt.Now(), revision);
    FollowsMeans(start, rt.Now());
    since, providers := |rt.stamps| - 1, captures;
    if taken.Err? {
      return Err(taken.error), providers, since;
    }
    var (captured, ctx) := taken.value;
    ghost var checked := rt.Now();
    rt.Interfere();
    NowIs(rt);
    KeptAt(checked, rt.Now(), revision);
    FollowsMeans(checked, rt.Now());
    FollowsOn(start, checked, rt.Now());
    CurrentIsHistory(rt);
    if rt.revision != revision {
      NeverBefore(rt, revision);
      return Err(Moved), providers, since;
    }
    ghost var evaluated := rt.Now();
    DrawnStays(captures, revision, start, evaluated, from);
    OneMoreDrawn(captures, captured, evaluated.stamps, from, since);
    providers := captures + [captured];
    var answer := EvaluatePair(h, pair, plan, a, predicates, share, rt.patience, c, captured.owner, ctx, g);
    if answer.Err? {
      StampIsKept(checked.stamps, rt.stamps, since);
      RefusedUnder(h, plan, c, a, predicates, rt.stamps, pair, share, rt.patience, answer.error.refusal,
                   captured.owner);
      return Err(answer.error), providers, since;
    }
    var valid := ValidateAll(rt, revision, providers, from, since);
    NowIs(rt);
    FollowsMeans(evaluated, rt.Now());
    FollowsOn(start, evaluated, rt.Now());
    if !valid {
      return Err(Stale), providers, since;
    }
    LastIsCurrent(rt, providers, since);
    return Ok(answer.value), providers, since;
  }

  lemma RefusedUnder(h: Graph, plan: Plan, c: Source.Coding, a: Authority, predicates: Predicates, stamps: seq<nat>,
                     pair: Pair, share: nat, patience: nat, refusal: EvaluationRefusal, owner: nat)
    requires owner in stamps && ContextRefused(h, plan, c, a, predicates, owner, pair, share, patience, refusal)
    ensures PairRefused(h, plan, c, a, predicates, stamps, pair, share, patience, refusal)
  {
    hide ContextRefused;
  }

  lemma StampIsKept(before: seq<nat>, after: seq<nat>, at: nat)
    requires before <= after && at < |before|
    ensures before[at] in after
  {
    assert after[at] == before[at];
  }

  lemma NeverBefore(rt: Runtime, revision: nat)
    requires rt.Valid() && revision in rt.history && rt.revision != revision
    ensures rt.revision > revision
  {
  }

  lemma LastIsCurrent(rt: Runtime, captures: seq<Captured>, since: nat)
    requires rt.Valid() && StillCurrent(captures, rt.stamps, since)
    ensures captures[|captures| - 1].owner == rt.owner
  {
  }

  /** The plan evaluated for a captured context: what the source policy says about it. */
  method EvaluatePair(h: Graph, pair: Pair, plan: Plan, a: Authority, predicates: Predicates, share: nat, patience: nat,
                      c: Source.Coding, ghost owner: nat, ctx: Context, ghost g: Graph)
    returns (r: Result<Answer, Refusal>)
    requires Resolves(a) && a.resolve(h, owner, pair.0, pair.1) == Some(ctx)
    requires c.Injective() && PlanFor(g, plan, predicates, c) && plan.logic.Distinct()
    ensures r.Ok? && r.value.0 ==> r.value.1.Some? && PairAllowed(h, plan, c, a, owner, pair, r.value.1.value)
    ensures r.Ok? && !r.value.0 ==> PairDenied(h, plan, c, a, owner, pair)
    ensures r.Err? ==>
              r.error.Evaluation?
              && ContextRefused(h, plan, c, a, predicates, owner, pair, share, patience, r.error.refusal)
  {
    hide Resolves, PlanFor, Verdict, RulesIn, Permitted, ContextProvider, Provided, RowsUnder, SourceStands,
      ReadProgram, Holds, ContextSupplies, Needed, Answers;
    var primitive := ProviderOf(predicates, ctx, a.evidence);
    ProvidesContext(predicates, ctx, a.evidence);
    ProviderSupplies(predicates, ctx, a.evidence);
    ContextIsTheRequests(a, h, owner, pair);
    OneSubject(g, plan, predicates, ctx, c);
    var subject := primitive(predicates[Subject], [None], share);
    if subject.Err? {
      TooFew(h, plan, predicates, ctx, pair, a.evidence, share);
      return Err(Evaluation(LogicFault(Exhausted)));
    }
    var answer, left := EvaluateCompiled(h, plan, plan.logic, subject.value[0][0], pair.0, pair.1, primitive, share,
                                         patience, c, g, predicates, ctx, EnoughFor(ctx, a.evidence));
    if answer.Err? {
      return Err(Evaluation(answer.error));
    }
    ghost var rules: seq<AuthRule> :|
      RulesIn(h, plan, c, rules) && Verdict(h, plan, rules, ctx, ctx.subject, pair.0, pair.1, answer.value);
    VerdictPermits(h, plan, rules, ctx, answer.value);
    return Ok(answer.value);
  }

  /** A share that does not cover one fact with its evidence is below what the queries need. */
  lemma TooFew(h: Graph, plan: Plan, predicates: Predicates, ctx: Context, pair: Pair, evidence: nat, share: nat)
    requires evidence + 3 > share
    ensures Starved(h, plan, predicates, ctx, ctx.subject, pair.0, pair.1, ProviderOf(predicates, ctx, evidence),
                    EnoughFor(ctx, evidence), share / 2)
  {
    hide ContextSupplies, QueryCost;
    Fewer(1, |ctx.principals| + 1, evidence + 3);
    var enough := EnoughFor(ctx, evidence);
    assert enough < Needed(h, plan, predicates, ctx, ctx.subject, pair.0, pair.1, enough);
  }

  lemma ProvidesContext(predicates: Predicates, ctx: Context, evidence: nat)
    ensures ContextProvider(ProviderOf(predicates, ctx, evidence), predicates, ctx)
  {
    hide Provided;
  }

  lemma ContextIsTheRequests(a: Authority, h: Graph, owner: nat, pair: Pair)
    requires Resolves(a) && a.resolve(h, owner, pair.0, pair.1).Some?
    ensures var ctx := a.resolve(h, owner, pair.0, pair.1).value; ctx.action == pair.0 && ctx.object_ == pair.1
  {
  }

  /** The subject fact is the context's subject. */
  lemma OneSubject(g: Graph, plan: Plan, predicates: Predicates, ctx: Context, c: Source.Coding)
    requires PlanFor(g, plan, predicates, c)
    ensures Subject in predicates && Provided(predicates, ctx, predicates[Subject], [None]) == [[ctx.subject]]
  {
    hide Source.VerifyPolicy, Source.ReadAuthRules, SpellsProgram, Translates, Supported, EffectKnown;
    var verified := Source.VerifyPolicy(g, plan.auth, plan.policy, c).value;
    var n: Names, horn: seq<Rule> :|
      Compiles(plan, predicates, Source.ReadAuthRules(g, plan.auth, verified.rules).value, n, horn);
    SubjectRow(plan.logic, predicates, ctx);
  }

  lemma SubjectRow(logic: Protocol, predicates: Predicates, ctx: Context)
    requires Keyed(logic, predicates)
    ensures Provided(predicates, ctx, predicates[Subject], [None]) == [[ctx.subject]]
  {
    hide RowsUnder;
    RowsUnderField(FIELDS, logic, predicates, ctx, Subject);
    assert FIELDS[0] == Subject;
    var p: Pattern, values := [None], [ctx.subject];
    assert p[0].None? && values[1..] == [] && Singles(values[1..], p[0]) == [];
    assert Singles(values, p[0]) == [[values[0]]] + Singles(values[1..], p[0]);
  }
}
