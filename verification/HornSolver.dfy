/** The left-to-right evaluator for rules whose bodies name primitive facts only: what a rule proves,
    the search over facts as a function, and the metered search with its memory of failed goals. */
module HornSolver {
  import opened Wrappers
  import opened CellGraph
  import opened HornLogic

  type Bindings = map<Id, Id>

  type Pattern = seq<Option<Id>>

  type Rows = seq<seq<Id>>

  /** What a provider answers when its budget is not the obstacle. */
  type Facts = (Id, Pattern) -> Result<Rows, Fault>

  /** A provider is also handed what is left of the budget. */
  type Provider = (Id, Pattern, nat) -> Result<Rows, Fault>

  datatype Proof = Proof(rule: Id, bindings: Bindings)

  // ---------- what a rule proves ----------

  function Value(t: Term, b: Bindings): Option<Id> {
    if t.Const? then Some(t.value) else if t.value in b then Some(b[t.value]) else None
  }

  predicate Instance(terms: seq<Term>, b: Bindings, row: seq<Id>) {
    |terms| == |row| && forall k :: 0 <= k < |terms| ==> Value(terms[k], b) == Some(row[k])
  }

  type Truth = (Id, seq<Id>) -> bool

  ghost predicate Satisfied(a: Atom, b: Bindings, truth: Truth) {
    exists row :: Instance(a.terms, b, row) && truth(a.pred, row)
  }

  ghost predicate AllSatisfied(body: seq<Atom>, b: Bindings, truth: Truth) {
    forall k :: 0 <= k < |body| ==> Satisfied(body[k], b, truth)
  }

  /** Under these bindings the head is the query and every body atom is true. */
  ghost predicate Proves(rule: Rule, args: seq<Id>, truth: Truth, b: Bindings) {
    Instance(rule.head.terms, b, args) && AllSatisfied(rule.body, b, truth)
  }

  ghost predicate Provable(rule: Rule, args: seq<Id>, truth: Truth) {
    exists b :: Proves(rule, args, truth, b)
  }

  predicate Extends(b: Bindings, c: Bindings) {
    forall x :: x in b ==> x in c && c[x] == b[x]
  }

  // ---------- unification of terms with a ground row ----------

  function Unify(terms: seq<Term>, row: seq<Id>, b: Bindings): Option<Bindings>
    requires |terms| == |row|
  {
    if terms == [] then Some(b)
    else
      match Value(terms[0], b)
      case Some(v) => if v == row[0] then Unify(terms[1..], row[1..], b) else None
      case None => Unify(terms[1..], row[1..], b[terms[0].value := row[0]])
  }

  lemma {:induction false} UnifyIsInstance(terms: seq<Term>, row: seq<Id>, b: Bindings)
    requires |terms| == |row| && Unify(terms, row, b).Some?
    ensures Extends(b, Unify(terms, row, b).value) && Instance(terms, Unify(terms, row, b).value, row)
  {
    if terms != [] {
      var c := if Value(terms[0], b).Some? then b else b[terms[0].value := row[0]];
      UnifyIsInstance(terms[1..], row[1..], c);
      var r := Unify(terms, row, b).value;
      assert Value(terms[0], c) == Some(row[0]);
      forall k | 0 <= k < |terms|
        ensures Value(terms[k], r) == Some(row[k])
      {
        assert k > 0 ==> terms[k] == terms[1..][k - 1] && row[k] == row[1..][k - 1];
      }
    }
  }

  /** Unification binds no more than any instance does. */
  lemma {:induction false} UnifyIsMostGeneral(terms: seq<Term>, row: seq<Id>, b: Bindings, sigma: Bindings)
    requires Instance(terms, sigma, row) && Extends(b, sigma)
    ensures Unify(terms, row, b).Some? && Extends(Unify(terms, row, b).value, sigma)
  {
    if terms != [] {
      var c := if Value(terms[0], b).Some? then b else b[terms[0].value := row[0]];
      assert Value(terms[0], sigma) == Some(row[0]);
      assert Instance(terms[1..], sigma, row[1..]);
      UnifyIsMostGeneral(terms[1..], row[1..], c, sigma);
    }
  }

  function PatternOf(terms: seq<Term>, b: Bindings): (r: Pattern)
    ensures |r| == |terms|
    ensures forall k :: 0 <= k < |r| ==> r[k] == Value(terms[k], b)
  {
    seq(|terms|, k requires 0 <= k < |terms| => Value(terms[k], b))
  }

  predicate Grounded(p: Pattern) {
    forall k :: 0 <= k < |p| ==> p[k].Some?
  }

  predicate Matches(p: Pattern, row: seq<Id>) {
    |p| == |row| && forall k :: 0 <= k < |p| ==> p[k].Some? ==> p[k].value == row[k]
  }

  lemma {:induction false} GroundUnify(terms: seq<Term>, row: seq<Id>, b: Bindings)
    requires |terms| == |row| && Grounded(PatternOf(terms, b))
    ensures Unify(terms, row, b) == if Matches(PatternOf(terms, b), row) then Some(b) else None
  {
    if terms != [] {
      var p, q := PatternOf(terms, b), PatternOf(terms[1..], b);
      assert forall k :: 0 <= k < |q| ==> q[k] == p[k + 1];
      GroundUnify(terms[1..], row[1..], b);
      assert Matches(p, row) <==> p[0].value == row[0] && Matches(q, row[1..]) by {
        if p[0].value == row[0] && Matches(q, row[1..]) {
          forall k | 0 <= k < |p|
            ensures p[k].value == row[k]
          {
            assert k > 0 ==> p[k] == q[k - 1] && row[k] == row[1..][k - 1];
          }
        }
      }
    }
  }

  // ---------- the search as a function ----------

  function Solve(body: seq<Atom>, b: Bindings, facts: Facts): Result<Option<Bindings>, Fault>
    decreases |body|, 1, 0
  {
    if body == [] then Ok(Some(b))
    else
      var rows :- facts(body[0].pred, PatternOf(body[0].terms, b));
      SolveRows(rows, body, b, facts)
  }

  /** The facts for the first atom in order, each with everything the rest of the body allows. */
  function SolveRows(rows: Rows, body: seq<Atom>, b: Bindings, facts: Facts): Result<Option<Bindings>, Fault>
    requires body != []
    decreases |body|, 0, |rows|
  {
    if rows == [] then Ok(None)
    else if |rows[0]| != |body[0].terms| then Err(InvalidCell)
    else
      var c := Unify(body[0].terms, rows[0], b);
      if c.None? then SolveRows(rows[1..], body, b, facts)
      else
        var found :- Solve(body[1..], c.value, facts);
        if found.Some? then Ok(found) else SolveRows(rows[1..], body, b, facts)
  }

  /** Facts that answer the query itself would leave a proof without its entry rule. */
  function QueryFacts(rows: Rows, args: seq<Id>): Result<(), Fault> {
    if rows == [] then Ok(())
    else if |rows[0]| != |args| || rows[0] == args then Err(InvalidCell)
    else QueryFacts(rows[1..], args)
  }

  function Somes(args: seq<Id>): (r: Pattern)
    ensures |r| == |args| && forall k :: 0 <= k < |r| ==> r[k] == Some(args[k])
  {
    seq(|args|, k requires 0 <= k < |args| => Some(args[k]))
  }

  function Enter(rule: Rule, args: seq<Id>, facts: Facts): Result<Option<Bindings>, Fault> {
    if |rule.head.terms| != |args| then Ok(None)
    else
      var b := Unify(rule.head.terms, args, map[]);
      if b.None? then Ok(None) else Solve(rule.body, b.value, facts)
  }

  function Attempt(rule: Rule, args: seq<Id>, facts: Facts): Result<Option<Bindings>, Fault> {
    var rows :- facts(rule.head.pred, Somes(args));
    var _ :- QueryFacts(rows, args);
    Enter(rule, args, facts)
  }

  function FirstProof(rules: seq<Rule>, pred: Id, args: seq<Id>, facts: Facts): Result<Option<Proof>, Fault> {
    if rules == [] then Ok(None)
    else if rules[0].head.pred != pred then FirstProof(rules[1..], pred, args, facts)
    else
      var found :- Attempt(rules[0], args, facts);
      if found.Some? then Ok(Some(Proof(rules[0].root, found.value))) else FirstProof(rules[1..], pred, args, facts)
  }

  // ---------- the search decides provability ----------

  /** Every answer is true. */
  ghost predicate Truthful(facts: Facts, truth: Truth) {
    forall pred, p, row :: facts(pred, p).Ok? && row in facts(pred, p).value ==> truth(pred, row)
  }

  /** Whether the pattern is one the provider answers in full; a provider may need the first argument. */
  predicate Asked(needFirst: Id, pred: Id, p: Pattern) {
    pred == needFirst ==> p != [] && p[0].Some?
  }

  /** Every true row that matches the pattern is among the answers. */
  ghost predicate Complete(facts: Facts, truth: Truth, needFirst: Id) {
    forall pred, p, row :: facts(pred, p).Ok? && Asked(needFirst, pred, p) && truth(pred, row) && Matches(p, row) ==>
                             row in facts(pred, p).value
  }

  /** The head binds what the provider needs. */
  predicate Moded(rule: Rule, needFirst: Id) {
    forall k :: 0 <= k < |rule.body| && rule.body[k].pred == needFirst ==>
                  && rule.body[k].terms != []
                  && (rule.body[k].terms[0].Const? || rule.body[k].terms[0] in rule.head.terms)
  }

  /** The same, once the head is unified. */
  predicate BodyModed(body: seq<Atom>, b: Bindings, needFirst: Id) {
    forall k :: 0 <= k < |body| && body[k].pred == needFirst ==> body[k].terms != [] && Value(body[k].terms[0], b).Some?
  }

  lemma InstanceExtends(terms: seq<Term>, b: Bindings, c: Bindings, row: seq<Id>)
    requires Instance(terms, b, row) && Extends(b, c)
    ensures Instance(terms, c, row)
  {
  }

  lemma {:induction false} SolveIsSound(body: seq<Atom>, b: Bindings, facts: Facts, truth: Truth)
    requires Truthful(facts, truth) && Solve(body, b, facts).Ok? && Solve(body, b, facts).value.Some?
    ensures Extends(b, Solve(body, b, facts).value.value)
            && AllSatisfied(body, Solve(body, b, facts).value.value, truth)
    decreases |body|, 1, 0
  {
    if body != [] {
      var p := PatternOf(body[0].terms, b);
      var rows := facts(body[0].pred, p).value;
      assert forall k :: 0 <= k < |rows| ==> rows[k] in rows && truth(body[0].pred, rows[k]);
      SolveRowsIsSound(rows, body, b, facts, truth);
    }
  }

  lemma {:induction false} SolveRowsIsSound(rows: Rows, body: seq<Atom>, b: Bindings, facts: Facts, truth: Truth)
    requires Truthful(facts, truth) && body != []
    requires forall k :: 0 <= k < |rows| ==> truth(body[0].pred, rows[k])
    requires SolveRows(rows, body, b, facts).Ok? && SolveRows(rows, body, b, facts).value.Some?
    ensures var r := SolveRows(rows, body, b, facts).value.value; Extends(b, r) && AllSatisfied(body, r, truth)
    decreases |body|, 0, |rows|
  {
    hide AllSatisfied, Truthful;
    var terms := body[0].terms;
    var c := Unify(terms, rows[0], b);
    if c.Some? && Solve(body[1..], c.value, facts).value.Some? {
      UnifyIsInstance(terms, rows[0], b);
      SolveIsSound(body[1..], c.value, facts, truth);
      var r := Solve(body[1..], c.value, facts).value.value;
      InstanceExtends(terms, c.value, r, rows[0]);
      assert Satisfied(body[0], r, truth);
      AllFromFirst(body, r, truth);
    } else {
      SolveRowsIsSound(rows[1..], body, b, facts, truth);
    }
  }

  lemma AllFromFirst(body: seq<Atom>, b: Bindings, truth: Truth)
    requires body != []
    ensures AllSatisfied(body, b, truth) <==> Satisfied(body[0], b, truth) && AllSatisfied(body[1..], b, truth)
  {
    hide Satisfied;
    if Satisfied(body[0], b, truth) && AllSatisfied(body[1..], b, truth) {
      forall k | 0 <= k < |body|
        ensures Satisfied(body[k], b, truth)
      {
        assert k > 0 ==> body[k] == body[1..][k - 1];
      }
    }
  }

  lemma {:induction false} SolveIsComplete(body: seq<Atom>, b: Bindings, facts: Facts, truth: Truth, need: Id,
                                           sigma: Bindings)
    requires Complete(facts, truth, need) && BodyModed(body, b, need)
    requires Extends(b, sigma) && AllSatisfied(body, sigma, truth)
    ensures Solve(body, b, facts).Ok? ==> Solve(body, b, facts).value.Some?
    decreases |body|, 1, 0
  {
    if body != [] && Solve(body, b, facts).Ok? {
      var p := PatternOf(body[0].terms, b);
      assert Satisfied(body[0], sigma, truth);
      var row :| Instance(body[0].terms, sigma, row) && truth(body[0].pred, row);
      assert Matches(p, row);
      var rows := facts(body[0].pred, p).value;
      assert row in rows;
      var k :| 0 <= k < |rows| && rows[k] == row;
      SolveRowsIsComplete(rows, k, body, b, facts, truth, need, sigma);
    }
  }

  lemma {:induction false} SolveRowsIsComplete(rows: Rows, k: nat, body: seq<Atom>, b: Bindings, facts: Facts,
                                               truth: Truth,
                                               need: Id, sigma: Bindings)
    requires Complete(facts, truth, need) && body != [] && BodyModed(body, b, need)
    requires Extends(b, sigma) && AllSatisfied(body, sigma, truth)
    requires k < |rows| && Instance(body[0].terms, sigma, rows[k])
    ensures SolveRows(rows, body, b, facts).Ok? ==> SolveRows(rows, body, b, facts).value.Some?
    decreases |body|, 0, |rows|
  {
    hide Complete, AllSatisfied;
    if k > 0 {
      assert rows[1..][k - 1] == rows[k];
      SolveRowsIsComplete(rows[1..], k - 1, body, b, facts, truth, need, sigma);
    } else {
      UnifyIsMostGeneral(body[0].terms, rows[0], b, sigma);
      UnifyIsInstance(body[0].terms, rows[0], b);
      var c := Unify(body[0].terms, rows[0], b).value;
      AllFromFirst(body, sigma, truth);
      assert BodyModed(body[1..], c, need);
      SolveIsComplete(body[1..], c, facts, truth, need, sigma);
    }
  }

  /** The first rule that the search enters with success is provable under the bindings it returns,
      and no other outcome hides a provable rule. */
  lemma AttemptDecides(rule: Rule, args: seq<Id>, facts: Facts, truth: Truth, need: Id)
    requires Truthful(facts, truth) && Complete(facts, truth, need) && Moded(rule, need)
    requires Attempt(rule, args, facts).Ok?
    ensures Attempt(rule, args, facts).value.Some? <==> Provable(rule, args, truth)
    ensures Attempt(rule, args, facts).value.Some? ==> Proves(rule, args, truth, Attempt(rule, args, facts).value.value)
  {
    hide Truthful, Complete, AllSatisfied;
    var found := Attempt(rule, args, facts).value;
    if found.Some? {
      UnifyIsInstance(rule.head.terms, args, map[]);
      var b := Unify(rule.head.terms, args, map[]).value;
      SolveIsSound(rule.body, b, facts, truth);
      InstanceExtends(rule.head.terms, b, found.value, args);
      assert Proves(rule, args, truth, found.value);
    }
    if Provable(rule, args, truth) {
      var sigma :| Proves(rule, args, truth, sigma);
      assert Instance(rule.head.terms, sigma, args) && Extends(map[], sigma);
      UnifyIsMostGeneral(rule.head.terms, args, map[], sigma);
      UnifyIsInstance(rule.head.terms, args, map[]);
      var b := Unify(rule.head.terms, args, map[]).value;
      HeadBinds(rule, args, b, need);
      SolveIsComplete(rule.body, b, facts, truth, need, sigma);
    }
  }

  lemma HeadBinds(rule: Rule, args: seq<Id>, b: Bindings, need: Id)
    requires Moded(rule, need) && Instance(rule.head.terms, b, args)
    ensures BodyModed(rule.body, b, need)
  {
    forall k | 0 <= k < |rule.body| && rule.body[k].pred == need
      ensures rule.body[k].terms != [] && Value(rule.body[k].terms[0], b).Some?
    {
      var t := rule.body[k].terms[0];
      if t in rule.head.terms {
        var j :| 0 <= j < |rule.head.terms| && rule.head.terms[j] == t;
        assert Value(rule.head.terms[j], b) == Some(args[j]);
      }
    }
  }

  /** Evaluation returns the first provable rule for the predicate, and nothing exactly when there is none. */
  lemma {:induction false} FirstProofDecides(rules: seq<Rule>, pred: Id, args: seq<Id>, facts: Facts, truth: Truth,
                                             need: Id)
    requires Truthful(facts, truth) && Complete(facts, truth, need)
    requires forall k :: 0 <= k < |rules| ==> Moded(rules[k], need)
    requires FirstProof(rules, pred, args, facts).Ok?
    ensures var found := FirstProof(rules, pred, args, facts).value;
            && (found.None? ==> forall k :: 0 <= k < |rules| && rules[k].head.pred == pred ==>
                !Provable(rules[k], args, truth))
            && (found.Some? ==> exists k :: FirstAt(rules, pred, args, truth, k, found.value))
  {
    hide Truthful, Complete, Provable, Proves, Moded, Attempt;
    if rules != [] {
      if rules[0].head.pred == pred {
        AttemptDecides(rules[0], args, facts, truth, need);
      }
      if rules[0].head.pred == pred && Attempt(rules[0], args, facts).value.Some? {
        assert FirstAt(rules, pred, args, truth, 0, FirstProof(rules, pred, args, facts).value.value);
      } else {
        FirstProofDecides(rules[1..], pred, args, facts, truth, need);
        var found := FirstProof(rules, pred, args, facts).value;
        if found.Some? {
          var k :| FirstAt(rules[1..], pred, args, truth, k, found.value);
          forall j | 0 <= j < k + 1 && rules[j].head.pred == pred
            ensures !Provable(rules[j], args, truth)
          {
            assert j > 0 ==> rules[j] == rules[1..][j - 1];
          }
          assert FirstAt(rules, pred, args, truth, k + 1, found.value);
        } else {
          forall k | 0 <= k < |rules| && rules[k].head.pred == pred
            ensures !Provable(rules[k], args, truth)
          {
            assert k > 0 ==> rules[k] == rules[1..][k - 1];
          }
        }
      }
    }
  }

  ghost predicate FirstAt(rules: seq<Rule>, pred: Id, args: seq<Id>, truth: Truth, k: int, proof: Proof) {
    && 0 <= k < |rules| && rules[k].head.pred == pred && rules[k].root == proof.rule
    && Proves(rules[k], args, truth, proof.bindings)
    && forall j :: 0 <= j < k && rules[j].head.pred == pred ==> !Provable(rules[j], args, truth)
  }

  // ---------- the search as it runs ----------

  /** Where the budget is not the obstacle, the provider answers with the facts. */
  ghost predicate Agrees(provider: Provider, facts: Facts) {
    forall pred, p, left: nat :: provider(pred, p, left) == Err(Exhausted) || provider(pred, p, left) == facts(pred, p)
  }

  // Only a budget exhausts a search.

  ghost predicate Unlimited(facts: Facts) {
    forall pred, p :: facts(pred, p) != Err(Exhausted)
  }

  lemma {:induction false} SolveNeverExhausted(body: seq<Atom>, b: Bindings, facts: Facts)
    requires Unlimited(facts)
    ensures Solve(body, b, facts) != Err(Exhausted)
    decreases |body|, 1, 0
  {
    if body != [] {
      var rows := facts(body[0].pred, PatternOf(body[0].terms, b));
      if rows.Ok? {
        SolveRowsNeverExhausted(rows.value, body, b, facts);
      }
    }
  }

  lemma {:induction false} SolveRowsNeverExhausted(rows: Rows, body: seq<Atom>, b: Bindings, facts: Facts)
    requires Unlimited(facts) && body != []
    ensures SolveRows(rows, body, b, facts) != Err(Exhausted)
    decreases |body|, 0, |rows|
  {
    hide Unlimited;
    if rows != [] && |rows[0]| == |body[0].terms| {
      SolveRowsNeverExhausted(rows[1..], body, b, facts);
      var c := Unify(body[0].terms, rows[0], b);
      if c.Some? {
        SolveNeverExhausted(body[1..], c.value, facts);
      }
    }
  }

  lemma {:induction false} NeverExhausted(rules: seq<Rule>, pred: Id, args: seq<Id>, facts: Facts)
    requires Unlimited(facts)
    ensures FirstProof(rules, pred, args, facts) != Err(Exhausted)
  {
    if rules != [] {
      NeverExhausted(rules[1..], pred, args, facts);
      var rows := facts(rules[0].head.pred, Somes(args));
      if rows.Ok? {
        QueryNeverExhausted(rows.value, args);
      }
      if |rules[0].head.terms| == |args| && Unify(rules[0].head.terms, args, map[]).Some? {
        SolveNeverExhausted(rules[0].body, Unify(rules[0].head.terms, args, map[]).value, facts);
      }
    }
  }

  lemma {:induction false} QueryNeverExhausted(rows: Rows, args: seq<Id>)
    ensures QueryFacts(rows, args) != Err(Exhausted)
  {
    if rows != [] {
      QueryNeverExhausted(rows[1..], args);
    }
  }

  /** From this budget on the provider answers. */
  ghost predicate Supplies(provider: Provider, facts: Facts, enough: nat) {
    forall pred, p, left: nat :: left >= enough ==> provider(pred, p, left) == facts(pred, p)
  }

  // ---------- what the search may spend ----------

  /** One step a goal and one a fact, over everything the search may visit. */
  function Cost(body: seq<Atom>, b: Bindings, facts: Facts): nat
    decreases |body|, 1, 0
  {
    if body == [] then 0
    else
      var rows := facts(body[0].pred, PatternOf(body[0].terms, b));
      if rows.Err? then 1 else 1 + RowsCost(rows.value, body, b, facts)
  }

  function RowsCost(rows: Rows, body: seq<Atom>, b: Bindings, facts: Facts): nat
    requires body != []
    decreases |body|, 0, |rows|
  {
    if rows == [] then 0
    else if |rows[0]| != |body[0].terms| then 1
    else
      var c := Unify(body[0].terms, rows[0], b);
      1 + (if c.None? then 0 else Cost(body[1..], c.value, facts)) + RowsCost(rows[1..], body, b, facts)
  }

  function EnterCost(rule: Rule, args: seq<Id>, facts: Facts): nat {
    if |rule.head.terms| != |args| then 0
    else
      var b := Unify(rule.head.terms, args, map[]);
      if b.None? then 0 else Cost(rule.body, b.value, facts)
  }

  function AttemptCost(rule: Rule, args: seq<Id>, facts: Facts): nat {
    var rows := facts(rule.head.pred, Somes(args));
    if rows.Err? then 1 else 2 + |rows.value| + EnterCost(rule, args, facts)
  }

  function SearchCost(rules: seq<Rule>, pred: Id, args: seq<Id>, facts: Facts): nat {
    if rules == [] then 0
    else (if rules[0].head.pred == pred then AttemptCost(rules[0], args, facts) else 0)
         + SearchCost(rules[1..], pred, args, facts)
  }

  /** No fact answers this ground goal. */
  ghost predicate Fails(pred: Id, p: Pattern, facts: Facts) {
    Grounded(p) && facts(pred, p).Ok? && forall row :: row in facts(pred, p).value ==> |row| == |p| && !Matches(p, row)
  }

  lemma {:induction false} NoRowUnifies(rows: Rows, body: seq<Atom>, b: Bindings, facts: Facts)
    requires body != []
    requires forall k :: 0 <= k < |rows| ==> |rows[k]| == |body[0].terms| && Unify(body[0].terms, rows[k], b) == None
    ensures SolveRows(rows, body, b, facts) == Ok(None)
  {
    if rows != [] {
      NoRowUnifies(rows[1..], body, b, facts);
    }
  }

  lemma FailedGoalHasNoSolution(body: seq<Atom>, b: Bindings, facts: Facts)
    requires body != [] && Fails(body[0].pred, PatternOf(body[0].terms, b), facts)
    ensures Solve(body, b, facts) == Ok(None)
  {
    var rows := facts(body[0].pred, PatternOf(body[0].terms, b)).value;
    forall k | 0 <= k < |rows|
      ensures |rows[k]| == |body[0].terms| && Unify(body[0].terms, rows[k], b) == None
    {
      assert rows[k] in rows;
      GroundUnify(body[0].terms, rows[k], b);
    }
    NoRowUnifies(rows, body, b, facts);
  }

  lemma ExhaustedGoalFails(a: Atom, b: Bindings, facts: Facts)
    requires Grounded(PatternOf(a.terms, b)) && facts(a.pred, PatternOf(a.terms, b)).Ok?
    requires var rows := facts(a.pred, PatternOf(a.terms, b)).value;
             forall k :: 0 <= k < |rows| ==> |rows[k]| == |a.terms| && Unify(a.terms, rows[k], b) == None
    ensures Fails(a.pred, PatternOf(a.terms, b), facts)
  {
    var p := PatternOf(a.terms, b);
    forall row | row in facts(a.pred, p).value
      ensures |row| == |p| && !Matches(p, row)
    {
      GroundUnify(a.terms, row, b);
    }
  }

  class Evaluation {
    const provider: Provider
    ghost const facts: Facts
    ghost const enough: nat
    var remaining: nat
    var failed: set<(Id, Pattern)>

    ghost predicate Valid()
      reads this
    {
      Agrees(provider, facts) && forall s :: s in failed ==> Fails(s.0, s.1, facts)
    }

    constructor (provider: Provider, budget: nat, ghost facts: Facts, ghost enough: nat)
      requires Agrees(provider, facts)
      ensures Valid() && remaining == budget
      ensures this.provider == provider && this.facts == facts && this.enough == enough
    {
      this.provider, this.facts, this.enough, remaining, failed := provider, facts, enough, budget, {};
    }

    /** A budget that covers the cost, and leaves what the provider needs, is never exhausted. */
    ghost predicate TooLittle(budget: nat, cost: nat) {
      Supplies(provider, facts, enough) ==> budget < cost + enough
    }

    method Spend() returns (ok: bool)
      modifies this`remaining
      ensures ok <==> old(remaining) > 0
      ensures remaining == if ok then old(remaining) - 1 else 0
    {
      ok := remaining > 0;
      if ok {
        remaining := remaining - 1;
      }
    }

    /** One goal after the other, with the memory of ground goals that no fact answers. */
    method SolveBody(body: seq<Atom>, b: Bindings) returns (r: Result<Option<Bindings>, Fault>)
      requires Valid()
      modifies this`remaining, this`failed
      ensures Valid() && remaining <= old(remaining)
      ensures r == Solve(body, b, facts) || (r == Err(Exhausted) && TooLittle(old(remaining), Cost(body, b, facts)))
      ensures old(remaining) - remaining <= Cost(body, b, facts)
      decreases |body|
    {
      hide Agrees, Fails, Supplies, Unify, Grounded;
      if body == [] {
        return Ok(Some(b));
      }
      var paid := Spend();
      if !paid {
        return Err(Exhausted);
      }
      var terms, pred := body[0].terms, body[0].pred;
      var goal := PatternOf(terms, b);
      if (pred, goal) in failed {
        FailedGoalHasNoSolution(body, b, facts);
        return Ok(None);
      }
      var answer := provider(pred, goal, remaining);
      ProviderAnswers(pred, goal, remaining);
      if answer.Err? {
        return Err(answer.error);
      }
      var rows, yielded := answer.value, false;
      for i := 0 to |rows|
        invariant Valid() && remaining <= old(remaining)
        invariant SolveRows(rows, body, b, facts) == SolveRows(rows[i..], body, b, facts)
        invariant old(remaining) - remaining + RowsCost(rows[i..], body, b, facts) <= Cost(body, b, facts)
        invariant !yielded ==> forall j :: 0 <= j < i ==> |rows[j]| == |terms| && Unify(terms, rows[j], b) == None
      {
        assert rows[i..][1..] == rows[i + 1..];
        paid := Spend();
        if !paid {
          return Err(Exhausted);
        }
        if |rows[i]| != |terms| {
          return Err(InvalidCell);
        }
        var c := Unify(terms, rows[i], b);
        if c.Some? {
          yielded := true;
          r := SolveBody(body[1..], c.value);
          if r.Err? || r.value.Some? {
            return;
          }
        }
      }
      if Grounded(goal) && !yielded {
        ExhaustedGoalFails(body[0], b, facts);
        failed := failed + {(pred, goal)};
      }
      return Ok(None);
    }

    lemma ProviderAnswers(pred: Id, p: Pattern, left: nat)
      requires Valid()
      ensures provider(pred, p, left) == facts(pred, p)
              || (provider(pred, p, left) == Err(Exhausted) && (Supplies(provider, facts, enough) ==> left < enough))
    {
    }

    /** One entry rule, with nothing remembered from the others. */
    method TryRule(rule: Rule, args: seq<Id>) returns (r: Result<Option<Bindings>, Fault>)
      requires Valid()
      modifies this`remaining, this`failed
      ensures Valid() && remaining <= old(remaining)
      ensures r == Attempt(rule, args, facts)
              || (r == Err(Exhausted) && TooLittle(old(remaining), AttemptCost(rule, args, facts)))
      ensures old(remaining) - remaining <= AttemptCost(rule, args, facts)
    {
      hide Agrees, Fails, Supplies, Unify, Cost;
      failed := {};
      var paid := Spend();
      if !paid {
        return Err(Exhausted);
      }
      var answer := provider(rule.head.pred, Somes(args), remaining);
      ProviderAnswers(rule.head.pred, Somes(args), remaining);
      if answer.Err? {
        return Err(answer.error);
      }
      var rows := answer.value;
      for i := 0 to |rows|
        invariant Valid() && remaining <= old(remaining)
        invariant QueryFacts(rows, args) == QueryFacts(rows[i..], args)
        invariant old(remaining) - remaining == 1 + i
      {
        assert rows[i..][1..] == rows[i + 1..];
        paid := Spend();
        if !paid {
          return Err(Exhausted);
        }
        if |rows[i]| != |args| || rows[i] == args {
          return Err(InvalidCell);
        }
      }
      paid := Spend();
      if !paid {
        return Err(Exhausted);
      }
      if |rule.head.terms| != |args| {
        return Ok(None);
      }
      var b := Unify(rule.head.terms, args, map[]);
      if b.None? {
        return Ok(None);
      }
      r := SolveBody(rule.body, b.value);
    }

    /** The rules for the predicate in order, up to the first proof. */
    method Search(rules: seq<Rule>, pred: Id, args: seq<Id>) returns (r: Result<Option<Proof>, Fault>)
      requires Valid()
      modifies this`remaining, this`failed
      ensures Valid() && remaining <= old(remaining)
      ensures r == FirstProof(rules, pred, args, facts)
              || (r == Err(Exhausted) && TooLittle(old(remaining), SearchCost(rules, pred, args, facts)))
      ensures old(remaining) - remaining <= SearchCost(rules, pred, args, facts)
    {
      hide Agrees, Fails, Supplies, Attempt, AttemptCost;
      for i := 0 to |rules|
        invariant Valid() && remaining <= old(remaining)
        invariant FirstProof(rules, pred, args, facts) == FirstProof(rules[i..], pred, args, facts)
        invariant old(remaining) - remaining + SearchCost(rules[i..], pred, args, facts)
                  <= SearchCost(rules, pred, args, facts)
      {
        assert rules[i..][1..] == rules[i + 1..];
        if rules[i].head.pred == pred {
          var found := TryRule(rules[i], args);
          if found.Err? {
            return Err(found.error);
          }
          if found.value.Some? {
            return Ok(Some(Proof(rules[i].root, found.value.value)));
          }
        }
      }
      return Ok(None);
    }
  }

  /** No body atom's predicate heads a rule, so that goals are answered by facts alone. */
  predicate Flat(rules: seq<Rule>) {
    forall i, j, k :: 0 <= i < |rules| && 0 <= j < |rules| && 0 <= k < |rules[i].body| ==>
                        rules[i].body[k].pred != rules[j].head.pred
  }

  /** Reads the program from the graph and evaluates one grounded query, up to its first proof. */
  method EvaluateLogic(g: Graph, p: Protocol, program: Id, pred: Id, args: seq<Id>, provider: Provider, budget: nat,
                       ghost facts: Facts, ghost enough: nat)
    returns (r: Result<Option<Proof>, Fault>, left: nat)
    requires Agrees(provider, facts)
    requires ReadProgram(g, p, program, budget).Ok? ==> Flat(ReadProgram(g, p, program, budget).value)
    ensures left <= budget
    ensures args == [] || budget == 0 ==> r == Err(InvalidCell)
    ensures args != [] && budget > 0 ==>
              var rules := ReadProgram(g, p, program, budget);
              || (rules.Err? && r == Err(rules.error))
              || (rules.Ok? && r == FirstProof(rules.value, pred, args, facts))
              || (rules.Ok? && r == Err(Exhausted)
                  && (Supplies(provider, facts, enough) ==>
                      budget < SearchCost(rules.value, pred, args, facts) + enough))
    ensures args != [] && budget > 0 && ReadProgram(g, p, program, budget).Ok? ==>
              budget - left <= SearchCost(ReadProgram(g, p, program, budget).value, pred, args, facts)
  {
    hide Agrees, Supplies, FirstProof, ReadProgram, SearchCost;
    left := budget;
    if args == [] || budget == 0 {
      return Err(InvalidCell), left;
    }
    var rules := ReadProgram(g, p, program, budget);
    if rules.Err? {
      return Err(rules.error), left;
    }
    var evaluation := new Evaluation(provider, budget, facts, enough);
    r := evaluation.Search(rules.value, pred, args);
    left := evaluation.remaining;
  }
}
