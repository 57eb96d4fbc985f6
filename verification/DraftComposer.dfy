/** The draft language of the canvas composer: a static check of references to existing nodes and to
    local names, the interpreter that stops at the first failure, and the revision check around the
    model call that runs without the lock. */
module DraftComposer {
  import opened Wrappers

  /** A reference to a node: its id, the local name of an earlier creation, or neither. */
  datatype NodeRef = ById(id: string) | ByName(name: string) | Malformed

  datatype Op = Place | Node | Work | Select | Group | Ungroup | SetProperty | Wire | Open | Run

  /** The value under a creation's `ref` key. */
  datatype LocalName = Text(text: string) | NotText

  /** One action.  `fieldsFine` stands for the checks of positions, texts, criteria and parameters;
      `roots` is None when it is not a list, a missing endpoint or root to open is Malformed. */
  datatype Action = Action(
    op: Op, ref: Option<LocalName>, roots: Option<seq<NodeRef>>, source: NodeRef, target: NodeRef,
    root: Option<NodeRef>, definition: string, fieldsFine: bool)

  const LONGEST_NAME: nat := 64

  // ---------- the static check ----------

  predicate Letter(c: char) {
    'a' <= c <= 'z' || 'A' <= c <= 'Z'
  }

  predicate NameChar(c: char) {
    Letter(c) || '0' <= c <= '9' || c == '_' || c == '-'
  }

  predicate WellFormedName(s: string) {
    0 < |s| <= LONGEST_NAME && Letter(s[0]) && forall k :: 0 < k < |s| ==> NameChar(s[k])
  }

  predicate Creates(op: Op) {
    op == Place || op == Node || op == Work || op == Group
  }

  /** The references an action uses. */
  function Uses(a: Action): seq<NodeRef> {
    match a.op
    case Select => if a.roots.Some? then a.roots.value else []
    case Wire => [a.source, a.target]
    case SetProperty => if a.root.Some? then [a.root.value] else []
    case Open => [if a.root.Some? then a.root.value else Malformed]
    case _ => []
  }

  predicate Known(r: NodeRef, known: set<string>, declared: set<string>) {
    match r
    case ById(id) => id in known
    case ByName(name) => name in declared
    case Malformed => false
  }

  predicate UsesKnown(a: Action, known: set<string>, declared: set<string>) {
    forall k :: 0 <= k < |Uses(a)| ==> Known(Uses(a)[k], known, declared)
  }

  /** What the check asks of an action besides its references. */
  predicate ShapeFine(a: Action) {
    a.fieldsFine && (a.op == Select ==> a.roots.Some? && a.roots.value != [])
  }

  predicate RefFine(a: Action, declared: set<string>) {
    a.ref.Some? ==>
      Creates(a.op) && a.ref.value.Text? && WellFormedName(a.ref.value.text) && a.ref.value.text !in declared
  }

  /** The names that the actions before the i-th declare. */
  function Declared(actions: seq<Action>, i: nat): set<string>
    requires i <= |actions|
  {
    if i == 0 then {}
    else
      Declared(actions, i - 1)
      + if actions[i - 1].ref.Some? && actions[i - 1].ref.value.Text? then {actions[i - 1].ref.value.text} else {}
  }

  predicate ActionFine(actions: seq<Action>, i: nat, known: set<string>)
    requires i < |actions|
  {
    ShapeFine(actions[i]) && UsesKnown(actions[i], known, Declared(actions, i))
      && RefFine(actions[i], Declared(actions, i))
  }

  predicate Admitted(actions: seq<Action>, known: set<string>) {
    forall i :: 0 <= i < |actions| ==> ActionFine(actions, i, known)
  }

  method ValidateDraftReferences(actions: seq<Action>, known: set<string>) returns (admitted: bool)
    ensures admitted <==> Admitted(actions, known)
  {
    var declared: set<string> := {};
    for i := 0 to |actions|
      invariant declared == Declared(actions, i)
      invariant forall j :: 0 <= j < i ==> ActionFine(actions, j, known)
    {
      var action := actions[i];
      if !ShapeFine(action) {
        assert !ActionFine(actions, i, known);
        return false;
      }
      var values := Uses(action);
      for k := 0 to |values|
        invariant forall j :: 0 <= j < k ==> Known(values[j], known, declared)
      {
        if !Known(values[k], known, declared) {
          assert !UsesKnown(action, known, declared) && !ActionFine(actions, i, known);
          return false;
        }
      }
      if action.ref.Some? {
        if !RefFine(action, declared) {
          assert !ActionFine(actions, i, known);
          return false;
        }
        declared := declared + {action.ref.value.text};
      }
    }
    return true;
  }

  /** An action before the i-th carries this local name. */
  predicate NamedBefore(actions: seq<Action>, i: nat, name: string)
    requires i <= |actions|
  {
    exists j :: 0 <= j < i && actions[j].ref == Some(Text(name))
  }

  predicate RefersTo(a: Action, r: NodeRef) {
    match a.op
    case Select => a.roots.Some? && r in a.roots.value
    case Wire => r == a.source || r == a.target
    case SetProperty => a.root == Some(r)
    case Open => if a.root.None? then r == Malformed else r == a.root.value
    case _ => false
  }

  lemma UsesAre(a: Action, r: NodeRef)
    ensures r in Uses(a) <==> RefersTo(a, r)
  {
  }

  lemma {:induction false} DeclaredAre(actions: seq<Action>, i: nat, name: string)
    requires i <= |actions|
    ensures name in Declared(actions, i) <==> NamedBefore(actions, i, name)
  {
    if i > 0 {
      DeclaredAre(actions, i - 1, name);
      assert NamedBefore(actions, i, name) <==>
             NamedBefore(actions, i - 1, name) || actions[i - 1].ref == Some(Text(name));
    }
  }

  /** What the check asks of one action: every reference is an existing node or a name given before, and its
      own name is new, well formed and that of a creation. */
  ghost predicate InOrder(actions: seq<Action>, i: nat, known: set<string>)
    requires i < |actions|
  {
    var a := actions[i];
    && a.fieldsFine && (a.op == Select ==> a.roots.Some? && |a.roots.value| > 0)
    && (forall r :: RefersTo(a, r) ==>
          (r.ById? && r.id in known) || (r.ByName? && NamedBefore(actions, i, r.name)))
    && match a.ref
       case None => true
       case Some(NotText) => false
       case Some(Text(name)) =>
         a.op in {Place, Node, Work, Group} && WellFormedName(name) && !NamedBefore(actions, i, name)
  }

  lemma AdmittedMeans(actions: seq<Action>, known: set<string>)
    ensures Admitted(actions, known) <==> forall i :: 0 <= i < |actions| ==> InOrder(actions, i, known)
  {
    hide InOrder;
    forall i | 0 <= i < |actions|
      ensures ActionFine(actions, i, known) <==> InOrder(actions, i, known)
    {
      FineIsInOrder(actions, i, known);
    }
  }

  lemma FineIsInOrder(actions: seq<Action>, i: nat, known: set<string>)
    requires i < |actions|
    ensures ActionFine(actions, i, known) <==> InOrder(actions, i, known)
  {
    hide Uses, RefersTo, Declared, NamedBefore, WellFormedName;
    var a := actions[i];
    forall name
      ensures name in Declared(actions, i) <==> NamedBefore(actions, i, name)
    {
      DeclaredAre(actions, i, name);
    }
    forall r
      ensures RefersTo(a, r) <==> exists k :: 0 <= k < |Uses(a)| && Uses(a)[k] == r
    {
      UsesAre(a, r);
    }
  }

  // ---------- the interpreter ----------

  /** What a writer does when it is called: it creates or changes, refuses, or raises. */
  datatype Outcome = Done(root: string) | WriterRefuses | NothingFound | Raises

  datatype Why = Dependency | NotInCatalogue | NoKnownRoots | NoSuchProperty | UnknownEndpoint | UnknownRoot | Refused

  /** What an action reports: the root it made, opened or wired with, and the nodes it acted on. */
  datatype Entry = Entry(op: Op, why: Option<Why>, root: string, nodes: seq<string>) {
    predicate Ok() { why.None? }
  }

  datatype State = State(references: map<string, string>, nodeIds: set<string>, applied: seq<Entry>,
                         executionRequested: bool)

  datatype Progress = Next(state: State) | Stop(state: State) | Raised

  /** The root a reference stands for, if it is a node that exists. */
  function Resolve(r: NodeRef, s: State): Option<string> {
    match r
    case ById(id) => if id in s.nodeIds then Some(id) else None
    case ByName(name) =>
      if name in s.references && s.references[name] in s.nodeIds then Some(s.references[name]) else None
    case Malformed => None
  }

  predicate Resolvable(a: Action, s: State) {
    forall k :: 0 <= k < |Uses(a)| ==> Resolve(Uses(a)[k], s).Some?
  }

  function Fail(s: State, op: Op, why: Why): Progress {
    Stop(s.(applied := s.applied + [Entry(op, Some(why), "", [])]))
  }

  function Succeed(s: State, op: Op, root: string, nodes: seq<string>): State {
    s.(applied := s.applied + [Entry(op, None, root, nodes)])
  }

  /** The nodes that the references of an action stand for. */
  function Nodes(a: Action, s: State): seq<string> {
    if !Resolvable(a, s) then []
    else seq(|Uses(a)|, k requires 0 <= k < |Uses(a)| && Resolve(Uses(a)[k], s).Some? => Resolve(Uses(a)[k], s).value)
  }

  /** A creation adds its node, and its local name if it has one. */
  function Create(s: State, a: Action, root: string): State {
    var named := if a.ref.Some? && a.ref.value.Text? then s.references[a.ref.value.text := root] else s.references;
    Succeed(s.(nodeIds := s.nodeIds + {root}, references := named), a.op, root, [])
  }

  function Perform(a: Action, s: State, catalogue: map<string, string>, outcome: Outcome): Progress {
    match a.op
    case Work => if outcome.Done? then Next(Create(s, a, outcome.root)) else Raised
    case Node =>
      if outcome.Done? then Next(Create(s, a, outcome.root)) else if outcome.Raises? then Raised
      else Fail(s, a.op, Refused)
    case Place =>
      if a.definition !in catalogue || catalogue[a.definition] == "" then Fail(s, a.op, NotInCatalogue)
      else if outcome.Done? then Next(Create(s, a, outcome.root)) else Raised
    case Select =>
      if Uses(a) == [] then Fail(s, a.op, NoKnownRoots)
      else if outcome.Done? then Next(Succeed(s, a.op, "", Nodes(a, s))) else Raised
    case Group => if outcome.Done? then Next(Create(s, a, outcome.root)) else Raised
    case Ungroup => if outcome.Done? then Next(Succeed(s, a.op, "", Nodes(a, s))) else Raised
    case SetProperty =>
      if outcome.NothingFound? then Fail(s, a.op, NoSuchProperty)
      else if outcome.Done? then Next(Succeed(s, a.op, "", Nodes(a, s))) else Raised
    case Wire =>
      var source, target := Resolve(a.source, s), Resolve(a.target, s);
      if source.None? || target.None? then Fail(s, a.op, UnknownEndpoint)
      else if outcome.Done? then Next(Succeed(s, a.op, outcome.root, [source.value, target.value]))
      else if outcome.Raises? then Raised
      else Fail(s, a.op, Refused)
    case Run => Next(s.(executionRequested := true))
    case Open =>
      var root := if a.root.Some? then Resolve(a.root.value, s) else None;
      if root.None? then Fail(s, a.op, UnknownRoot)
      else if outcome.Done? then Next(Succeed(s, a.op, root.value, [root.value])) else Raised
  }

  function Step(a: Action, s: State, catalogue: map<string, string>, outcome: Outcome): Progress {
    if !Resolvable(a, s) && !(a.op == Open && a.root.None?) then Fail(s, a.op, Dependency)
    else Perform(a, s, catalogue, outcome)
  }

  /** The actions from the i-th on; None when a writer raised. */
  function Interpret(actions: seq<Action>, i: nat, s: State, catalogue: map<string, string>,
                     outcomes: seq<Outcome>): Option<State>
    requires i <= |actions| == |outcomes|
    decreases |actions| - i
  {
    if i == |actions| then Some(s)
    else
      match Step(actions[i], s, catalogue, outcomes[i])
      case Next(t) => Interpret(actions, i + 1, t, catalogue, outcomes)
      case Stop(t) => Some(t)
      case Raised => None
  }

  function Initial(known: set<string>): State {
    State(map[], known, [], false)
  }

  /** The loop: references and nodes grow with every creation, and the first failure ends it. */
  method ApplyDraftActions(actions: seq<Action>, known: set<string>, catalogue: map<string, string>,
                           outcomes: seq<Outcome>)
    returns (r: Option<State>)
    requires |actions| == |outcomes|
    ensures r == Interpret(actions, 0, Initial(known), catalogue, outcomes)
    ensures Admitted(actions, known) && r.Some? ==> WellApplied(r.value, actions)
    ensures r.Some? ==> RunReported(actions, known, outcomes, r.value)
    ensures r.None? ==> exists k :: 0 <= k < |outcomes| && !outcomes[k].Done?
  {
    hide Step;
    RunIsReported(actions, known, catalogue, outcomes);
    if Admitted(actions, known) {
      DraftIsSound(actions, known, catalogue, outcomes);
    }
    var references: map<string, string>, nodeIds, applied, executionRequested := map[], known, [], false;
    for i := 0 to |actions|
      invariant Interpret(actions, 0, Initial(known), catalogue, outcomes)
             == Interpret(actions, i, State(references, nodeIds, applied, executionRequested), catalogue, outcomes)
    {
      var progress := Step(actions[i], State(references, nodeIds, applied, executionRequested), catalogue, outcomes[i]);
      if progress.Raised? {
        return None;
      }
      references, nodeIds, applied := progress.state.references, progress.state.nodeIds, progress.state.applied;
      executionRequested := progress.state.executionRequested;
      if progress.Stop? {
        break;
      }
    }
    return Some(State(references, nodeIds, applied, executionRequested));
  }

  // ---------- soundness ----------

  /** The refusals that the static check rules out. */
  predicate ReferenceTrouble(why: Why) {
    why == Dependency || why == NoKnownRoots || why == UnknownEndpoint || why == UnknownRoot
  }

  function Visible(actions: seq<Action>): nat {
    if actions == [] then 0 else Visible(actions[..|actions| - 1]) + if actions[|actions| - 1].op == Run then 0 else 1
  }

  predicate AllOk(entries: seq<Entry>) {
    forall k :: 0 <= k < |entries| ==> entries[k].Ok()
  }

  /** No entry has reference trouble, none but the last failed, and a run without failure reports
      every action that is not a run. */
  predicate WellApplied(s: State, actions: seq<Action>) {
    && (forall k :: 0 <= k < |s.applied| && !s.applied[k].Ok() ==>
        k == |s.applied| - 1 && !ReferenceTrouble(s.applied[k].why.value))
    && (AllOk(s.applied) ==> |s.applied| == Visible(actions))
  }

  /** Before the i-th action: exactly the declared names stand for existing nodes. */
  predicate Consistent(actions: seq<Action>, i: nat, known: set<string>, s: State)
    requires i <= |actions|
  {
    && known <= s.nodeIds && s.references.Keys == Declared(actions, i)
    && (forall name :: name in s.references ==> s.references[name] in s.nodeIds)
    && AllOk(s.applied) && |s.applied| == Visible(actions[..i])
  }

  lemma AdmittedResolves(actions: seq<Action>, i: nat, known: set<string>, s: State)
    requires i < |actions| && ActionFine(actions, i, known) && Consistent(actions, i, known, s)
    ensures Resolvable(actions[i], s) && !(actions[i].op == Open && actions[i].root.None?)
  {
    var a := actions[i];
    forall k | 0 <= k < |Uses(a)|
      ensures Resolve(Uses(a)[k], s).Some?
    {
      assert Known(Uses(a)[k], known, Declared(actions, i));
    }
    assert a.op == Open ==> Known(Uses(a)[0], known, Declared(actions, i));
  }

  lemma OneMore(actions: seq<Action>, i: nat)
    requires i < |actions|
    ensures Visible(actions[..i + 1]) == Visible(actions[..i]) + if actions[i].op == Run then 0 else 1
  {
    assert actions[..i + 1][..i] == actions[..i];
  }

  lemma CreateKeepsConsistent(actions: seq<Action>, i: nat, known: set<string>, s: State, root: string)
    requires i < |actions| && ActionFine(actions, i, known) && Consistent(actions, i, known, s)
             && Creates(actions[i].op)
    ensures Consistent(actions, i + 1, known, Create(s, actions[i], root))
  {
    hide Visible, WellFormedName, UsesKnown, ShapeFine;
    OneMore(actions, i);
  }

  lemma OthersKeepConsistent(actions: seq<Action>, i: nat, known: set<string>, s: State, root: string,
                             nodes: seq<string>)
    requires i < |actions| && ActionFine(actions, i, known) && Consistent(actions, i, known, s)
             && !Creates(actions[i].op)
    ensures actions[i].op != Run ==> Consistent(actions, i + 1, known, Succeed(s, actions[i].op, root, nodes))
    ensures actions[i].op == Run ==> Consistent(actions, i + 1, known, s.(executionRequested := true))
  {
    hide Visible, WellFormedName, UsesKnown, ShapeFine;
    OneMore(actions, i);
  }

  /** Where its references resolve, an action fails for no reference. */
  lemma ResolvedStep(a: Action, s: State, catalogue: map<string, string>, outcome: Outcome)
    requires Resolvable(a, s) && !(a.op == Open && a.root.None?) && ShapeFine(a)
    ensures var p := Step(a, s, catalogue, outcome);
            && (p.Next? ==> || (Creates(a.op) && outcome.Done? && p.state == Create(s, a, outcome.root))
                            || (!Creates(a.op) && a.op != Run
                                && exists root, nodes :: p.state == Succeed(s, a.op, root, nodes))
                            || (a.op == Run && p.state == s.(executionRequested := true)))
            && (p.Stop? ==>
                exists why :: !ReferenceTrouble(why) && p.state.applied == s.applied + [Entry(a.op, Some(why), "", [])])
  {
    hide Create, Resolve;
    if a.op == Wire {
      assert Uses(a)[0] == a.source && Uses(a)[1] == a.target;
      assert Resolve(Uses(a)[0], s).Some? && Resolve(Uses(a)[1], s).Some?;
    }
    assert a.op == Open ==> Resolve(Uses(a)[0], s).Some?;
    var p := Step(a, s, catalogue, outcome);
    if p.Stop? {
      assert !ReferenceTrouble(p.state.applied[|s.applied|].why.value);
    }
  }

  lemma StepKeepsConsistent(actions: seq<Action>, i: nat, known: set<string>, s: State, catalogue: map<string, string>,
                            outcome: Outcome)
    requires i < |actions| && ActionFine(actions, i, known) && Consistent(actions, i, known, s)
    ensures var p := Step(actions[i], s, catalogue, outcome);
            && (p.Next? ==> Consistent(actions, i + 1, known, p.state))
            && (p.Stop? ==>
                exists why :: !ReferenceTrouble(why)
                  && p.state.applied == s.applied + [Entry(actions[i].op, Some(why), "", [])])
  {
    hide Step, Consistent, Create, Succeed, ShapeFine, Resolvable, UsesKnown, RefFine;
    AdmittedResolves(actions, i, known, s);
    ResolvedStep(actions[i], s, catalogue, outcome);
    var p := Step(actions[i], s, catalogue, outcome);
    if p.Next? {
      if Creates(actions[i].op) {
        CreateKeepsConsistent(actions, i, known, s, outcome.root);
      } else if actions[i].op == Run {
        OthersKeepConsistent(actions, i, known, s, "", []);
      } else {
        var root, nodes :| p.state == Succeed(s, actions[i].op, root, nodes);
        OthersKeepConsistent(actions, i, known, s, root, nodes);
      }
    }
  }

  lemma {:induction false} InterpretIsSound(actions: seq<Action>, i: nat, known: set<string>, s: State,
                                            catalogue: map<string, string>,
                                            outcomes: seq<Outcome>)
    requires i <= |actions| == |outcomes| && Admitted(actions, known) && Consistent(actions, i, known, s)
    ensures var r := Interpret(actions, i, s, catalogue, outcomes); r.Some? ==> WellApplied(r.value, actions)
    decreases |actions| - i
  {
    hide Step, ActionFine;
    if i == |actions| {
      assert actions[..i] == actions;
    } else {
      StepKeepsConsistent(actions, i, known, s, catalogue, outcomes[i]);
      var p := Step(actions[i], s, catalogue, outcomes[i]);
      if p.Next? {
        InterpretIsSound(actions, i + 1, known, p.state, catalogue, outcomes);
      } else if p.Stop? {
        StoppedIsWellApplied(s, p.state, actions, actions[i].op);
      }
    }
  }

  lemma StoppedIsWellApplied(s: State, t: State, actions: seq<Action>, op: Op)
    requires AllOk(s.applied)
    requires exists why :: !ReferenceTrouble(why) && t.applied == s.applied + [Entry(op, Some(why), "", [])]
    ensures WellApplied(t, actions)
  {
    var why :| !ReferenceTrouble(why) && t.applied == s.applied + [Entry(op, Some(why), "", [])];
    assert t.applied[|s.applied|].why == Some(why);
    assert forall k :: 0 <= k < |s.applied| ==> t.applied[k] == s.applied[k];
  }

  /** An admitted draft never fails for a reference, whatever the writers do. */
  lemma DraftIsSound(actions: seq<Action>, known: set<string>, catalogue: map<string, string>, outcomes: seq<Outcome>)
    requires |actions| == |outcomes| && Admitted(actions, known)
    ensures var r := Interpret(actions, 0, Initial(known), catalogue, outcomes);
            r.Some? ==> WellApplied(r.value, actions)
  {
    assert actions[..0] == [];
    InterpretIsSound(actions, 0, known, Initial(known), catalogue, outcomes);
  }

  // ---------- what a run reports ----------

  predicate Binds(a: Action, name: string) {
    Creates(a.op) && a.ref == Some(Text(name))
  }

  /** Before the i-th action: a node's own id, or the root that the last creation under the name returned. */
  predicate StandsFor(actions: seq<Action>, outcomes: seq<Outcome>, i: nat, r: NodeRef, root: string)
    requires i <= |actions| == |outcomes|
  {
    match r
    case ById(id) => root == id
    case ByName(name) =>
      exists j ::
        && 0 <= j < i && Binds(actions[j], name) && outcomes[j] == Done(root)
        && forall k :: j < k < i ==> !Binds(actions[k], name)
    case Malformed => false
  }

  /** A successful entry names the root its own writer returned, and the nodes its references stand for. */
  predicate Reports(actions: seq<Action>, outcomes: seq<Outcome>, i: nat, entry: Entry)
    requires i < |actions| == |outcomes|
  {
    var a, nodes := actions[i], entry.nodes;
    && entry.Ok() && entry.op == a.op && outcomes[i].Done?
    && match a.op
       case Wire =>
         && |nodes| == 2 && entry.root == outcomes[i].root
         && StandsFor(actions, outcomes, i, a.source, nodes[0]) && StandsFor(actions, outcomes, i, a.target, nodes[1])
       case Open =>
         && nodes == [entry.root] && a.root.Some? && StandsFor(actions, outcomes, i, a.root.value, entry.root)
       case Select =>
         && a.roots.Some? && |nodes| == |a.roots.value| > 0
         && forall k :: 0 <= k < |nodes| ==> StandsFor(actions, outcomes, i, a.roots.value[k], nodes[k])
       case SetProperty =>
         if a.root.None? then nodes == []
         else |nodes| == 1 && StandsFor(actions, outcomes, i, a.root.value, nodes[0])
       case Ungroup => nodes == []
       case Run => false
       case _ => nodes == [] && entry.root == outcomes[i].root
  }

  /** The first n actions were performed: their names, their nodes and their entries, a run's being a mark. */
  ghost predicate Performed(actions: seq<Action>, n: nat, known: set<string>, outcomes: seq<Outcome>, s: State)
    requires n <= |actions| == |outcomes|
  {
    && (forall name :: name in s.references <==> exists j :: 0 <= j < n && Binds(actions[j], name))
    && (forall name :: name in s.references ==>
          StandsFor(actions, outcomes, n, ByName(name), s.references[name]))
    && (forall id :: id in s.nodeIds <==>
          id in known || exists j :: 0 <= j < n && Creates(actions[j].op) && outcomes[j] == Done(id))
    && Visible(actions[..n]) <= |s.applied|
    && (forall i :: 0 <= i < n && actions[i].op != Run ==>
          && Visible(actions[..i]) < |s.applied|
          && Reports(actions, outcomes, i, s.applied[Visible(actions[..i])]))
    && (s.executionRequested <==> exists j :: 0 <= j < n && actions[j].op == Run)
  }

  /** Every action was performed, or those before a failed one, whose entry is the last. */
  ghost predicate RunReported(actions: seq<Action>, known: set<string>, outcomes: seq<Outcome>, s: State)
    requires |actions| == |outcomes|
  {
    exists n: nat :: n <= |actions| && Performed(actions, n, known, outcomes, s) && EndsAt(actions, n, s)
  }

  predicate EndsAt(actions: seq<Action>, n: nat, s: State)
    requires n <= |actions|
  {
    if n == |actions| then |s.applied| == Visible(actions)
    else
      && |s.applied| == Visible(actions[..n]) + 1
      && var failed := s.applied[|s.applied| - 1]; !failed.Ok() && failed.op == actions[n].op
  }

  lemma ResolvedStands(actions: seq<Action>, n: nat, known: set<string>, outcomes: seq<Outcome>, s: State, r: NodeRef)
    requires n <= |actions| == |outcomes| && Performed(actions, n, known, outcomes, s) && Resolve(r, s).Some?
    ensures StandsFor(actions, outcomes, n, r, Resolve(r, s).value)
  {
    hide StandsFor, Reports;
    if r.ById? { assert StandsFor(actions, outcomes, n, r, r.id) by { ItselfStands(actions, outcomes, n, r.id); } }
  }

  lemma ItselfStands(actions: seq<Action>, outcomes: seq<Outcome>, n: nat, id: string)
    requires n <= |actions| == |outcomes|
    ensures StandsFor(actions, outcomes, n, ById(id), id)
  {
  }

  lemma StandsLater(actions: seq<Action>, outcomes: seq<Outcome>, n: nat, name: string, root: string)
    requires n < |actions| == |outcomes|
    ensures Binds(actions[n], name) && outcomes[n] == Done(root) ==>
              StandsFor(actions, outcomes, n + 1, ByName(name), root)
    ensures !Binds(actions[n], name) && StandsFor(actions, outcomes, n, ByName(name), root) ==>
              StandsFor(actions, outcomes, n + 1, ByName(name), root)
  {
    hide Binds;
  }

  /** Names and nodes after one more action that was performed. */
  ghost predicate Registers(actions: seq<Action>, n: nat, outcomes: seq<Outcome>, s: State, t: State)
    requires n < |actions| == |outcomes|
  {
    var a := actions[n];
    && t.references == (if Creates(a.op) && a.ref.Some? && a.ref.value.Text? && outcomes[n].Done?
                        then s.references[a.ref.value.text := outcomes[n].root] else s.references)
    && t.nodeIds == (if Creates(a.op) && outcomes[n].Done? then s.nodeIds + {outcomes[n].root} else s.nodeIds)
    && (Creates(a.op) ==> outcomes[n].Done?)
    && (t.executionRequested <==> s.executionRequested || a.op == Run)
    && if a.op == Run then t.applied == s.applied
       else |t.applied| == |s.applied| + 1 && t.applied[..|s.applied|] == s.applied
            && Reports(actions, outcomes, n, t.applied[|s.applied|])
  }

  lemma RegisteredIsPerformed(actions: seq<Action>, n: nat, known: set<string>, outcomes: seq<Outcome>, s: State,
                              t: State)
    requires n < |actions| == |outcomes| && Performed(actions, n, known, outcomes, s)
    requires |s.applied| == Visible(actions[..n]) && Registers(actions, n, outcomes, s, t)
    ensures Performed(actions, n + 1, known, outcomes, t) && |t.applied| == Visible(actions[..n + 1])
  {
    hide StandsFor, Reports, Visible;
    OneMore(actions, n);
    forall name
      ensures name in t.references <==> exists j :: 0 <= j < n + 1 && Binds(actions[j], name)
      ensures name in t.references ==> StandsFor(actions, outcomes, n + 1, ByName(name), t.references[name])
    {
      if name in t.references {
        StandsLater(actions, outcomes, n, name, t.references[name]);
      }
      if j :| 0 <= j < n + 1 && Binds(actions[j], name) {
        assert j < n || j == n;
      }
    }
    forall i | 0 <= i < n + 1 && actions[i].op != Run
      ensures Visible(actions[..i]) < |t.applied| && Reports(actions, outcomes, i, t.applied[Visible(actions[..i])])
    {
      if i < n {
        assert t.applied[Visible(actions[..i])] == s.applied[Visible(actions[..i])];
      }
    }
  }

  lemma StepRegisters(actions: seq<Action>, n: nat, known: set<string>, outcomes: seq<Outcome>, s: State,
                      catalogue: map<string, string>)
    requires n < |actions| == |outcomes| && Performed(actions, n, known, outcomes, s)
    requires Step(actions[n], s, catalogue, outcomes[n]).Next?
    ensures Registers(actions, n, outcomes, s, Step(actions[n], s, catalogue, outcomes[n]).state)
  {
    hide StandsFor, Performed, Resolve, Reports, Create, Succeed, Registers, Resolvable, Nodes;
    var a := actions[n];
    var t := Step(a, s, catalogue, outcomes[n]).state;
    if Creates(a.op) {
      assert t == Create(s, a, outcomes[n].root);
      CreateRegisters(actions, n, outcomes, s);
    } else if a.op == Run {
      assert t == s.(executionRequested := true);
      RunRegisters(actions, n, outcomes, s);
    } else if a.op == Wire || a.op == Open {
      EndsRegister(actions, n, known, outcomes, s, catalogue);
    } else {
      assert t == Succeed(s, a.op, "", Nodes(a, s)) && Resolvable(a, s);
      OthersRegister(actions, n, known, outcomes, s);
    }
  }

  lemma CreateRegisters(actions: seq<Action>, n: nat, outcomes: seq<Outcome>, s: State)
    requires n < |actions| == |outcomes| && Creates(actions[n].op) && outcomes[n].Done?
    ensures Registers(actions, n, outcomes, s, Create(s, actions[n], outcomes[n].root))
  {
  }

  lemma RunRegisters(actions: seq<Action>, n: nat, outcomes: seq<Outcome>, s: State)
    requires n < |actions| == |outcomes| && actions[n].op == Run
    ensures Registers(actions, n, outcomes, s, s.(executionRequested := true))
  {
  }

  lemma EndsRegister(actions: seq<Action>, n: nat, known: set<string>, outcomes: seq<Outcome>, s: State,
                     catalogue: map<string, string>)
    requires n < |actions| == |outcomes| && Performed(actions, n, known, outcomes, s)
    requires Step(actions[n], s, catalogue, outcomes[n]).Next? && (actions[n].op == Wire || actions[n].op == Open)
    ensures Registers(actions, n, outcomes, s, Step(actions[n], s, catalogue, outcomes[n]).state)
  {
    hide StandsFor, Performed, Resolve, Resolvable;
    var a := actions[n];
    if a.op == Wire {
      ResolvedStands(actions, n, known, outcomes, s, a.source);
      ResolvedStands(actions, n, known, outcomes, s, a.target);
    } else {
      ResolvedStands(actions, n, known, outcomes, s, a.root.value);
    }
  }

  lemma OthersRegister(actions: seq<Action>, n: nat, known: set<string>, outcomes: seq<Outcome>, s: State)
    requires n < |actions| == |outcomes| && Performed(actions, n, known, outcomes, s) && outcomes[n].Done?
    requires var a := actions[n];
             && (a.op == Select || a.op == Ungroup || a.op == SetProperty) && Resolvable(a, s)
             && (a.op == Select ==> Uses(a) != [])
    ensures Registers(actions, n, outcomes, s, Succeed(s, actions[n].op, "", Nodes(actions[n], s)))
  {
    hide StandsFor, Performed, Resolve;
    var a := actions[n];
    forall k | 0 <= k < |Uses(a)|
      ensures StandsFor(actions, outcomes, n, Uses(a)[k], Nodes(a, s)[k])
    {
      ResolvedStands(actions, n, known, outcomes, s, Uses(a)[k]);
    }
  }

  /** An action that does not succeed reports a failure, or its writer raised. */
  lemma StepFails(a: Action, s: State, catalogue: map<string, string>, outcome: Outcome)
    ensures var p := Step(a, s, catalogue, outcome);
            && (p.Stop? ==>
                exists why :: p.state == s.(applied := s.applied + [Entry(a.op, Some(why), "", [])]))
            && (p.Raised? ==> !outcome.Done?)
  {
    hide Resolve, Resolvable, Nodes, Create, Uses, Succeed;
    var p := Step(a, s, catalogue, outcome);
    if p.Stop? {
      assert exists why :: p == Fail(s, a.op, why);
    }
  }

  lemma {:induction false} InterpretReports(actions: seq<Action>, n: nat, known: set<string>, s: State,
                                            catalogue: map<string, string>, outcomes: seq<Outcome>)
    requires n <= |actions| == |outcomes| && Performed(actions, n, known, outcomes, s)
    requires |s.applied| == Visible(actions[..n])
    ensures var r := Interpret(actions, n, s, catalogue, outcomes);
            && (r.Some? ==> RunReported(actions, known, outcomes, r.value))
            && (r.None? ==> exists k :: n <= k < |outcomes| && !outcomes[k].Done?)
    decreases |actions| - n
  {
    hide Step, Performed, Visible, Registers;
    if n == |actions| {
      assert actions[..n] == actions;
    } else {
      StepFails(actions[n], s, catalogue, outcomes[n]);
      var p := Step(actions[n], s, catalogue, outcomes[n]);
      if p.Next? {
        StepRegisters(actions, n, known, outcomes, s, catalogue);
        RegisteredIsPerformed(actions, n, known, outcomes, s, p.state);
        InterpretReports(actions, n + 1, known, p.state, catalogue, outcomes);
      } else if p.Stop? {
        StillPerformed(actions, n, known, outcomes, s, p.state);
      }
    }
  }

  lemma StillPerformed(actions: seq<Action>, n: nat, known: set<string>, outcomes: seq<Outcome>, s: State, t: State)
    requires n < |actions| == |outcomes| && Performed(actions, n, known, outcomes, s)
    requires |s.applied| == Visible(actions[..n])
    requires exists why :: t == s.(applied := s.applied + [Entry(actions[n].op, Some(why), "", [])])
    ensures Performed(actions, n, known, outcomes, t) && EndsAt(actions, n, t)
  {
    hide StandsFor, Reports, Visible;
  }

  /** After any run, admitted or not: each local name stands for the root that its own creation returned,
      and each entry for the nodes that its action referred to. */
  lemma RunIsReported(actions: seq<Action>, known: set<string>, catalogue: map<string, string>, outcomes: seq<Outcome>)
    requires |actions| == |outcomes|
    ensures var r := Interpret(actions, 0, Initial(known), catalogue, outcomes);
            && (r.Some? ==> RunReported(actions, known, outcomes, r.value))
            && (r.None? ==> exists k :: 0 <= k < |outcomes| && !outcomes[k].Done?)
  {
    assert actions[..0] == [];
    InterpretReports(actions, 0, known, Initial(known), catalogue, outcomes);
  }

  // ---------- exactness ----------

  /** A run in which every writer succeeds and every created root is new. */
  predicate AllSucceed(actions: seq<Action>, known: set<string>, catalogue: map<string, string>,
                       outcomes: seq<Outcome>) {
    |actions| == |outcomes| && forall i :: 0 <= i < |actions| ==>
      && outcomes[i].Done? && outcomes[i].root !in known
      && (actions[i].op == Place ==> actions[i].definition in catalogue && catalogue[actions[i].definition] != "")
      && (forall j, k :: 0 <= j < |actions| && 0 <= k < |Uses(actions[j])| ==>
          Uses(actions[j])[k] != ById(outcomes[i].root))
  }

  /** All the check asks for, except that references are known. */
  predicate OtherwiseFine(actions: seq<Action>) {
    forall i :: 0 <= i < |actions| ==>
      ShapeFine(actions[i]) && RefFine(actions[i], Declared(actions, i))
        && (actions[i].op == Open ==> actions[i].root.Some?)
  }

  /** In such a run nothing but the known nodes and the declared names resolves. */
  predicate ExactlyDeclared(actions: seq<Action>, i: nat, known: set<string>, s: State, outcomes: seq<Outcome>)
    requires i <= |actions| == |outcomes|
  {
    && Consistent(actions, i, known, s)
    && (forall id :: id in s.nodeIds ==> id in known || exists j :: 0 <= j < i && outcomes[j] == Done(id))
  }

  /** No reference names a root that the run itself creates. */
  lemma NewRootsUnused(actions: seq<Action>, i: nat, k: nat, known: set<string>, catalogue: map<string, string>,
                       outcomes: seq<Outcome>)
    requires i < |actions| && k < |Uses(actions[i])| && AllSucceed(actions, known, catalogue, outcomes)
    ensures Uses(actions[i])[k].ById? ==> Done(Uses(actions[i])[k].id) !in outcomes
  {
  }

  lemma ReferenceResolves(actions: seq<Action>, i: nat, k: nat, known: set<string>, s: State,
                          catalogue: map<string, string>,
                          outcomes: seq<Outcome>)
    requires i < |actions| == |outcomes| && k < |Uses(actions[i])|
    requires AllSucceed(actions, known, catalogue, outcomes) && ExactlyDeclared(actions, i, known, s, outcomes)
    ensures Known(Uses(actions[i])[k], known, Declared(actions, i)) <==> Resolve(Uses(actions[i])[k], s).Some?
  {
    hide AllSucceed, Uses;
    NewRootsUnused(actions, i, k, known, catalogue, outcomes);
    assert forall j :: 0 <= j < |outcomes| ==> outcomes[j] in outcomes;
  }

  lemma UnknownIsUnresolvable(actions: seq<Action>, i: nat, known: set<string>, s: State,
                              catalogue: map<string, string>, outcomes: seq<Outcome>)
    requires i < |actions| == |outcomes| && AllSucceed(actions, known, catalogue, outcomes)
             && ExactlyDeclared(actions, i, known, s, outcomes)
    ensures UsesKnown(actions[i], known, Declared(actions, i)) <==> Resolvable(actions[i], s)
  {
    hide AllSucceed, ExactlyDeclared, Uses, Known, Resolve, Declared;
    var n := |Uses(actions[i])|;
    forall k | 0 <= k < n
      ensures Known(Uses(actions[i])[k], known, Declared(actions, i)) <==> Resolve(Uses(actions[i])[k], s).Some?
    {
      ReferenceResolves(actions, i, k, known, s, catalogue, outcomes);
    }
  }

  lemma SuccessStep(actions: seq<Action>, i: nat, known: set<string>, s: State, catalogue: map<string, string>,
                    outcomes: seq<Outcome>)
    requires i < |actions| && AllSucceed(actions, known, catalogue, outcomes)
             && ExactlyDeclared(actions, i, known, s, outcomes)
    requires ActionFine(actions, i, known)
    ensures var p := Step(actions[i], s, catalogue, outcomes[i]);
            p.Next? && ExactlyDeclared(actions, i + 1, known, p.state, outcomes)
  {
    AdmittedResolves(actions, i, known, s);
    StepKeepsConsistent(actions, i, known, s, catalogue, outcomes[i]);
    var a := actions[i];
    if a.op == Wire {
      assert Resolve(Uses(a)[0], s).Some? && Resolve(Uses(a)[1], s).Some?;
    }
    if a.op == Open {
      assert Resolve(Uses(a)[0], s).Some?;
    }
    var p := Step(a, s, catalogue, outcomes[i]);
    forall id | id in p.state.nodeIds
      ensures id in known || exists j :: 0 <= j < i + 1 && outcomes[j] == Done(id)
    {
      if id !in s.nodeIds {
        assert outcomes[i] == Done(id);
      } else if id !in known {
        var j :| 0 <= j < i && outcomes[j] == Done(id);
        assert 0 <= j < i + 1;
      }
    }
  }

  /** From the i-th action on, every reference is known. */
  predicate RestKnown(actions: seq<Action>, i: nat, known: set<string>)
    requires i <= |actions|
  {
    forall j :: i <= j < |actions| ==> UsesKnown(actions[j], known, Declared(actions, j))
  }

  lemma FirstThenRest(actions: seq<Action>, i: nat, known: set<string>)
    requires i < |actions|
    ensures RestKnown(actions, i, known) <==>
              UsesKnown(actions[i], known, Declared(actions, i)) && RestKnown(actions, i + 1, known)
  {
    hide UsesKnown, Declared;
  }

  lemma OthersFine(actions: seq<Action>, i: nat, known: set<string>)
    requires i < |actions| && OtherwiseFine(actions) && UsesKnown(actions[i], known, Declared(actions, i))
    ensures ActionFine(actions, i, known)
  {
    hide UsesKnown, Declared, ShapeFine, RefFine;
  }

  lemma UnresolvedStops(actions: seq<Action>, i: nat, s: State, catalogue: map<string, string>, outcomes: seq<Outcome>)
    requires i < |actions| == |outcomes| && !Resolvable(actions[i], s) && OtherwiseFine(actions)
    ensures var r := Interpret(actions, i, s, catalogue, outcomes); r.Some? && !AllOk(r.value.applied)
  {
    hide Perform, Resolvable, Declared, RefFine, ShapeFine;
    var r := Interpret(actions, i, s, catalogue, outcomes).value;
    assert !r.applied[|s.applied|].Ok();
  }

  lemma {:induction false} InterpretIsExact(actions: seq<Action>, i: nat, known: set<string>, s: State,
                                            catalogue: map<string, string>,
                                            outcomes: seq<Outcome>)
    requires i <= |actions| == |outcomes| && AllSucceed(actions, known, catalogue, outcomes)
             && ExactlyDeclared(actions, i, known, s, outcomes)
    requires OtherwiseFine(actions)
    ensures var r := Interpret(actions, i, s, catalogue, outcomes);
            r.Some? && (AllOk(r.value.applied) <==> RestKnown(actions, i, known))
    decreases |actions| - i
  {
    hide Step, UsesKnown, Resolvable, OtherwiseFine, AllSucceed, RestKnown, ExactlyDeclared, ActionFine, AllOk,
      Declared;
    if i == |actions| {
      NothingLeft(actions, known, s, outcomes);
    } else {
      UnknownIsUnresolvable(actions, i, known, s, catalogue, outcomes);
      FirstThenRest(actions, i, known);
      if Resolvable(actions[i], s) {
        OthersFine(actions, i, known);
        SuccessStep(actions, i, known, s, catalogue, outcomes);
        InterpretIsExact(actions, i + 1, known, Step(actions[i], s, catalogue, outcomes[i]).state, catalogue, outcomes);
      } else {
        UnresolvedStops(actions, i, s, catalogue, outcomes);
      }
    }
  }

  lemma NothingLeft(actions: seq<Action>, known: set<string>, s: State, outcomes: seq<Outcome>)
    requires |actions| == |outcomes| && ExactlyDeclared(actions, |actions|, known, s, outcomes)
    ensures AllOk(s.applied) && RestKnown(actions, |actions|, known)
  {
  }

  lemma AdmittedIsAllKnown(actions: seq<Action>, known: set<string>)
    requires OtherwiseFine(actions)
    ensures Admitted(actions, known) <==> RestKnown(actions, 0, known)
  {
    hide UsesKnown, Declared, ShapeFine, RefFine;
    forall j | 0 <= j < |actions|
      ensures ActionFine(actions, j, known) <==> UsesKnown(actions[j], known, Declared(actions, j))
    {
    }
  }

  lemma NothingDone(actions: seq<Action>, known: set<string>, outcomes: seq<Outcome>)
    requires |actions| == |outcomes|
    ensures ExactlyDeclared(actions, 0, known, Initial(known), outcomes)
  {
    assert actions[..0] == [];
  }

  /** The check refuses no reference that would have worked: when everything else is in order, and
      every writer succeeds with a new root, the draft runs to its end exactly when it is admitted. */
  lemma CheckIsExact(actions: seq<Action>, known: set<string>, catalogue: map<string, string>, outcomes: seq<Outcome>)
    requires |actions| == |outcomes| && AllSucceed(actions, known, catalogue, outcomes) && OtherwiseFine(actions)
    ensures var r := Interpret(actions, 0, Initial(known), catalogue, outcomes);
            r.Some? && (Admitted(actions, known) <==> AllOk(r.value.applied))
  {
    hide *;
    NothingDone(actions, known, outcomes);
    AdmittedIsAllKnown(actions, known);
    InterpretIsExact(actions, 0, known, Initial(known), catalogue, outcomes);
  }

  // ---------- around the model call ----------

  datatype Reply = Actions(actions: seq<Action>) | TextOnly

  datatype Composed = Answered | Pending(actions: seq<Action>, revision: nat) | Applied(state: State) | Unsupported
    | Changed | NotAsked | Failed

  const MAX_ACTIONS: nat := 12

  /** The canvas under its lock; other threads commit while the lock is free. */
  class Canvas {
    var revision: nat
    var nodes: set<string>
    ghost var history: map<nat, set<string>>

    ghost predicate Valid()
      reads this
    {
      revision in history && history[revision] == nodes && forall k :: k in history ==> k <= revision
    }

    /** The lock is free: any number of commits, each a new revision. */
    method Unlocked(commits: seq<set<string>>)
      requires Valid()
      modifies this
      ensures Valid() && revision == old(revision) + |commits|
      ensures commits == [] ==> nodes == old(nodes)
    {
      for i := 0 to |commits|
        invariant Valid() && revision == old(revision) + i && (i == 0 ==> nodes == old(nodes))
      {
        revision, nodes := revision + 1, commits[i];
        history := history[revision := nodes];
      }
    }

    /** Reads under the lock, waits for the model without it, and applies under the lock again.  A
        draft is applied only to the very canvas it was checked against. */
    method Compose(reply: Reply, wantsChange: bool, previewOnly: bool, catalogue: map<string, string>,
                   outcomes: seq<Outcome>,
                   others: seq<set<string>>)
      returns (r: Composed)
      requires Valid() && (reply.Actions? ==> |outcomes| == |reply.actions|)
      modifies this
      ensures r.Applied? && reply.Actions? && reply.actions != [] ==>
                && others == [] && wantsChange && !previewOnly && |reply.actions| <= MAX_ACTIONS
                && Admitted(reply.actions, old(nodes)) && WellApplied(r.state, reply.actions)
                && Interpret(reply.actions, 0, Initial(old(nodes)), catalogue, outcomes) == Some(r.state)
      ensures r.Pending? ==>
                previewOnly && others == [] && r.revision == old(revision) && reply == Actions(r.actions)
                  && Admitted(r.actions, old(nodes))
      ensures r.Changed? ==> others != []
      ensures r.Unsupported? ==>
                reply.Actions? && (|reply.actions| > MAX_ACTIONS || !Admitted(reply.actions, old(nodes)))
      ensures r.NotAsked? ==> !wantsChange
    {
      var sourceRevision, projection := revision, nodes;
      Unlocked(others);
      if reply.TextOnly? {
        return Answered;
      }
      var actions := reply.actions;
      if |actions| > MAX_ACTIONS {
        return Unsupported;
      }
      var admitted := ValidateDraftReferences(actions, projection);
      if !admitted {
        return Unsupported;
      }
      if actions != [] && !wantsChange {
        return NotAsked;
      }
      if actions != [] && revision != sourceRevision {
        return Changed;
      }
      if previewOnly && actions != [] {
        return Pending(actions, sourceRevision);
      }
      var state := ApplyDraftActions(actions, projection, catalogue, outcomes);
      if state.None? {
        return Failed;
      }
      return Applied(state.value);
    }
  }
}
