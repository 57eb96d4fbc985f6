/** Agent work projected into a task document: the steps of a transcript, the reconciliation of the
    document with them, and the copy of a branch of work. */
module AgentWork {
  import opened Wrappers

  // ---------- the document ----------

  datatype Value = Text(text: string) | Other(repr: int)

  type Params = seq<(string, Value)>

  datatype Work =
    | Session(runtime: string, native: string)
    | Step(owner: string, runtime: string, native: string, calls: seq<string>, kind: string, tool: string,
           runnable: bool, done: bool)

  /** `outputs` are the ids of the source ports, `extra` everything that neither operation looks at. */
  datatype Node = Node(
    id: string, engine: string, title: string, params: Params, x: int, y: int, work: Option<Work>,
    outputs: seq<string>, result: Option<int>, extra: int)

  datatype End = End(node: string, socket: string)

  datatype Wire = Wire(id: string, source: End, target: End, inferred: bool, owner: Option<string>)

  // ---------- steps ----------

  /** The tool of a call: a declaration with its title, a completion, or anything else. */
  datatype Tool = Declare(title: string) | Complete | Ordinary

  datatype Call = Call(id: string, tool: Tool, turn: string, texts: seq<string>)

  datatype Group = Group(key: string, title: string, calls: seq<Call>, done: bool)

  predicate Declares(calls: seq<Call>) {
    exists k :: 0 <= k < |calls| && calls[k].tool.Declare?
  }

  function Last<T>(s: seq<T>): T
    requires s != []
  {
    s[|s| - 1]
  }

  /** One call joins the groups so far; the last group is the current one. */
  function AddCall(groups: seq<Group>, call: Call, declared: bool): seq<Group> {
    match call.tool
    case Declare(title) => groups + [Group(call.id, if title == "" then "Declared step" else title, [], false)]
    case Complete => if groups == [] then [] else groups[|groups| - 1 := Last(groups).(done := true)]
    case Ordinary =>
      if groups == [] || (!declared && Last(groups).key != call.turn)
      then groups + [Group(call.turn, "Agent turn", [call], false)]
      else groups[|groups| - 1 := Last(groups).(calls := Last(groups).calls + [call])]
  }

  function GroupsOf(calls: seq<Call>, declared: bool): seq<Group> {
    if calls == [] then [] else AddCall(GroupsOf(calls[..|calls| - 1], declared), Last(calls), declared)
  }

  method Steps(calls: seq<Call>) returns (groups: seq<Group>)
    ensures groups == GroupsOf(calls, Declares(calls))
    ensures Flatten(groups) == OrdinaryCalls(calls)
    ensures !Declares(calls) ==> OneTurnEach(groups)
    ensures Declares(calls) ==> Keys(groups) == LeadingKey(calls) + DeclaredIds(calls)
  {
    var declared := Declares(calls);
    groups := [];
    assert calls[..0] == [];
    for i := 0 to |calls|
      invariant groups == GroupsOf(calls[..i], declared)
    {
      assert calls[..i + 1][..i] == calls[..i];
      var call := calls[i];
      if call.tool.Declare? {
        var title := if call.tool.title == "" then "Declared step" else call.tool.title;
        groups := groups + [Group(call.id, title, [], false)];
      } else if call.tool.Complete? {
        if groups != [] {
          groups := groups[|groups| - 1 := Last(groups).(done := true)];
        }
      } else {
        if groups == [] || (!declared && Last(groups).key != call.turn) {
          groups := groups + [Group(call.turn, "Agent turn", [], false)];
          assert [] + [call] == [call];
        }
        groups := groups[|groups| - 1 := Last(groups).(calls := Last(groups).calls + [call])];
      }
    }
    assert calls[..|calls|] == calls;
    GroupsConserveCalls(calls, declared);
    if declared {
      KeysAreDeclarations(calls);
    } else {
      GroupsAreTurns(calls);
    }
  }

  function Flatten(groups: seq<Group>): seq<Call> {
    if groups == [] then [] else Flatten(groups[..|groups| - 1]) + Last(groups).calls
  }

  function OrdinaryCalls(calls: seq<Call>): seq<Call> {
    if calls == [] then []
    else OrdinaryCalls(calls[..|calls| - 1]) + if Last(calls).tool.Ordinary? then [Last(calls)] else []
  }

  function Keys(groups: seq<Group>): (r: seq<string>)
    ensures |r| == |groups| && forall k :: 0 <= k < |r| ==> r[k] == groups[k].key
  {
    seq(|groups|, k requires 0 <= k < |groups| => groups[k].key)
  }

  function DeclaredIds(calls: seq<Call>): seq<string> {
    if calls == [] then []
    else DeclaredIds(calls[..|calls| - 1]) + if Last(calls).tool.Declare? then [Last(calls).id] else []
  }

  /** The turn that opens the transcript, when ordinary work precedes the first declaration. */
  function LeadingKey(calls: seq<Call>): seq<string> {
    if calls == [] then []
    else
      var before := LeadingKey(calls[..|calls| - 1]);
      if before == [] && DeclaredIds(calls[..|calls| - 1]) == [] && Last(calls).tool.Ordinary? then [Last(calls).turn]
      else before
  }

  /** Every group is one turn's calls, none is empty, and neighbours are different turns. */
  predicate OneTurnEach(groups: seq<Group>) {
    && (forall k :: 0 <= k < |groups| ==> groups[k].calls != [])
    && (forall k, j :: 0 <= k < |groups| && 0 <= j < |groups[k].calls| ==> groups[k].calls[j].turn == groups[k].key)
    && (forall k :: 0 < k < |groups| ==> groups[k - 1].key != groups[k].key)
  }

  lemma FlattenLast(groups: seq<Group>, g: Group)
    ensures Flatten(groups + [g]) == Flatten(groups) + g.calls
    ensures groups != [] ==> Flatten(groups[|groups| - 1 := g]) == Flatten(groups[..|groups| - 1]) + g.calls
  {
    assert (groups + [g])[..|groups|] == groups;
    if groups != [] {
      assert groups[|groups| - 1 := g][..|groups| - 1] == groups[..|groups| - 1];
    }
  }

  lemma AddConservesCalls(groups: seq<Group>, call: Call, declared: bool)
    ensures Flatten(AddCall(groups, call, declared)) == Flatten(groups) + if call.tool.Ordinary? then [call] else []
  {
    hide Flatten;
    var added := AddCall(groups, call, declared);
    if added == [] {
      assert Flatten(groups) + [] == Flatten(groups);
    } else {
      FlattenLast(groups, Last(added));
      if groups != [] {
        FlattenLast(groups[..|groups| - 1], Last(groups));
        assert groups == groups[..|groups| - 1] + [Last(groups)];
        assert Flatten(groups[..|groups| - 1]) + (Last(groups).calls + [call]) == Flatten(groups) + [call];
      }
    }
  }

  lemma {:induction false} GroupsConserveCalls(calls: seq<Call>, declared: bool)
    ensures Flatten(GroupsOf(calls, declared)) == OrdinaryCalls(calls)
  {
    if calls != [] {
      GroupsConserveCalls(calls[..|calls| - 1], declared);
      AddConservesCalls(GroupsOf(calls[..|calls| - 1], declared), Last(calls), declared);
    }
  }

  lemma AddKeepsTurns(groups: seq<Group>, call: Call)
    requires OneTurnEach(groups) && !call.tool.Declare?
    ensures OneTurnEach(AddCall(groups, call, false))
  {
    var added := AddCall(groups, call, false);
    if |added| > |groups| {
      assert added == groups + [Group(call.turn, "Agent turn", [call], false)];
    } else if groups != [] {
      forall k, j | 0 <= k < |added| && 0 <= j < |added[k].calls|
        ensures added[k].calls[j].turn == added[k].key
      {
        assert k < |groups| - 1 ==> added[k] == groups[k];
        assert j < |groups[k].calls| ==> groups[k].calls[j].turn == groups[k].key;
      }
    }
  }

  lemma {:induction false} GroupsAreTurns(calls: seq<Call>)
    requires !Declares(calls)
    ensures OneTurnEach(GroupsOf(calls, false))
  {
    hide OneTurnEach, AddCall;
    if calls == [] {
      NoGroups();
    } else {
      var before := calls[..|calls| - 1];
      assert !Declares(before) && !Last(calls).tool.Declare?;
      GroupsAreTurns(before);
      AddKeepsTurns(GroupsOf(before, false), Last(calls));
    }
  }

  lemma NoGroups()
    ensures OneTurnEach([])
  {
  }

  lemma {:induction false} KeysAreDeclarations(calls: seq<Call>)
    ensures Keys(GroupsOf(calls, true)) == LeadingKey(calls) + DeclaredIds(calls)
  {
    if calls != [] {
      KeysAreDeclarations(calls[..|calls| - 1]);
      var before, after := GroupsOf(calls[..|calls| - 1], true), GroupsOf(calls, true);
      assert |LeadingKey(calls[..|calls| - 1]) + DeclaredIds(calls[..|calls| - 1])| == |before|;
      if |after| == |before| + 1 {
        assert Keys(after) == Keys(before) + [Last(after).key];
      } else {
        assert Keys(after) == Keys(before);
      }
    }
  }

  // ---------- projected nodes ----------

  /** What the calls of a group map to; the mapping and the redaction are the caller's. */
  datatype Plan = Plan(engine: string, title: string, params: Params, outputs: seq<string>, kind: string, tool: string,
                       runnable: bool, extra: int)

  datatype Projection = Projection(
    session: string, runtime: string, native: string, model: Value, hasCalls: bool, groups: seq<Group>,
    plan: Group -> Plan, identity: (string, string) -> string)
  {
    function IdOf(k: nat): string
      requires k < |groups|
    {
      identity(session, groups[k].key)
    }

    function MetaOf(k: nat): Work
      requires k < |groups|
    {
      var p := plan(groups[k]);
      Step(session, runtime, native, CallIds(groups[k].calls), p.kind, p.tool, p.runnable, groups[k].done)
    }

    function NewNode(k: nat): Node
      requires k < |groups|
    {
      var p := plan(groups[k]);
      Node(IdOf(k), p.engine, p.title, p.params, 464 + k % 4 * 320, 380 + k / 4 * 400, Some(MetaOf(k)), p.outputs, None,
           p.extra)
    }

    /** Step identities are hashes, and never the session's own id. */
    predicate Apart() {
      forall k :: 0 <= k < |groups| ==> IdOf(k) != session
    }
  }

  function CallIds(calls: seq<Call>): (r: seq<string>)
    ensures |r| == |calls| && forall k :: 0 <= k < |r| ==> r[k] == calls[k].id
  {
    seq(|calls|, k requires 0 <= k < |calls| => calls[k].id)
  }

  /** The first place of the id in the list, or the list's length. */
  function FirstPlace(ids: seq<string>, id: string): (r: nat)
    ensures r <= |ids|
    ensures r < |ids| ==> ids[r] == id
    ensures forall k :: 0 <= k < r ==> ids[k] != id
  {
    if ids == [] then 0 else if ids[0] == id then 0 else 1 + FirstPlace(ids[1..], id)
  }

  /** The first node with this id, or the number of nodes. */
  function Find(nodes: seq<Node>, id: string): (r: nat)
    ensures r <= |nodes|
    ensures r < |nodes| ==> nodes[r].id == id
    ensures forall k :: 0 <= k < r ==> nodes[k].id != id
  {
    var ids := seq(|nodes|, k requires 0 <= k < |nodes| => nodes[k].id);
    assert forall k :: 0 <= k < |nodes| ==> ids[k] == nodes[k].id;
    FirstPlace(ids, id)
  }

  lemma FindIs(nodes: seq<Node>, id: string, k: nat)
    requires k <= |nodes| && (k < |nodes| ==> nodes[k].id == id) && forall j :: 0 <= j < k ==> nodes[j].id != id
    ensures Find(nodes, id) == k
  {
  }

  function Reconcile(nodes: seq<Node>, p: Projection, k: nat): seq<Node>
    requires k < |p.groups|
  {
    var at := Find(nodes, p.IdOf(k));
    if at == |nodes| then nodes + [p.NewNode(k)] else nodes[at := nodes[at].(work := Some(p.MetaOf(k)))]
  }

  function Reconciled(nodes: seq<Node>, p: Projection, n: nat): seq<Node>
    requires n <= |p.groups|
  {
    if n == 0 then nodes else Reconcile(Reconciled(nodes, p, n - 1), p, n - 1)
  }

  function SetParam(params: Params, key: string, value: Value): Params {
    if params == [] then [(key, value)]
    else if params[0].0 == key then [(key, value)] + params[1..]
    else [params[0]] + SetParam(params[1..], key, value)
  }

  function SessionParams(node: Node, p: Projection): Params {
    SetParam(SetParam(SetParam(node.params, "model", p.model), "goal", Text(node.title)), "detail",
             Text(if !p.hasCalls then "detail not available" else ""))
  }

  function SessionNode(node: Node, p: Projection): Node {
    node.(work := Some(Session(p.runtime, p.native)), params := SessionParams(node, p))
  }

  function WithSession(nodes: seq<Node>, p: Projection): seq<Node> {
    var at := Find(nodes, p.session);
    if at == |nodes| then nodes else nodes[at := SessionNode(nodes[at], p)]
  }

  function ProjectedNodes(nodes: seq<Node>, p: Projection): seq<Node> {
    Reconciled(WithSession(nodes, p), p, |p.groups|)
  }

  // ---------- projected wires ----------

  /** One projected step: the node's final state, and the group's own calls. */
  datatype Entry = Entry(id: string, params: Params, outputs: seq<string>, calls: seq<Call>)

  function EntryOf(nodes: seq<Node>, p: Projection, k: nat): Entry
    requires k < |p.groups|
  {
    var at := Find(nodes, p.IdOf(k));
    if at == |nodes| then Entry(p.IdOf(k), [], [], p.groups[k].calls)
    else Entry(nodes[at].id, nodes[at].params, nodes[at].outputs, p.groups[k].calls)
  }

  function Entries(nodes: seq<Node>, p: Projection): (r: seq<Entry>)
    ensures |r| == |p.groups| && forall k :: 0 <= k < |r| ==> r[k] == EntryOf(nodes, p, k)
  {
    seq(|p.groups|, k requires 0 <= k < |p.groups| => EntryOf(nodes, p, k))
  }

  predicate Contains(text: string, part: string) {
    exists i :: 0 <= i <= |text| && PartAt(text, part, i)
  }

  predicate PartAt(text: string, part: string, i: int) {
    0 <= i <= |text| - |part| && text[i..i + |part|] == part
  }

  /** Some output text of four characters or more of the earlier step is part of the value. */
  predicate Feeds(earlier: Entry, value: Value) {
    value.Text? && |value.text| >= 4
    && exists c, t :: 0 <= c < |earlier.calls| && 0 <= t < |earlier.calls[c].texts|
                      && |earlier.calls[c].texts[t]| >= 4 && Contains(value.text, earlier.calls[c].texts[t])
  }

  predicate Taken(wires: seq<Wire>, target: End) {
    exists k :: 0 <= k < |wires| && wires[k].target == target
  }

  function SourceSocket(outputs: seq<string>): string
    requires outputs != []
  {
    if "path" in outputs then "path" else outputs[0]
  }

  function Inferred(session: string, earlier: Entry, later: Entry, key: string): Wire
    requires earlier.outputs != []
  {
    Wire("inferred-" + earlier.id + "-" + later.id + "-" + key, End(earlier.id, SourceSocket(earlier.outputs)),
         End(later.id, "param:" + key), true, Some(session))
  }

  function InferParam(wires: seq<Wire>, session: string, earlier: Entry, later: Entry, k: nat): seq<Wire>
    requires k < |later.params|
  {
    var (key, value) := later.params[k];
    if Feeds(earlier, value) && !Taken(wires, End(later.id, "param:" + key)) && earlier.outputs != []
    then wires + [Inferred(session, earlier, later, key)] else wires
  }

  function InferPair(wires: seq<Wire>, session: string, earlier: Entry, later: Entry, n: nat): seq<Wire>
    requires n <= |later.params|
  {
    if n == 0 then wires
    else InferParam(InferPair(wires, session, earlier, later, n - 1), session, earlier, later, n - 1)
  }

  /** Where the id first appears among the entries. */
  function Rank(entries: seq<Entry>, id: string): nat {
    FirstPlace(seq(|entries|, k requires 0 <= k < |entries| => entries[k].id), id)
  }

  lemma RankIsFirst(entries: seq<Entry>, id: string)
    ensures var r := Rank(entries, id);
            r <= |entries| && (r < |entries| ==> entries[r].id == id) && forall k :: 0 <= k < r ==> entries[k].id != id
  {
    hide FirstPlace;
    var ids := seq(|entries|, k requires 0 <= k < |entries| => entries[k].id);
    assert forall k :: 0 <= k < |entries| ==> entries[k].id == ids[k];
    assert Rank(entries, id) == FirstPlace(ids, id);
  }

  /** The entries before the first with the later's id, up to the n-th. */
  function InferLater(wires: seq<Wire>, session: string, entries: seq<Entry>, l: nat, n: nat): seq<Wire>
    requires l < |entries| && n <= Rank(entries, entries[l].id)
  {
    if n == 0 then wires
    else InferPair(InferLater(wires, session, entries, l, n - 1), session, entries[n - 1], entries[l],
                   |entries[l].params|)
  }

  function InferAll(wires: seq<Wire>, session: string, entries: seq<Entry>, n: nat): seq<Wire>
    requires n <= |entries|
  {
    if n == 0 then wires
    else InferLater(InferAll(wires, session, entries, n - 1), session, entries, n - 1, Rank(entries, entries[n - 1].id))
  }

  /** The wires that are not the session's. */
  function Others(wires: seq<Wire>, session: string): seq<Wire> {
    if wires == [] then []
    else Others(wires[..|wires| - 1], session) + if Last(wires).owner == Some(session) then [] else [Last(wires)]
  }

  function ProjectedWires(nodes: seq<Node>, wires: seq<Wire>, p: Projection): seq<Wire> {
    InferAll(Others(wires, p.session), p.session, Entries(nodes, p), |p.groups|)
  }

  class Document {
    var nodes: seq<Node>
    var wires: seq<Wire>

    /** Reconciles the document with the session's transcript, in place. */
    method Project(p: Projection)
      modifies this
      ensures nodes == ProjectedNodes(old(nodes), p)
      ensures wires == ProjectedWires(nodes, old(wires), p)
    {
      MarkSession(p);
      var projected := ReconcileSteps(p);
      RemoveSession(p.session);
      InferWires(p, projected);
    }

    /** The whole call: the transcript's steps, and the reconciliation with them. */
    method ProjectTranscript(calls: seq<Call>, p: Projection)
      modifies this
      ensures var q := p.(hasCalls := calls != [], groups := GroupsOf(calls, Declares(calls)));
              nodes == ProjectedNodes(old(nodes), q) && wires == ProjectedWires(nodes, old(wires), q)
    {
      var groups := Steps(calls);
      Project(p.(hasCalls := calls != [], groups := groups));
    }

    method MarkSession(p: Projection)
      modifies this`nodes
      ensures nodes == WithSession(old(nodes), p)
    {
      var at := Find(nodes, p.session);
      if at < |nodes| {
        nodes := nodes[at := SessionNode(nodes[at], p)];
      }
    }

    /** Step by step: a known identity gets its new metadata, a new one a new node. */
    method ReconcileSteps(p: Projection) returns (projected: seq<nat>)
      modifies this`nodes
      ensures nodes == Reconciled(old(nodes), p, |p.groups|)
      ensures |projected| == |p.groups| && Located(nodes, p, projected)
    {
      hide Reconcile, Located, Find;
      projected := [];
      NothingLocated(nodes, p);
      for k := 0 to |p.groups|
        invariant nodes == Reconciled(old(nodes), p, k)
        invariant |projected| == k && Located(nodes, p, projected)
      {
        FoundStays(nodes, p, k, projected);
        var existing := ReconcileStep(p, k);
        projected := projected + [existing];
      }
    }

    method ReconcileStep(p: Projection, k: nat) returns (existing: nat)
      requires k < |p.groups|
      modifies this`nodes
      ensures nodes == Reconcile(old(nodes), p, k) && existing == Find(old(nodes), p.IdOf(k))
    {
      existing := Find(nodes, p.IdOf(k));
      if existing == |nodes| {
        nodes := nodes + [p.NewNode(k)];
      } else {
        nodes := nodes[existing := nodes[existing].(work := Some(p.MetaOf(k)))];
      }
    }

    method RemoveSession(session: string)
      modifies this`wires
      ensures wires == Others(old(wires), session)
    {
      var kept: seq<Wire> := [];
      assert wires[..0] == [];
      for k := 0 to |wires|
        invariant wires == old(wires) && kept == Others(wires[..k], session)
      {
        assert wires[..k + 1][..k] == wires[..k];
        if wires[k].owner != Some(session) {
          kept := kept + [wires[k]];
        }
      }
      assert wires[..|wires|] == wires;
      wires := kept;
    }

    /** Every later step against every step before its first occurrence. */
    method InferWires(p: Projection, projected: seq<nat>)
      requires |projected| == |p.groups| && Located(nodes, p, projected)
      modifies this`wires
      ensures wires == InferAll(old(wires), p.session, Entries(nodes, p), |p.groups|)
    {
      hide InferLater, Rank, Entries, Located, Find;
      for l := 0 to |projected|
        invariant wires == InferAll(old(wires), p.session, Entries(nodes, p), l)
      {
        InferForLater(p, projected, l);
      }
    }

    method InferForLater(p: Projection, projected: seq<nat>, l: nat)
      requires l < |projected| == |p.groups| && Located(nodes, p, projected)
      modifies this`wires
      ensures var entries := Entries(nodes, p);
              wires == InferLater(old(wires), p.session, entries, l, Rank(entries, entries[l].id))
    {
      hide InferPair, Find, Entries, Rank, Located;
      ghost var entries := Entries(nodes, p);
      RankIsFirst(entries, entries[l].id);
      var later := EntryFrom(nodes, p, projected, l);
      var e := 0;
      while e < |projected| && EntryFrom(nodes, p, projected, e).id != later.id
        invariant e <= Rank(entries, entries[l].id)
        invariant wires == InferLater(old(wires), p.session, entries, l, e)
      {
        InferForPair(p.session, EntryFrom(nodes, p, projected, e), later);
        e := e + 1;
      }
    }

    /** Parameter by parameter. */
    method InferForPair(session: string, earlier: Entry, later: Entry)
      modifies this`wires
      ensures wires == InferPair(old(wires), session, earlier, later, |later.params|)
    {
      hide Feeds;
      for k := 0 to |later.params|
        invariant wires == InferPair(old(wires), session, earlier, later, k)
      {
        var (key, value) := later.params[k];
        var target := End(later.id, "param:" + key);
        if Feeds(earlier, value) {
          if !Taken(wires, target) && earlier.outputs != [] {
            wires := wires + [Wire("inferred-" + earlier.id + "-" + later.id + "-" + key,
                                   End(earlier.id, SourceSocket(earlier.outputs)), target, true, Some(session))];
          }
        }
      }
    }
  }

  /** Where each step's node is. */
  predicate Located(nodes: seq<Node>, p: Projection, projected: seq<nat>) {
    |projected| <= |p.groups|
    && forall j :: 0 <= j < |projected| ==> projected[j] < |nodes| && projected[j] == Find(nodes, p.IdOf(j))
  }

  lemma NothingLocated(nodes: seq<Node>, p: Projection)
    ensures Located(nodes, p, [])
  {
  }

  function EntryFrom(nodes: seq<Node>, p: Projection, projected: seq<nat>, e: nat): (r: Entry)
    requires e < |projected| == |p.groups| && Located(nodes, p, projected)
    ensures r == Entries(nodes, p)[e]
  {
    var node := nodes[projected[e]];
    Entry(node.id, node.params, node.outputs, p.groups[e].calls)
  }

  lemma FoundStays(before: seq<Node>, p: Projection, k: nat, projected: seq<nat>)
    requires k < |p.groups| && |projected| == k && Located(before, p, projected)
    ensures Located(Reconcile(before, p, k), p, projected + [Find(before, p.IdOf(k))])
  {
    hide Find, Reconcile, Projection.IdOf, Projection.MetaOf, Projection.NewNode;
    var after := Reconcile(before, p, k);
    ReconcileFacts(before, p, k);
    forall j | 0 <= j < k
      ensures projected[j] == Find(after, p.IdOf(j))
    {
      SameIdsSameFind(before, after, p.IdOf(j));
    }
  }

  // ---------- the projection is conservative ----------

  /** A node that the first n steps added, whatever its record has become. */
  predicate IsNew(node: Node, p: Projection, n: nat)
    requires n <= |p.groups|
  {
    exists j :: 0 <= j < n && node == p.NewNode(j).(work := node.work)
  }

  lemma {:induction false} ReconciledKeeps(nodes: seq<Node>, p: Projection, n: nat)
    requires n <= |p.groups|
    ensures var r := Reconciled(nodes, p, n);
            && |nodes| <= |r|
            && (forall k :: 0 <= k < |nodes| ==> r[k] == nodes[k].(work := r[k].work))
            && (forall k :: |nodes| <= k < |r| ==> IsNew(r[k], p, n))
            && (forall k :: 0 <= k < |nodes| && (forall j :: 0 <= j < n ==> p.IdOf(j) != nodes[k].id) ==>
                  r[k] == nodes[k])
  {
    hide Find, Reconcile, Projection.IdOf, Projection.MetaOf, Projection.NewNode;
    if n > 0 {
      ReconciledKeeps(nodes, p, n - 1);
      var before, after := Reconciled(nodes, p, n - 1), Reconciled(nodes, p, n);
      ReconcileFacts(before, p, n - 1);
      forall k | |nodes| <= k < |after|
        ensures IsNew(after[k], p, n)
      {
        if k < |before| {
          var j :| 0 <= j < n - 1 && before[k] == p.NewNode(j).(work := before[k].work);
          assert after[k] == p.NewNode(j).(work := after[k].work);
        } else {
          assert after[k] == p.NewNode(n - 1).(work := after[k].work);
        }
      }
    }
  }

  /** Nodes that were there keep their place and everything but their work record; the session's own
      node also gets its parameters.  Every new node is one of the transcript's steps. */
  lemma ProjectionKeepsNodes(nodes: seq<Node>, p: Projection)
    requires p.Apart()
    ensures var r, at := ProjectedNodes(nodes, p), Find(nodes, p.session);
            && |nodes| <= |r|
            && (forall k :: 0 <= k < |nodes| && k != at ==> r[k] == nodes[k].(work := r[k].work))
            && (at < |nodes| ==> r[at] == SessionNode(nodes[at], p))
            && (forall k :: |nodes| <= k < |r| ==> IsNew(r[k], p, |p.groups|))
  {
    hide Find, Reconciled, SessionNode, IsNew, Projection.IdOf;
    var marked, r, at := WithSession(nodes, p), ProjectedNodes(nodes, p), Find(nodes, p.session);
    ReconciledKeeps(marked, p, |p.groups|);
    if at < |nodes| {
      SessionKeepsId(nodes[at], p);
      assert marked[at] == SessionNode(nodes[at], p);
      assert forall j :: 0 <= j < |p.groups| ==> p.IdOf(j) != marked[at].id;
    }
  }

  lemma SessionKeepsId(node: Node, p: Projection)
    ensures SessionNode(node, p).id == node.id
  {
  }

  // ---------- the projection is idempotent ----------

  function Param(params: Params, key: string): Option<Value> {
    if params == [] then None else if params[0].0 == key then Some(params[0].1) else Param(params[1..], key)
  }

  lemma {:induction false} SetParamSets(params: Params, key: string, value: Value, other: string)
    ensures Param(SetParam(params, key, value), other) == if other == key then Some(value) else Param(params, other)
    ensures Param(params, key) == Some(value) ==> SetParam(params, key, value) == params
  {
    if params != [] && params[0].0 != key {
      SetParamSets(params[1..], key, value, other);
    }
  }

  lemma SessionNodeTwice(node: Node, p: Projection)
    ensures SessionNode(SessionNode(node, p), p) == SessionNode(node, p)
  {
    var detail := Text(if !p.hasCalls then "detail not available" else "");
    var a := SetParam(node.params, "model", p.model);
    var b := SetParam(a, "goal", Text(node.title));
    var c := SetParam(b, "detail", detail);
    SetParamSets(node.params, "model", p.model, "model");
    SetParamSets(a, "goal", Text(node.title), "model");
    SetParamSets(a, "goal", Text(node.title), "goal");
    SetParamSets(b, "detail", detail, "model");
    SetParamSets(b, "detail", detail, "goal");
    SetParamSets(b, "detail", detail, "detail");
    SetParamSets(c, "model", p.model, "model");
    SetParamSets(c, "goal", Text(node.title), "goal");
    SetParamSets(c, "detail", detail, "detail");
  }

  /** The record that the last of the first k steps with this identity leaves. */
  function LastMeta(p: Projection, k: nat, id: string): Option<Work>
    requires k <= |p.groups|
  {
    if k == 0 then None else if p.IdOf(k - 1) == id then Some(p.MetaOf(k - 1)) else LastMeta(p, k - 1, id)
  }

  lemma SameIdsSameFind(a: seq<Node>, b: seq<Node>, id: string)
    requires |a| <= |b| && (forall k :: 0 <= k < |a| ==> a[k].id == b[k].id)
    ensures Find(a, id) < |a| ==> Find(b, id) == Find(a, id)
    ensures Find(a, id) == |a| ==> Find(b, id) >= |a|
  {
    if Find(a, id) < |a| {
      FindIs(b, id, Find(a, id));
    }
  }

  lemma ReconcileFacts(nodes: seq<Node>, p: Projection, k: nat)
    requires k < |p.groups|
    ensures var after, at := Reconcile(nodes, p, k), Find(nodes, p.IdOf(k));
            && |after| == (if at == |nodes| then |nodes| + 1 else |nodes|)
            && Find(after, p.IdOf(k)) == at && after[at].id == p.IdOf(k) && after[at].work == Some(p.MetaOf(k))
            && (forall j :: 0 <= j < |nodes| ==> after[j].id == nodes[j].id)
            && (forall j :: 0 <= j < |nodes| && j != at ==> after[j] == nodes[j])
            && after[at] == if at == |nodes| then p.NewNode(k) else nodes[at].(work := Some(p.MetaOf(k)))
  {
    FindIs(Reconcile(nodes, p, k), p.IdOf(k), Find(nodes, p.IdOf(k)));
  }

  lemma {:induction false} LastMetaHasStep(p: Projection, k: nat, id: string)
    requires k <= |p.groups|
    ensures LastMeta(p, k, id).Some? <==> exists i :: 0 <= i < k && p.IdOf(i) == id
  {
    if k > 0 {
      LastMetaHasStep(p, k - 1, id);
    }
  }

  /** After a run every step's node exists. */
  lemma {:induction false} RunFindsSteps(nodes: seq<Node>, p: Projection, k: nat, i: nat)
    requires i < k <= |p.groups|
    ensures Find(Reconciled(nodes, p, k), p.IdOf(i)) < |Reconciled(nodes, p, k)|
  {
    hide Find, Reconcile, Projection.IdOf, Projection.MetaOf, Projection.NewNode;
    var before := Reconciled(nodes, p, k - 1);
    ReconcileFacts(before, p, k - 1);
    if i < k - 1 {
      RunFindsSteps(nodes, p, k - 1, i);
      SameIdsSameFind(before, Reconciled(nodes, p, k), p.IdOf(i));
    }
  }

  /** After a run a step's node holds the record of the last step with its identity. */
  lemma {:induction false} RunLeavesLastMeta(nodes: seq<Node>, p: Projection, k: nat, id: string)
    requires k <= |p.groups| && LastMeta(p, k, id).Some?
    ensures var r := Reconciled(nodes, p, k); Find(r, id) < |r| && r[Find(r, id)].work == LastMeta(p, k, id)
  {
    hide Find, Reconcile, Projection.IdOf, Projection.MetaOf, Projection.NewNode;
    var before := Reconciled(nodes, p, k - 1);
    ReconcileFacts(before, p, k - 1);
    if p.IdOf(k - 1) != id {
      RunLeavesLastMeta(nodes, p, k - 1, id);
      SameIdsSameFind(before, Reconciled(nodes, p, k), id);
    }
  }

  /** The state of a second run after k steps: each step's node holds the record of its last step so far. */
  predicate SecondRun(nodes: seq<Node>, r: seq<Node>, p: Projection, k: nat)
    requires k <= |p.groups|
  {
    |r| == |nodes| && forall j :: 0 <= j < |nodes| ==>
      r[j] == if j == Find(nodes, nodes[j].id) && LastMeta(p, k, nodes[j].id).Some?
              then nodes[j].(work := LastMeta(p, k, nodes[j].id)) else nodes[j]
  }

  lemma {:induction false} SecondRunSteps(nodes: seq<Node>, p: Projection, k: nat)
    requires k <= |p.groups| && forall i :: 0 <= i < |p.groups| ==> Find(nodes, p.IdOf(i)) < |nodes|
    ensures SecondRun(nodes, Reconciled(nodes, p, k), p, k)
  {
    hide Find, Reconcile, Projection.IdOf, Projection.MetaOf, Projection.NewNode;
    if k > 0 {
      SecondRunSteps(nodes, p, k - 1);
      var before := Reconciled(nodes, p, k - 1);
      SameIdsSameFind(nodes, before, p.IdOf(k - 1));
      ReconcileFacts(before, p, k - 1);
    }
  }

  lemma NodesTwice(nodes: seq<Node>, p: Projection)
    requires p.Apart()
    ensures ProjectedNodes(ProjectedNodes(nodes, p), p) == ProjectedNodes(nodes, p)
  {
    hide Reconciled, SessionNode;
    var r := ProjectedNodes(nodes, p);
    SessionStays(nodes, p);
    assert WithSession(r, p) == r;
    forall i | 0 <= i < |p.groups|
      ensures Find(r, p.IdOf(i)) < |r|
    {
      RunFindsSteps(WithSession(nodes, p), p, |p.groups|, i);
    }
    SecondRunSteps(r, p, |p.groups|);
    forall j | 0 <= j < |r|
      ensures Reconciled(r, p, |p.groups|)[j] == r[j]
    {
      if LastMeta(p, |p.groups|, r[j].id).Some? {
        RunLeavesLastMeta(WithSession(nodes, p), p, |p.groups|, r[j].id);
      }
    }
  }

  lemma SessionStays(nodes: seq<Node>, p: Projection)
    requires p.Apart()
    ensures WithSession(ProjectedNodes(nodes, p), p) == ProjectedNodes(nodes, p)
  {
    hide Reconciled, SessionNode, SessionParams, IsNew;
    ProjectionKeepsNodes(nodes, p);
    var r, at := ProjectedNodes(nodes, p), Find(nodes, p.session);
    SameIds(nodes, p);
    SameIdsSameFind(nodes, r, p.session);
    if at < |nodes| {
      SessionNodeTwice(nodes[at], p);
    } else {
      forall k | 0 <= k < |r|
        ensures r[k].id != p.session
      {
        if k >= |nodes| {
          NewIsNotTheSession(r[k], p);
        }
      }
      FindIs(r, p.session, |r|);
    }
  }

  lemma NewIsNotTheSession(node: Node, p: Projection)
    requires p.Apart() && IsNew(node, p, |p.groups|)
    ensures node.id != p.session
  {
    var j :| 0 <= j < |p.groups| && node == p.NewNode(j).(work := node.work);
    assert node.id == p.IdOf(j);
  }

  lemma SameIds(nodes: seq<Node>, p: Projection)
    requires p.Apart()
    ensures var r := ProjectedNodes(nodes, p); |nodes| <= |r| && forall k :: 0 <= k < |nodes| ==> r[k].id == nodes[k].id
  {
    ProjectionKeepsNodes(nodes, p);
  }

  // ---------- the inferred wires ----------

  /** The wires beyond the base are the session's inferred ones: each goes forward in order of first
      occurrence, and is the only wire into its socket. */
  predicate Forward(base: seq<Wire>, wires: seq<Wire>, session: string, entries: seq<Entry>) {
    && |base| <= |wires| && wires[..|base|] == base
    && (forall q :: |base| <= q < |wires| ==>
          && wires[q].owner == Some(session) && wires[q].inferred
          && Rank(entries, wires[q].source.node) < Rank(entries, wires[q].target.node) < |entries|)
    && (forall q, o :: |base| <= q < |wires| && 0 <= o < |wires| && o != q ==> wires[o].target != wires[q].target)
  }

  lemma RankAtMost(entries: seq<Entry>, k: nat)
    requires k < |entries|
    ensures Rank(entries, entries[k].id) <= k
  {
    hide Rank;
    RankIsFirst(entries, entries[k].id);
  }

  lemma {:induction false} PairIsForward(base: seq<Wire>, wires: seq<Wire>, session: string, entries: seq<Entry>,
                                         e: nat, l: nat, n: nat)
    requires Forward(base, wires, session, entries)
    requires l < |entries| && e < Rank(entries, entries[l].id) && n <= |entries[l].params|
    ensures Forward(base, InferPair(wires, session, entries[e], entries[l], n), session, entries)
  {
    hide FirstPlace, Feeds;
    if n > 0 {
      PairIsForward(base, wires, session, entries, e, l, n - 1);
      RankAtMost(entries, e);
      RankAtMost(entries, l);
    }
  }

  lemma {:induction false} LaterIsForward(base: seq<Wire>, wires: seq<Wire>, session: string, entries: seq<Entry>,
                                          l: nat, n: nat)
    requires Forward(base, wires, session, entries)
    requires l < |entries| && n <= Rank(entries, entries[l].id)
    ensures Forward(base, InferLater(wires, session, entries, l, n), session, entries)
  {
    hide Rank, Forward, InferPair;
    if n > 0 {
      LaterIsForward(base, wires, session, entries, l, n - 1);
      PairIsForward(base, InferLater(wires, session, entries, l, n - 1), session, entries, n - 1, l,
                    |entries[l].params|);
    }
  }

  lemma {:induction false} AllIsForward(base: seq<Wire>, session: string, entries: seq<Entry>, n: nat)
    requires n <= |entries|
    ensures Forward(base, InferAll(base, session, entries, n), session, entries)
  {
    hide Rank, InferLater;
    if n == 0 {
      assert base[..|base|] == base;
    } else {
      AllIsForward(base, session, entries, n - 1);
      LaterIsForward(base, InferAll(base, session, entries, n - 1), session, entries, n - 1,
                     Rank(entries, entries[n - 1].id));
    }
  }

  /** A projection keeps the wires that are not the session's, in order, and adds forward ones. */
  lemma ProjectionWires(nodes: seq<Node>, wires: seq<Wire>, p: Projection)
    ensures Forward(Others(wires, p.session), ProjectedWires(nodes, wires, p), p.session, Entries(nodes, p))
  {
    AllIsForward(Others(wires, p.session), p.session, Entries(nodes, p), |p.groups|);
  }

  /** A path along the session's wires never closes: repeated step keys included. */
  lemma {:induction false} NoCycle(base: seq<Wire>, wires: seq<Wire>, session: string, entries: seq<Entry>,
                                   path: seq<nat>)
    requires Forward(base, wires, session, entries) && path != []
    requires forall k :: 0 <= k < |path| ==> |base| <= path[k] < |wires|
    requires forall k :: 0 < k < |path| ==> wires[path[k]].source.node == wires[path[k - 1]].target.node
    ensures Rank(entries, wires[path[0]].source.node) < Rank(entries, wires[Last(path)].target.node)
    ensures wires[path[0]].source.node != wires[Last(path)].target.node
  {
    if |path| > 1 {
      NoCycle(base, wires, session, entries, path[..|path| - 1]);
    }
  }

  lemma {:induction false} OthersOfConcat(a: seq<Wire>, b: seq<Wire>, session: string)
    ensures Others(a + b, session) == Others(a, session) + Others(b, session)
  {
    if b == [] {
      assert a + b == a;
    } else {
      assert (a + b)[..|a + b| - 1] == a + b[..|b| - 1];
      OthersOfConcat(a, b[..|b| - 1], session);
    }
  }

  lemma {:induction false} OthersAreOthers(wires: seq<Wire>, session: string)
    ensures forall k :: 0 <= k < |Others(wires, session)| ==> Others(wires, session)[k].owner != Some(session)
  {
    if wires != [] {
      OthersAreOthers(wires[..|wires| - 1], session);
    }
  }

  lemma {:induction false} NoneIsRemoved(wires: seq<Wire>, session: string)
    requires forall k :: 0 <= k < |wires| ==> wires[k].owner != Some(session)
    ensures Others(wires, session) == wires
  {
    if wires != [] {
      NoneIsRemoved(wires[..|wires| - 1], session);
    }
  }

  lemma {:induction false} AllAreRemoved(wires: seq<Wire>, session: string)
    requires forall k :: 0 <= k < |wires| ==> wires[k].owner == Some(session)
    ensures Others(wires, session) == []
  {
    if wires != [] {
      AllAreRemoved(wires[..|wires| - 1], session);
    }
  }

  lemma OthersAfterProjection(nodes: seq<Node>, wires: seq<Wire>, p: Projection)
    ensures Others(ProjectedWires(nodes, wires, p), p.session) == Others(wires, p.session)
  {
    hide InferAll, Entries, Rank;
    var base, r := Others(wires, p.session), ProjectedWires(nodes, wires, p);
    ProjectionWires(nodes, wires, p);
    OthersAreOthers(wires, p.session);
    NoneIsRemoved(base, p.session);
    AllAreRemoved(r[|base|..], p.session);
    OthersOfConcat(base, r[|base|..], p.session);
    assert r == base + r[|base|..];
  }

  /** Projecting the same transcript twice is projecting it once. */
  lemma ProjectionIsIdempotent(nodes: seq<Node>, wires: seq<Wire>, p: Projection)
    requires p.Apart()
    ensures var once, wired := ProjectedNodes(nodes, p), ProjectedWires(ProjectedNodes(nodes, p), wires, p);
            && ProjectedNodes(once, p) == once
            && ProjectedWires(ProjectedNodes(once, p), wired, p) == wired
  {
    NodesTwice(nodes, p);
    OthersAfterProjection(ProjectedNodes(nodes, p), wires, p);
  }

  // ---------- fork ----------

  /** Whose branch a node opens: a session's own, or the owner of a step. */
  function BranchOwner(node: Node): Option<string> {
    match node.work
    case None => None
    case Some(Session(_, _)) => if node.id == "" then None else Some(node.id)
    case Some(Step(owner, _, _, _, _, _, _, _)) => if owner == "" then None else Some(owner)
  }

  predicate OwnedBy(node: Node, owner: string) {
    node.work.Some? && node.work.value.Step? && node.work.value.owner == owner
  }

  /** The positions from lo to hi of the owner's steps. */
  function Owned(nodes: seq<Node>, owner: string, lo: nat, hi: nat): (r: seq<nat>)
    requires lo <= hi <= |nodes|
    ensures forall k :: 0 <= k < |r| ==> lo <= r[k] < hi && OwnedBy(nodes[r[k]], owner)
    ensures forall j, k :: 0 <= j < k < |r| ==> r[j] < r[k]
    ensures forall n :: lo <= n < hi && OwnedBy(nodes[n], owner) ==> n in r
    decreases hi - lo
  {
    if lo == hi then [] else Owned(nodes, owner, lo, hi - 1) + if OwnedBy(nodes[hi - 1], owner) then [hi - 1] else []
  }

  function IndexOf(s: seq<nat>, x: nat): (r: nat)
    requires x in s
    ensures r < |s| && s[r] == x
  {
    if s[0] == x then 0 else 1 + IndexOf(s[1..], x)
  }

  /** The branch: the selected node alone, all steps of a session, or a step and the owner's steps after it. */
  function Branch(nodes: seq<Node>, selected: nat): (r: seq<nat>)
    requires selected < |nodes|
    ensures forall k :: 0 <= k < |r| ==> r[k] < |nodes|
    ensures forall j, k :: 0 <= j < k < |r| ==> r[j] < r[k]
  {
    var owner := BranchOwner(nodes[selected]);
    if owner.None? then [selected]
    else
      var owned := Owned(nodes, owner.value, 0, |nodes|);
      if nodes[selected].work.value.Step? then owned[IndexOf(owned, selected)..] else owned
  }

  /** From a step on, the branch is exactly the owner's steps at or after it. */
  lemma BranchOfStep(nodes: seq<Node>, selected: nat, n: nat)
    requires selected < |nodes| && nodes[selected].work.Some? && nodes[selected].work.value.Step?
             && nodes[selected].work.value.owner != ""
    ensures n in Branch(nodes, selected) <==>
            selected <= n < |nodes| && OwnedBy(nodes[n], nodes[selected].work.value.owner)
  {
    hide Owned, IndexOf;
    var owned := Owned(nodes, nodes[selected].work.value.owner, 0, |nodes|);
    var at := IndexOf(owned, selected);
    if n in owned[at..] {
      var k :| 0 <= k < |owned[at..]| && owned[at..][k] == n;
      assert owned[at + k] == n;
    }
    if n in owned && selected <= n {
      var k :| 0 <= k < |owned| && owned[k] == n;
      assert at <= k;
      assert owned[at..][k - at] == n;
    }
  }

  /** Of a session the branch is all its steps; of a node without a record of work it is the node. */
  lemma BranchOfOthers(nodes: seq<Node>, selected: nat, n: nat)
    requires selected < |nodes| && (nodes[selected].work.Some? ==> nodes[selected].work.value.Session?)
    ensures n in Branch(nodes, selected) <==>
            if nodes[selected].work.Some? && nodes[selected].id != ""
            then n < |nodes| && OwnedBy(nodes[n], nodes[selected].id)
            else n == selected
  {
  }

  predicate UniqueIds(nodes: seq<Node>) {
    forall j, k :: 0 <= j < k < |nodes| ==> nodes[j].id != nodes[k].id
  }

  /** New identities: all different, and none in use. */
  ghost predicate New(uuid: nat -> string, nodes: seq<Node>, wires: seq<Wire>) {
    && (forall j, k :: j != k ==> uuid(j) != uuid(k))
    && (forall j, k :: 0 <= k < |nodes| ==> nodes[k].id != uuid(j))
    && (forall j, k :: 0 <= k < |wires| ==> wires[k].id != uuid(j))
  }

  function CloneNode(node: Node, id: string): Node {
    node.(id := id, work := None, result := None, y := node.y + 480)
  }

  function Clones(nodes: seq<Node>, source: seq<nat>, uuid: nat -> string): (r: seq<Node>)
    requires forall k :: 0 <= k < |source| ==> source[k] < |nodes|
    ensures |r| == |source| && forall k :: 0 <= k < |r| ==> r[k] == CloneNode(nodes[source[k]], uuid(k))
  {
    seq(|source|, k requires 0 <= k < |source| => CloneNode(nodes[source[k]], uuid(k)))
  }

  function IdsAt(nodes: seq<Node>, source: seq<nat>): (r: seq<string>)
    requires forall k :: 0 <= k < |source| ==> source[k] < |nodes|
    ensures |r| == |source| && forall k :: 0 <= k < |r| ==> r[k] == nodes[source[k]].id
  {
    seq(|source|, k requires 0 <= k < |source| => nodes[source[k]].id)
  }

  /** The new name of each of the first n ids. */
  function Renaming(ids: seq<string>, uuid: nat -> string, n: nat): map<string, string>
    requires n <= |ids|
  {
    if n == 0 then map[] else Renaming(ids, uuid, n - 1)[ids[n - 1] := uuid(n - 1)]
  }

  function BranchNames(nodes: seq<Node>, source: seq<nat>, uuid: nat -> string): map<string, string>
    requires forall k :: 0 <= k < |source| ==> source[k] < |nodes|
  {
    Renaming(IdsAt(nodes, source), uuid, |source|)
  }

  predicate Inside(w: Wire, ids: map<string, string>) {
    w.source.node in ids && w.target.node in ids
  }

  /** The wires between nodes of the branch, in order. */
  function Induced(wires: seq<Wire>, ids: map<string, string>): seq<Wire> {
    if wires == [] then []
    else Induced(wires[..|wires| - 1], ids) + if Inside(Last(wires), ids) then [Last(wires)] else []
  }

  lemma {:induction false} InducedAre(wires: seq<Wire>, ids: map<string, string>, w: Wire)
    ensures w in Induced(wires, ids) <==> w in wires && Inside(w, ids)
  {
    if wires != [] {
      InducedAre(wires[..|wires| - 1], ids, w);
      assert wires == wires[..|wires| - 1] + [Last(wires)];
    }
  }

  function CloneWire(w: Wire, ids: map<string, string>, id: string): Wire {
    if !Inside(w, ids) then w
    else w.(id := id, owner := None, source := w.source.(node := ids[w.source.node]),
            target := w.target.(node := ids[w.target.node]))
  }

  function CopyWires(inside: seq<Wire>, ids: map<string, string>, uuid: nat -> string, from: nat): seq<Wire> {
    if inside == [] then []
    else
      var n := |inside| - 1;
      CopyWires(inside[..n], ids, uuid, from) + [CloneWire(inside[n], ids, uuid(from + n))]
  }

  function ClonedWires(wires: seq<Wire>, ids: map<string, string>, uuid: nat -> string, from: nat): seq<Wire> {
    CopyWires(Induced(wires, ids), ids, uuid, from)
  }

  lemma {:induction false} CopiesAre(inside: seq<Wire>, ids: map<string, string>, uuid: nat -> string, from: nat)
    ensures var r := CopyWires(inside, ids, uuid, from);
            |r| == |inside| && forall k :: 0 <= k < |r| ==> r[k] == CloneWire(inside[k], ids, uuid(from + k))
  {
    hide CloneWire;
    if inside != [] {
      CopiesAre(inside[..|inside| - 1], ids, uuid, from);
    }
  }

  /** Copies the branch of a node: what is there stays, and the copies follow. */
  method Fork(d: Document, identity: string, uuid: nat -> string) returns (created: Option<seq<string>>)
    requires UniqueIds(d.nodes)
    modifies d
    ensures created.None? <==> Find(old(d.nodes), identity) == |old(d.nodes)|
    ensures created.None? ==> d.nodes == old(d.nodes) && d.wires == old(d.wires)
    ensures created.Some? ==>
              var source := Branch(old(d.nodes), Find(old(d.nodes), identity));
              && d.nodes == old(d.nodes) + Clones(old(d.nodes), source, uuid)
              && d.wires == old(d.wires)
                 + ClonedWires(old(d.wires), BranchNames(old(d.nodes), source, uuid), uuid, |source|)
              && |created.value| == |source| && forall k :: 0 <= k < |source| ==> created.value[k] == uuid(k)
  {
    hide Branch, Clones, BranchNames, ClonedWires, UniqueIds;
    var selected := Find(d.nodes, identity);
    if selected == |d.nodes| {
      return None;
    }
    var source := SelectBranch(d.nodes, selected);
    var clones, ids, names := CloneNodes(d.nodes, source, uuid);
    d.nodes := d.nodes + clones;
    CloneWires(d, ids, uuid, |source|);
    return Some(names);
  }

  /** The copies, the new name of each original, and the new names in order. */
  method CloneNodes(nodes: seq<Node>, source: seq<nat>,
                    uuid: nat -> string) returns (clones: seq<Node>, ids: map<string, string>, names: seq<string>)
    requires forall k :: 0 <= k < |source| ==> source[k] < |nodes|
    ensures clones == Clones(nodes, source, uuid) && ids == BranchNames(nodes, source, uuid)
    ensures |names| == |source| && forall k :: 0 <= k < |source| ==> names[k] == uuid(k)
  {
    hide CloneNode;
    ids, clones, names := map[], [], [];
    for k := 0 to |source|
      invariant ids == Renaming(IdsAt(nodes, source), uuid, k)
      invariant |clones| == k && forall j :: 0 <= j < k ==> clones[j] == CloneNode(nodes[source[j]], uuid(j))
      invariant |names| == k && forall j :: 0 <= j < k ==> names[j] == uuid(j)
    {
      ids := ids[nodes[source[k]].id := uuid(k)];
      clones := clones + [CloneNode(nodes[source[k]], uuid(k))];
      names := names + [uuid(k)];
    }
  }

  method CloneWires(d: Document, ids: map<string, string>, uuid: nat -> string, from: nat)
    modifies d`wires
    ensures d.wires == old(d.wires) + ClonedWires(old(d.wires), ids, uuid, from)
  {
    hide CloneWire, ClonedWires, Inside;
    var before, cloned := d.wires, [];
    ClonedStep(before, 0, ids, uuid, from);
    for k := 0 to |before|
      invariant d.wires == before + cloned && cloned == ClonedWires(before[..k], ids, uuid, from)
    {
      ClonedStep(before, k + 1, ids, uuid, from);
      if Inside(before[k], ids) {
        var copy := CloneWire(before[k], ids, uuid(from + |cloned|));
        assert (before + cloned) + [copy] == before + (cloned + [copy]);
        cloned := cloned + [copy];
        d.wires := d.wires + [copy];
      }
    }
    assert before[..|before|] == before;
  }

  /** One more wire adds its copy, or nothing. */
  lemma ClonedStep(wires: seq<Wire>, k: nat, ids: map<string, string>, uuid: nat -> string, from: nat)
    requires k <= |wires|
    ensures k == 0 ==> ClonedWires(wires[..k], ids, uuid, from) == []
    ensures k > 0 ==>
              var before := ClonedWires(wires[..k - 1], ids, uuid, from);
              ClonedWires(wires[..k], ids, uuid, from)
              == before + if Inside(wires[k - 1], ids) then [CloneWire(wires[k - 1], ids, uuid(from + |before|))]
                else []
  {
    hide CloneWire, Inside;
    if k > 0 {
      assert wires[..k][..k - 1] == wires[..k - 1];
      var inside := Induced(wires[..k - 1], ids);
      CopiesAre(inside, ids, uuid, from);
      assert Last(wires[..k]) == wires[k - 1];
      if Inside(wires[k - 1], ids) {
        assert Induced(wires[..k], ids) == inside + [wires[k - 1]];
        assert (inside + [wires[k - 1]])[..|inside|] == inside;
      } else {
        assert Induced(wires[..k], ids) == inside + [] == inside;
        var before := CopyWires(inside, ids, uuid, from);
        assert before + [] == before;
      }
    }
  }

  /** The owner's steps in document order, cut before the selected step. */
  method SelectBranch(nodes: seq<Node>, selected: nat) returns (source: seq<nat>)
    requires selected < |nodes|
    ensures source == Branch(nodes, selected)
  {
    var owner := BranchOwner(nodes[selected]);
    if owner.None? {
      return [selected];
    }
    source := [];
    for k := 0 to |nodes|
      invariant source == Owned(nodes, owner.value, 0, k)
    {
      if OwnedBy(nodes[k], owner.value) {
        source := source + [k];
      }
    }
    if nodes[selected].work.value.Step? {
      source := source[IndexOf(source, selected)..];
    }
  }

  lemma {:induction false} RenamingIs(ids: seq<string>, uuid: nat -> string, n: nat)
    requires n <= |ids| && forall j, k :: 0 <= j < k < |ids| ==> ids[j] != ids[k]
    ensures forall k :: 0 <= k < n ==> ids[k] in Renaming(ids, uuid, n) && Renaming(ids, uuid, n)[ids[k]] == uuid(k)
    ensures forall id: string :: id in Renaming(ids, uuid, n) ==> id in ids
  {
    if n > 0 {
      RenamingIs(ids, uuid, n - 1);
      var before, after := Renaming(ids, uuid, n - 1), Renaming(ids, uuid, n);
      assert after == before[ids[n - 1] := uuid(n - 1)];
      forall k | 0 <= k < n
        ensures ids[k] in after && after[ids[k]] == uuid(k)
      {
        assert k < n - 1 ==> ids[k] != ids[n - 1];
      }
    }
  }

  predicate InjectiveMap(ids: map<string, string>) {
    forall a, b :: a in ids && b in ids && ids[a] == ids[b] ==> a == b
  }

  /** Under its new id the copy keeps everything but its record and result, and stands 480 lower. */
  predicate IsNodeCopy(node: Node, copy: Node, id: string) {
    && copy.id == id && copy.engine == node.engine && copy.title == node.title && copy.params == node.params
    && copy.outputs == node.outputs && copy.extra == node.extra && copy.work.None? && copy.result.None?
    && copy.x == node.x && copy.y == node.y + 480
  }

  /** The copy goes between the copied nodes, at the same sockets, and belongs to no session. */
  predicate IsWireCopy(w: Wire, copy: Wire, ids: map<string, string>)
    requires Inside(w, ids)
  {
    && copy.source == End(ids[w.source.node], w.source.socket)
    && copy.target == End(ids[w.target.node], w.target.socket)
    && copy.inferred == w.inferred && copy.owner.None?
  }

  /** Each copy is its original under its new name. */
  predicate CopiesNodes(nodes: seq<Node>, source: seq<nat>, ids: map<string, string>, clones: seq<Node>) {
    |clones| == |source| && forall k :: 0 <= k < |source| ==>
      source[k] < |nodes| && nodes[source[k]].id in ids
        && IsNodeCopy(nodes[source[k]], clones[k], ids[nodes[source[k]].id])
  }

  /** The copied wires are the renamed wires inside the branch, all of them and no others. */
  predicate CopiesWires(wires: seq<Wire>, ids: map<string, string>, cloned: seq<Wire>) {
    && (forall w :: w in wires && Inside(w, ids) ==>
        exists k :: 0 <= k < |cloned| && IsWireCopy(w, cloned[k], ids))
    && (forall k :: 0 <= k < |cloned| ==> IsCopy(wires, ids, cloned[k]))
    && |cloned| == |Induced(wires, ids)|
  }

  predicate IsCopy(wires: seq<Wire>, ids: map<string, string>, copy: Wire) {
    exists w :: w in wires && Inside(w, ids) && IsWireCopy(w, copy, ids)
  }

  lemma RenamingIsInjective(nodes: seq<Node>, source: seq<nat>, uuid: nat -> string)
    requires UniqueIds(nodes) && (forall k :: 0 <= k < |source| ==> source[k] < |nodes|)
    requires (forall j, k :: 0 <= j < k < |source| ==> source[j] < source[k])
             && (forall j, k :: j != k ==> uuid(j) != uuid(k))
    ensures var ids := BranchNames(nodes, source, uuid);
            InjectiveMap(ids) && CopiesNodes(nodes, source, ids, Clones(nodes, source, uuid))
  {
    hide Renaming;
    var names, ids := IdsAt(nodes, source), BranchNames(nodes, source, uuid);
    RenamingIs(names, uuid, |source|);
    forall a, b | a in ids && b in ids && ids[a] == ids[b]
      ensures a == b
    {
      var j :| 0 <= j < |names| && names[j] == a;
      var k :| 0 <= k < |names| && names[k] == b;
    }
  }

  lemma ClonedWiresAreInduced(wires: seq<Wire>, ids: map<string, string>, uuid: nat -> string, from: nat)
    ensures CopiesWires(wires, ids, ClonedWires(wires, ids, uuid, from))
    ensures forall k :: 0 <= k < |ClonedWires(wires, ids, uuid, from)| ==>
                          && ClonedWires(wires, ids, uuid, from)[k].id == uuid(from + k)
                          && ClonedWires(wires, ids, uuid, from)[k].owner == None
  {
    hide Induced, CopyWires;
    var inside, cloned := Induced(wires, ids), ClonedWires(wires, ids, uuid, from);
    CopiesAre(inside, ids, uuid, from);
    forall k | 0 <= k < |cloned|
      ensures inside[k] in wires && Inside(inside[k], ids) && IsWireCopy(inside[k], cloned[k], ids)
      ensures cloned[k].id == uuid(from + k) && cloned[k].owner == None
    {
      InducedAre(wires, ids, inside[k]);
    }
    forall w | w in wires && Inside(w, ids)
      ensures exists k :: 0 <= k < |cloned| && IsWireCopy(w, cloned[k], ids)
    {
      InducedAre(wires, ids, w);
      var k :| 0 <= k < |inside| && inside[k] == w;
      assert IsWireCopy(w, cloned[k], ids);
    }
    forall k | 0 <= k < |cloned|
      ensures IsCopy(wires, ids, cloned[k])
    {
      var w := inside[k];
      assert w in wires && Inside(w, ids);
    }
  }

  /** The copy is isomorphic: under an injective renaming to new names, the copied nodes are the
      branch, and the copied wires are the wires inside it. */
  lemma ForkIsIsomorphic(nodes: seq<Node>, wires: seq<Wire>, selected: nat, uuid: nat -> string)
    requires UniqueIds(nodes) && selected < |nodes| && New(uuid, nodes, wires)
    ensures var source := Branch(nodes, selected);
            var ids := BranchNames(nodes, source, uuid);
            var clones, cloned := Clones(nodes, source, uuid), ClonedWires(wires, ids, uuid, |source|);
            && InjectiveMap(ids) && CopiesNodes(nodes, source, ids, clones) && CopiesWires(wires, ids, cloned)
            && UniqueIds(nodes + clones)
            && (forall j, k :: 0 <= j < |wires| && 0 <= k < |cloned| ==> wires[j].id != cloned[k].id)
  {
    hide ClonedWires, BranchNames, Branch, InjectiveMap, CopiesNodes, CopiesWires;
    var source := Branch(nodes, selected);
    var ids := BranchNames(nodes, source, uuid);
    RenamingIsInjective(nodes, source, uuid);
    ClonedWiresAreInduced(wires, ids, uuid, |source|);
  }

  /** A later projection of the owning session leaves every copied node and wire where it is. */
  lemma ProjectionLeavesTheFork(nodes: seq<Node>, wires: seq<Wire>, selected: nat, uuid: nat -> string, p: Projection)
    requires UniqueIds(nodes) && selected < |nodes| && New(uuid, nodes, wires) && Find(nodes, p.session) < |nodes|
    requires p.Apart() && forall j, k :: 0 <= j < |p.groups| ==> p.IdOf(j) != uuid(k)
    ensures var source := Branch(nodes, selected);
            var clones, cloned :=
              Clones(nodes, source, uuid), ClonedWires(wires, BranchNames(nodes, source, uuid), uuid, |source|);
            var later := ProjectedNodes(nodes + clones, p);
            && |nodes + clones| <= |later|
            && (forall k :: 0 <= k < |clones| ==> later[|nodes| + k] == clones[k])
            && Others(wires, p.session) + cloned <= ProjectedWires(later, wires + cloned, p)
  {
    hide Branch, BranchNames, ClonedWires, Reconciled, InferAll, Entries, Rank, Others;
    var source := Branch(nodes, selected);
    var clones, cloned :=
      Clones(nodes, source, uuid), ClonedWires(wires, BranchNames(nodes, source, uuid), uuid, |source|);
    SameIdsSameFind(nodes, nodes + clones, p.session);
    ReconciledKeeps(WithSession(nodes + clones, p), p, |p.groups|);
    ClonedWiresAreInduced(wires, BranchNames(nodes, source, uuid), uuid, |source|);
    OthersOfConcat(wires, cloned, p.session);
    NoneIsRemoved(cloned, p.session);
    ProjectionWires(ProjectedNodes(nodes + clones, p), wires + cloned, p);
  }
}
