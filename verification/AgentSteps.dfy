/** What a transcript becomes in the document: the steps its declarations delimit, the record each step's
    node carries, the place and parameters of a new node, and the session's own node. */
module AgentSteps {
  import opened Wrappers
  import opened AgentWork

  // ---------- declared steps ----------

  /** No step is declared from the i-th call up to the j-th. */
  predicate NoDeclaration(calls: seq<Call>, i: nat, j: nat)
    requires i <= j <= |calls|
  {
    forall k :: i <= k < j ==> !calls[k].tool.Declare?
  }

  predicate SomeCompletion(calls: seq<Call>, i: nat, j: nat)
    requires i <= j <= |calls|
  {
    exists k :: i <= k < j && calls[k].tool.Complete?
  }

  lemma {:induction false} OrdinaryTail(calls: seq<Call>, i: nat, j: nat)
    requires i <= j < |calls|
    ensures OrdinaryCalls(calls[i..j + 1])
         == OrdinaryCalls(calls[i..j]) + if calls[j].tool.Ordinary? then [calls[j]] else []
  {
    assert calls[i..j + 1][..|calls[i..j + 1]| - 1] == calls[i..j];
  }

  /** While no other step is declared, the declared step is the last group: it collects the ordinary calls,
      and is done once a completion comes. */
  lemma {:induction false} CurrentStep(calls: seq<Call>, d: nat, e: nat)
    requires d < e <= |calls| && calls[d].tool.Declare? && NoDeclaration(calls, d + 1, e)
    ensures var groups := GroupsOf(calls[..e], true);
            && groups != [] && Last(groups).key == calls[d].id
            && Last(groups).title == (if calls[d].tool.title == "" then "Declared step" else calls[d].tool.title)
            && Last(groups).calls == OrdinaryCalls(calls[d + 1..e])
            && (Last(groups).done <==> SomeCompletion(calls, d + 1, e))
            && |groups| == |GroupsOf(calls[..d], true)| + 1
    decreases e
  {
    hide OrdinaryCalls, AddCall, SomeCompletion;
    assert calls[..e][..e - 1] == calls[..e - 1] && Last(calls[..e]) == calls[e - 1];
    var before := GroupsOf(calls[..e - 1], true);
    assert GroupsOf(calls[..e], true) == AddCall(before, calls[e - 1], true);
    if e == d + 1 {
      DeclaredGroup(before, calls[d]);
      NothingYet(calls, e);
    } else {
      CurrentStep(calls, d, e - 1);
      OrdinaryTail(calls, d + 1, e - 1);
      OneCallOn(before, calls[e - 1]);
      OneMoreCompletion(calls, d + 1, e);
    }
  }

  lemma DeclaredGroup(groups: seq<Group>, call: Call)
    requires call.tool.Declare?
    ensures var title := if call.tool.title == "" then "Declared step" else call.tool.title;
            AddCall(groups, call, true) == groups + [Group(call.id, title, [], false)]
  {
  }

  lemma NothingYet(calls: seq<Call>, e: nat)
    requires e <= |calls|
    ensures OrdinaryCalls(calls[e..e]) == [] && !SomeCompletion(calls, e, e)
  {
  }

  lemma OneCallOn(groups: seq<Group>, call: Call)
    requires groups != [] && !call.tool.Declare?
    ensures var after := AddCall(groups, call, true);
            && |after| == |groups| && Last(after).key == Last(groups).key && Last(after).title == Last(groups).title
            && Last(after).calls == Last(groups).calls + (if call.tool.Ordinary? then [call] else [])
            && (Last(after).done <==> Last(groups).done || call.tool.Complete?)
  {
    assert Last(groups).calls + [] == Last(groups).calls;
  }

  lemma OneMoreCompletion(calls: seq<Call>, i: nat, e: nat)
    requires i < e <= |calls|
    ensures SomeCompletion(calls, i, e) <==> SomeCompletion(calls, i, e - 1) || calls[e - 1].tool.Complete?
  {
  }

  /** Groups before the last one never change again. */
  lemma {:induction false} EarlierGroupsStay(calls: seq<Call>, e: nat, n: nat, g: nat)
    requires e <= n <= |calls| && g + 1 < |GroupsOf(calls[..e], true)|
    ensures g + 1 < |GroupsOf(calls[..n], true)| && GroupsOf(calls[..n], true)[g] == GroupsOf(calls[..e], true)[g]
    decreases n
  {
    if e < n {
      EarlierGroupsStay(calls, e, n - 1, g);
      assert calls[..n][..n - 1] == calls[..n - 1];
    }
  }

  /** Each declaration becomes one step: its title, the ordinary calls up to the next declaration, and done
      if and only if a completion is among the calls up to there. */
  lemma StepOfDeclaration(calls: seq<Call>, d: nat, e: nat)
    requires d < e <= |calls| && calls[d].tool.Declare? && NoDeclaration(calls, d + 1, e)
    requires e < |calls| ==> calls[e].tool.Declare?
    ensures var groups, at := GroupsOf(calls, true), |GroupsOf(calls[..d], true)|;
            && at < |groups| && groups[at].key == calls[d].id
            && groups[at].title == (if calls[d].tool.title == "" then "Declared step" else calls[d].tool.title)
            && groups[at].calls == OrdinaryCalls(calls[d + 1..e])
            && (groups[at].done <==> SomeCompletion(calls, d + 1, e))
  {
    hide GroupsOf, OrdinaryCalls;
    CurrentStep(calls, d, e);
    assert calls[..|calls|] == calls;
    if e < |calls| {
      DeclarationAppends(calls, e);
      EarlierGroupsStay(calls, e + 1, |calls|, |GroupsOf(calls[..d], true)|);
    }
  }

  lemma DeclarationAppends(calls: seq<Call>, e: nat)
    requires e < |calls| && calls[e].tool.Declare?
    ensures |GroupsOf(calls[..e + 1], true)| == |GroupsOf(calls[..e], true)| + 1
    ensures GroupsOf(calls[..e + 1], true)[..|GroupsOf(calls[..e], true)|] == GroupsOf(calls[..e], true)
  {
    assert calls[..e + 1][..e] == calls[..e];
  }

  // ---------- the records ----------

  lemma {:induction false} LastMetaIs(p: Projection, n: nat, k: nat)
    requires k < n <= |p.groups| && forall j :: k < j < n ==> p.IdOf(j) != p.IdOf(k)
    ensures LastMeta(p, n, p.IdOf(k)) == Some(p.MetaOf(k))
  {
    hide Projection.IdOf, Projection.MetaOf;
    if k < n - 1 {
      LastMetaIs(p, n - 1, k);
    }
  }

  /** After a projection a step's node records the session, the step's calls and whether it is done. */
  lemma StepIsRecorded(nodes: seq<Node>, p: Projection, k: nat)
    requires k < |p.groups| && forall j :: k < j < |p.groups| ==> p.IdOf(j) != p.IdOf(k)
    ensures var r, group, plan := ProjectedNodes(nodes, p), p.groups[k], p.plan(p.groups[k]);
            var at := Find(r, p.identity(p.session, group.key));
            && at < |r| && r[at].work.Some? && r[at].work.value.Step?
            && var record := r[at].work.value;
               && record.owner == p.session && record.runtime == p.runtime && record.native == p.native
               && |record.calls| == |group.calls|
               && (forall j :: 0 <= j < |group.calls| ==> record.calls[j] == group.calls[j].id)
               && record.kind == plan.kind && record.tool == plan.tool && record.runnable == plan.runnable
               && record.done == group.done
  {
    hide Find, Reconciled, WithSession;
    LastMetaIs(p, |p.groups|, k);
    RunLeavesLastMeta(WithSession(nodes, p), p, |p.groups|, p.IdOf(k));
  }

  // ---------- new nodes ----------

  /** A node, once there, changes in its record alone. */
  lemma {:induction false} StepStays(nodes: seq<Node>, p: Projection, from: nat, n: nat, at: nat)
    requires from <= n <= |p.groups| && at < |Reconciled(nodes, p, from)|
    ensures var a, b := Reconciled(nodes, p, from), Reconciled(nodes, p, n);
            at < |b| && b[at] == a[at].(work := b[at].work)
    ensures Find(Reconciled(nodes, p, from), Reconciled(nodes, p, from)[at].id) == at ==>
              Find(Reconciled(nodes, p, n), Reconciled(nodes, p, from)[at].id) == at
    decreases n
  {
    hide Find, Reconcile, Projection.IdOf, Projection.MetaOf, Projection.NewNode;
    if from < n {
      StepStays(nodes, p, from, n - 1, at);
      var before := Reconciled(nodes, p, n - 1);
      ReconcileFacts(before, p, n - 1);
      SameIdsSameFind(before, Reconciled(nodes, p, n), before[at].id);
    }
  }

  lemma {:induction false} NotThereYet(nodes: seq<Node>, p: Projection, n: nat, id: string)
    requires n <= |p.groups| && Find(nodes, id) == |nodes| && forall j :: 0 <= j < n ==> p.IdOf(j) != id
    ensures Find(Reconciled(nodes, p, n), id) == |Reconciled(nodes, p, n)|
  {
    hide Find, Reconcile, Projection.IdOf, Projection.MetaOf, Projection.NewNode;
    if n > 0 {
      NotThereYet(nodes, p, n - 1, id);
      var before, after := Reconciled(nodes, p, n - 1), Reconciled(nodes, p, n);
      ReconcileFacts(before, p, n - 1);
      NoneHasIt(before, id);
      FindIs(after, id, |after|);
    }
  }

  lemma NoneHasIt(nodes: seq<Node>, id: string)
    ensures Find(nodes, id) == |nodes| <==> forall k :: 0 <= k < |nodes| ==> nodes[k].id != id
  {
    if forall k :: 0 <= k < |nodes| ==> nodes[k].id != id {
      FindIs(nodes, id, |nodes|);
    }
  }

  /** A step that has no node yet gets one from its plan. */
  lemma NewStepIsPlaced(nodes: seq<Node>, p: Projection, k: nat)
    requires k < |p.groups| && Find(nodes, p.IdOf(k)) == |nodes| && forall j :: 0 <= j < k ==> p.IdOf(j) != p.IdOf(k)
    ensures var r, plan := ProjectedNodes(nodes, p), p.plan(p.groups[k]);
            var at := Find(r, p.identity(p.session, p.groups[k].key));
            && |nodes| <= at < |r|
            && r[at].engine == plan.engine && r[at].title == plan.title && r[at].params == plan.params
            && r[at].outputs == plan.outputs && r[at].extra == plan.extra && r[at].result.None?
            && PlacedAt(k, r[at].x, r[at].y)
  {
    hide Find, Reconciled, Reconcile, SessionNode, PlacedAt, IsNew;
    var marked := WithSession(nodes, p);
    SessionChangesNoId(nodes, p);
    NoneHasIt(nodes, p.IdOf(k));
    NoneHasIt(marked, p.IdOf(k));
    NotThereYet(marked, p, k, p.IdOf(k));
    var before := Reconciled(marked, p, k);
    ReconcileFacts(before, p, k);
    ReconciledOnce(marked, p, k);
    ReconciledKeeps(marked, p, k);
    StepStays(marked, p, k + 1, |p.groups|, |before|);
    NewNodeIs(p, k);
  }

  lemma NewNodeIs(p: Projection, k: nat)
    requires k < |p.groups|
    ensures var node, plan := p.NewNode(k), p.plan(p.groups[k]);
            && node.engine == plan.engine && node.title == plan.title && node.params == plan.params
            && node.outputs == plan.outputs && node.extra == plan.extra && node.result.None?
            && PlacedAt(k, node.x, node.y)
  {
    var column, row := k % 4, k / 4;
    assert k == 4 * row + column && (320 * column) / 320 == column && (400 * row) / 400 == row;
  }

  /** Four in a row, 320 apart, the rows 400 apart. */
  predicate PlacedAt(k: nat, x: int, y: int) {
    && 464 <= x < 464 + 4 * 320 && (x - 464) % 320 == 0 && (y - 380) % 400 == 0
    && k == 4 * ((y - 380) / 400) + (x - 464) / 320
  }

  lemma ReconciledOnce(nodes: seq<Node>, p: Projection, k: nat)
    requires k < |p.groups|
    ensures Reconciled(nodes, p, k + 1) == Reconcile(Reconciled(nodes, p, k), p, k)
  {
  }

  // ---------- the session's own node ----------

  /** The session's node records the session, and its parameters say the model, the goal and the detail. */
  lemma SessionIsRecorded(nodes: seq<Node>, p: Projection)
    requires p.Apart() && Find(nodes, p.session) < |nodes|
    ensures var at := Find(nodes, p.session);
            at < |ProjectedNodes(nodes, p)| &&
            var before, after := nodes[at], ProjectedNodes(nodes, p)[at];
            && after.work == Some(Session(p.runtime, p.native))
            && Param(after.params, "model") == Some(p.model)
            && Param(after.params, "goal") == Some(Text(before.title))
            && Param(after.params, "detail") == Some(Text(if p.hasCalls then "" else "detail not available"))
            && (forall key :: key !in {"model", "goal", "detail"} ==>
                  Param(after.params, key) == Param(before.params, key))
            && after == before.(work := after.work, params := after.params)
  {
    hide Find, Param, SetParam, ProjectedNodes;
    ProjectionKeepsNodes(nodes, p);
    var before := nodes[Find(nodes, p.session)];
    var detail := Text(if !p.hasCalls then "detail not available" else "");
    var a := SetParam(before.params, "model", p.model);
    var b := SetParam(a, "goal", Text(before.title));
    forall key
      ensures Param(SetParam(b, "detail", detail), key)
              == if key == "detail" then Some(detail) else if key == "goal" then Some(Text(before.title))
                 else if key == "model" then Some(p.model) else Param(before.params, key)
    {
      SetParamSets(before.params, "model", p.model, key);
      SetParamSets(a, "goal", Text(before.title), key);
      SetParamSets(b, "detail", detail, key);
    }
  }

  lemma SessionChangesNoId(nodes: seq<Node>, p: Projection)
    ensures var r := WithSession(nodes, p); |r| == |nodes| && forall k :: 0 <= k < |r| ==> r[k].id == nodes[k].id
  {
    hide Find, SessionParams;
  }
}
