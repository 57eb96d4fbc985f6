/** Which wires a projection infers: into each open socket of a later step the one from the first
    earlier step whose output text is part of the parameter's value, and no others. */
module InferredWires {
  import opened Wrappers
  import opened AgentWork

  ghost predicate Within(part: string, whole: string) {
    exists a: string, b: string :: whole == a + part + b
  }

  /** Some output text of four characters or more is part of the value. */
  ghost predicate ValueFrom(calls: seq<Call>, value: Value) {
    value.Text?
    && exists c, t :: 0 <= c < |calls| && 0 <= t < |calls[c].texts| && |calls[c].texts[t]| >= 4
                      && Within(calls[c].texts[t], value.text)
  }

  /** One of the first n parameters has this key and such a value. */
  ghost predicate Supplies(calls: seq<Call>, params: Params, n: nat, key: string)
    requires n <= |params|
  {
    exists k :: 0 <= k < n && params[k].0 == key && ValueFrom(calls, params[k].1)
  }

  lemma ContainsIsWithin(text: string, part: string)
    ensures Contains(text, part) <==> Within(part, text)
  {
    if i :| 0 <= i <= |text| && PartAt(text, part, i) {
      assert text == text[..i] + part + text[i + |part|..];
    }
    if a: string, b: string :| text == a + part + b {
      assert text[|a|..|a| + |part|] == part;
      assert PartAt(text, part, |a|);
    }
  }

  lemma FeedsIsValueFrom(earlier: Entry, value: Value)
    ensures Feeds(earlier, value) <==> ValueFrom(earlier.calls, value)
  {
    hide Contains, Within;
    if value.Text? {
      forall part
        ensures Contains(value.text, part) <==> Within(part, value.text)
      {
        ContainsIsWithin(value.text, part);
      }
      if c, t :| 0 <= c < |earlier.calls| && 0 <= t < |earlier.calls[c].texts| && |earlier.calls[c].texts[t]| >= 4
                 && Within(earlier.calls[c].texts[t], value.text) {
        NoLongerThan(earlier.calls[c].texts[t], value.text);
      }
    }
  }

  lemma NoLongerThan(part: string, whole: string)
    requires Within(part, whole)
    ensures |part| <= |whole|
  {
  }

  function Socket(node: string, key: string): End {
    End(node, "param:" + key)
  }

  lemma SocketsDiffer(node: string, a: string, b: string)
    requires Socket(node, a) == Socket(node, b)
    ensures a == b
  {
    assert ("param:" + a)[6..] == a && ("param:" + b)[6..] == b;
  }

  lemma TakenIsMember(wires: seq<Wire>, target: End)
    ensures Taken(wires, target) <==> exists w :: w in wires && w.target == target
  {
    if w :| w in wires && w.target == target {
      var k :| 0 <= k < |wires| && wires[k] == w;
    }
  }

  // ---------- one pair ----------

  /** The earlier step has a source port and supplies a parameter under the key. */
  ghost predicate CanFeed(earlier: Entry, later: Entry, n: nat, key: string)
    requires n <= |later.params|
  {
    earlier.outputs != [] && Supplies(earlier.calls, later.params, n, key)
  }

  ghost predicate PairAdds(wires: seq<Wire>, session: string, earlier: Entry, later: Entry, n: nat, w: Wire)
    requires n <= |later.params|
  {
    exists key ::
      CanFeed(earlier, later, n, key) && !Taken(wires, Socket(later.id, key))
      && w == Inferred(session, earlier, later, key)
  }

  lemma {:induction false} PairIs(wires: seq<Wire>, session: string, earlier: Entry, later: Entry, n: nat)
    requires n <= |later.params|
    ensures forall w :: w in InferPair(wires, session, earlier, later, n) <==>
              w in wires || PairAdds(wires, session, earlier, later, n, w)
  {
    hide Feeds, Taken, ValueFrom;
    if n > 0 {
      PairIs(wires, session, earlier, later, n - 1);
      ParamIs(wires, session, earlier, later, n);
    }
  }

  lemma ParamIs(wires: seq<Wire>, session: string, earlier: Entry, later: Entry, n: nat)
    requires 0 < n <= |later.params|
    requires forall w :: w in InferPair(wires, session, earlier, later, n - 1) <==>
               w in wires || PairAdds(wires, session, earlier, later, n - 1, w)
    ensures forall w :: w in InferPair(wires, session, earlier, later, n) <==>
              w in wires || PairAdds(wires, session, earlier, later, n, w)
  {
    hide Feeds, Taken, ValueFrom;
    var (key, value) := later.params[n - 1];
    var before := InferPair(wires, session, earlier, later, n - 1);
    FeedsIsValueFrom(earlier, value);
    TakenIsMember(before, Socket(later.id, key));
    TakenIsMember(wires, Socket(later.id, key));
    forall k
      ensures CanFeed(earlier, later, n, k) <==>
              CanFeed(earlier, later, n - 1, k)
              || (earlier.outputs != [] && k == key && ValueFrom(earlier.calls, value))
    {
      if k == key && ValueFrom(earlier.calls, value) {
        assert later.params[n - 1].0 == k && ValueFrom(earlier.calls, later.params[n - 1].1);
      }
    }
    hide CanFeed, Supplies, Inferred;
    forall w
      ensures w in InferPair(wires, session, earlier, later, n) <==>
              w in wires || PairAdds(wires, session, earlier, later, n, w)
    {
      if w in InferPair(wires, session, earlier, later, n) && w !in before {
        assert CanFeed(earlier, later, n, key) && !Taken(wires, Socket(later.id, key));
      }
      if k :| CanFeed(earlier, later, n, k) && !Taken(wires, Socket(later.id, k))
              && w == Inferred(session, earlier, later, k) {
        if !CanFeed(earlier, later, n - 1, k) && Taken(before, Socket(later.id, key)) {
          var v :| v in before && v.target == Socket(later.id, key);
          var other :| CanFeed(earlier, later, n - 1, other) && v == Inferred(session, earlier, later, other);
          InferredTarget(session, earlier, later, other);
          SocketsDiffer(later.id, key, other);
        }
      }
    }
  }

  lemma InferredTarget(session: string, earlier: Entry, later: Entry, key: string)
    requires earlier.outputs != []
    ensures Inferred(session, earlier, later, key).target == Socket(later.id, key)
  {
  }

  // ---------- one later step ----------

  /** The first of the entries that can feed the parameter. */
  ghost predicate FirstFeeder(entries: seq<Entry>, l: nat, e: nat, key: string)
    requires l < |entries| && e < |entries|
  {
    var n := |entries[l].params|;
    CanFeed(entries[e], entries[l], n, key) && forall i :: 0 <= i < e ==> !CanFeed(entries[i], entries[l], n, key)
  }

  lemma {:induction false} LeastFeeder(entries: seq<Entry>, l: nat, i: nat, key: string) returns (e: nat)
    requires l < |entries| && i < |entries| && CanFeed(entries[i], entries[l], |entries[l].params|, key)
    ensures e <= i && FirstFeeder(entries, l, e, key)
  {
    hide CanFeed;
    if j: nat :| j < i && CanFeed(entries[j], entries[l], |entries[l].params|, key) {
      e := LeastFeeder(entries, l, j, key);
    } else {
      e := i;
    }
  }

  ghost predicate LaterAdds(wires: seq<Wire>, session: string, entries: seq<Entry>, l: nat, n: nat, w: Wire)
    requires l < |entries| && n <= |entries|
  {
    exists key, e: nat :: e < n && AddsFrom(wires, session, entries, l, e, key, w)
  }

  /** The wire from the first feeder into an open socket. */
  ghost predicate AddsFrom(wires: seq<Wire>, session: string, entries: seq<Entry>, l: nat, e: nat, key: string, w: Wire)
    requires l < |entries| && e < |entries|
  {
    && FirstFeeder(entries, l, e, key) && !Taken(wires, Socket(entries[l].id, key))
    && w == Inferred(session, entries[e], entries[l], key)
  }

  lemma {:induction false} LaterIs(wires: seq<Wire>, session: string, entries: seq<Entry>, l: nat, n: nat)
    requires l < |entries| && n <= Rank(entries, entries[l].id) <= |entries|
    ensures forall w :: w in InferLater(wires, session, entries, l, n) <==>
              w in wires || LaterAdds(wires, session, entries, l, n, w)
  {
    hide Rank, Taken, CanFeed, InferPair;
    if n > 0 {
      LaterIs(wires, session, entries, l, n - 1);
      PairIs(InferLater(wires, session, entries, l, n - 1), session, entries[n - 1], entries[l], |entries[l].params|);
      OneMoreEarlier(wires, session, entries, l, n);
    }
  }

  lemma OneMoreEarlier(wires: seq<Wire>, session: string, entries: seq<Entry>, l: nat, n: nat)
    requires l < |entries| && 0 < n <= Rank(entries, entries[l].id) <= |entries|
    requires forall w :: w in InferLater(wires, session, entries, l, n - 1) <==>
               w in wires || LaterAdds(wires, session, entries, l, n - 1, w)
    requires forall w :: w in InferLater(wires, session, entries, l, n) <==>
               w in InferLater(wires, session, entries, l, n - 1)
               || PairAdds(InferLater(wires, session, entries, l, n - 1), session, entries[n - 1], entries[l],
                           |entries[l].params|, w)
    ensures forall w :: w in InferLater(wires, session, entries, l, n) <==>
              w in wires || LaterAdds(wires, session, entries, l, n, w)
  {
    hide Rank, Taken, Supplies, InferPair, InferLater, Inferred, Socket, AddsFrom;
    var before, later := InferLater(wires, session, entries, l, n - 1), entries[l];
    forall w
      ensures w in InferLater(wires, session, entries, l, n) <==>
              w in wires || LaterAdds(wires, session, entries, l, n, w)
    {
      if key :| CanFeed(entries[n - 1], later, |later.params|, key) && !Taken(before, Socket(later.id, key))
                && w == Inferred(session, entries[n - 1], later, key) {
        FedBefore(wires, before, session, entries, l, n - 1, key);
        AddsFromIs(wires, session, entries, l, n - 1, key, w);
      }
      if key, e: nat :| e < n && AddsFrom(wires, session, entries, l, e, key, w) {
        AddsFromIs(wires, session, entries, l, e, key, w);
        FedBefore(wires, before, session, entries, l, n - 1, key);
        assert e == n - 1 ==> PairAdds(before, session, entries[n - 1], later, |later.params|, w);
      }
    }
  }

  lemma AddsFromIs(wires: seq<Wire>, session: string, entries: seq<Entry>, l: nat, e: nat, key: string, w: Wire)
    requires l < |entries| && e < |entries|
    ensures AddsFrom(wires, session, entries, l, e, key, w) <==>
            && entries[e].outputs != [] && CanFeed(entries[e], entries[l], |entries[l].params|, key)
            && (forall i :: 0 <= i < e ==> !CanFeed(entries[i], entries[l], |entries[l].params|, key))
            && !Taken(wires, Socket(entries[l].id, key)) && w == Inferred(session, entries[e], entries[l], key)
  {
    hide Taken, Supplies, Inferred;
  }

  /** A socket is taken before the step e when the base takes it, or some step before e can feed it. */
  lemma FedBefore(wires: seq<Wire>, before: seq<Wire>, session: string, entries: seq<Entry>, l: nat, e: nat,
                  key: string)
    requires l < |entries| && e <= |entries|
    requires forall w :: w in before <==> w in wires || LaterAdds(wires, session, entries, l, e, w)
    ensures Taken(before, Socket(entries[l].id, key)) <==>
            Taken(wires, Socket(entries[l].id, key))
            || exists i :: 0 <= i < e && CanFeed(entries[i], entries[l], |entries[l].params|, key)
  {
    hide Taken, Inferred, Socket, Supplies;
    var later := entries[l];
    var socket := Socket(later.id, key);
    TakenIsMember(before, socket);
    TakenIsMember(wires, socket);
    if w :| w in before && w.target == socket {
      if w !in wires {
        var other, i: nat :| i < e && AddsFrom(wires, session, entries, l, i, other, w);
        InferredTarget(session, entries[i], later, other);
        SocketsDiffer(later.id, key, other);
      }
    }
    if i :| 0 <= i < e && CanFeed(entries[i], later, |later.params|, key) {
      var first := LeastFeeder(entries, l, i, key);
      if !Taken(wires, socket) {
        var w := Inferred(session, entries[first], later, key);
        assert AddsFrom(wires, session, entries, l, first, key, w);
        assert LaterAdds(wires, session, entries, l, e, w);
        InferredTarget(session, entries[first], later, key);
      }
    }
  }

  // ---------- all steps ----------

  /** Steps of one identity are one node. */
  predicate OneNodeEach(entries: seq<Entry>) {
    forall i, j :: 0 <= i < |entries| && 0 <= j < |entries| && entries[i].id == entries[j].id ==>
      entries[i].params == entries[j].params
  }

  ghost predicate Adds(wires: seq<Wire>, session: string, entries: seq<Entry>, n: nat, w: Wire)
    requires n <= |entries|
  {
    exists l: nat ::
      l < n && Rank(entries, entries[l].id) <= |entries|
      && LaterAdds(wires, session, entries, l, Rank(entries, entries[l].id), w)
  }

  lemma {:induction false} AllIs(wires: seq<Wire>, session: string, entries: seq<Entry>, n: nat)
    requires n <= |entries| && OneNodeEach(entries)
    ensures forall w :: w in InferAll(wires, session, entries, n) <==>
              w in wires || Adds(wires, session, entries, n, w)
  {
    hide Rank, InferLater, LaterAdds;
    if n > 0 {
      AllIs(wires, session, entries, n - 1);
      RankIsFirst(entries, entries[n - 1].id);
      LaterIs(InferAll(wires, session, entries, n - 1), session, entries, n - 1, Rank(entries, entries[n - 1].id));
      OneMoreLater(wires, InferAll(wires, session, entries, n - 1), session, entries, n);
    }
  }

  lemma OneMoreLater(wires: seq<Wire>, before: seq<Wire>, session: string, entries: seq<Entry>, n: nat)
    requires 0 < n <= |entries| && OneNodeEach(entries) && Rank(entries, entries[n - 1].id) <= |entries|
    requires forall w :: w in before <==> w in wires || Adds(wires, session, entries, n - 1, w)
    ensures forall w ::
              (w in before || LaterAdds(before, session, entries, n - 1, Rank(entries, entries[n - 1].id), w)) <==>
              (w in wires || Adds(wires, session, entries, n, w))
  {
    hide Rank, Taken, Inferred, Socket, CanFeed, AddsFrom;
    var l := n - 1;
    var rank := Rank(entries, entries[l].id);
    forall w
      ensures (w in before || LaterAdds(before, session, entries, l, rank, w)) <==>
              (w in wires || Adds(wires, session, entries, n, w))
    {
      if key, e: nat :| e < rank && AddsFrom(before, session, entries, l, e, key, w) {
        AddsFromIs(before, session, entries, l, e, key, w);
        StillOpen(wires, before, Socket(entries[l].id, key));
        AddsFromIs(wires, session, entries, l, e, key, w);
        assert LaterAdds(wires, session, entries, l, rank, w);
      }
      if key, e: nat :| e < rank && AddsFrom(wires, session, entries, l, e, key, w) {
        AddsFromIs(wires, session, entries, l, e, key, w);
        if Taken(before, Socket(entries[l].id, key)) {
          SameWire(wires, before, session, entries, n, e, key, w);
        } else {
          AddsFromIs(before, session, entries, l, e, key, w);
        }
      }
    }
  }

  lemma StillOpen(wires: seq<Wire>, more: seq<Wire>, socket: End)
    requires (forall w :: w in wires ==> w in more) && !Taken(more, socket)
    ensures !Taken(wires, socket)
  {
    TakenIsMember(wires, socket);
    TakenIsMember(more, socket);
  }

  /** A socket that an earlier entry of the same node filled has the very same wire. */
  lemma SameWire(wires: seq<Wire>, before: seq<Wire>, session: string, entries: seq<Entry>, n: nat, e: nat, key: string,
                 w: Wire)
    requires 0 < n <= |entries| && OneNodeEach(entries) && e < |entries|
    requires AddsFrom(wires, session, entries, n - 1, e, key, w)
    requires forall v :: v in before ==> v in wires || Adds(wires, session, entries, n - 1, v)
    requires Taken(before, Socket(entries[n - 1].id, key))
    ensures w in before
  {
    hide Rank, Taken, CanFeed, AddsFrom, Inferred, Socket;
    var l := n - 1;
    var socket := Socket(entries[l].id, key);
    AddsFromIs(wires, session, entries, l, e, key, w);
    TakenIsMember(before, socket);
    TakenIsMember(wires, socket);
    var v :| v in before && v.target == socket;
    var m: nat :| m < l && Rank(entries, entries[m].id) <= |entries|
                  && LaterAdds(wires, session, entries, m, Rank(entries, entries[m].id), v);
    var other, i: nat :| i < Rank(entries, entries[m].id) && AddsFrom(wires, session, entries, m, i, other, v);
    AddsFromIs(wires, session, entries, m, i, other, v);
    SameSource(session, entries, l, e, key, w, m, i, other, v);
  }

  lemma SameSource(session: string, entries: seq<Entry>, l: nat, e: nat, key: string, w: Wire, m: nat, i: nat,
                   other: string, v: Wire)
    requires l < |entries| && e < |entries| && m < |entries| && i < |entries| && OneNodeEach(entries)
    requires FirstFeeder(entries, l, e, key) && w == Inferred(session, entries[e], entries[l], key)
    requires FirstFeeder(entries, m, i, other) && v == Inferred(session, entries[i], entries[m], other)
    requires v.target == Socket(entries[l].id, key)
    ensures v == w
  {
    hide Supplies;
    SocketsDiffer(entries[l].id, key, other);
    assert entries[m].params == entries[l].params;
    assert forall k :: 0 <= k < |entries| ==>
             (CanFeed(entries[k], entries[l], |entries[l].params|, key) <==>
              CanFeed(entries[k], entries[m], |entries[m].params|, key));
    assert !(i < e) && !(e < i);
  }

  // ---------- a projection ----------

  /** The step e has a source port, and an output text of it of four characters or more is part of the
      text under this key in the step l. */
  ghost predicate Observed(nodes: seq<Node>, p: Projection, l: nat, e: nat, key: string)
    requires l < |p.groups| && e < |p.groups|
    requires Find(nodes, p.IdOf(l)) < |nodes| && Find(nodes, p.IdOf(e)) < |nodes|
  {
    var earlier, later := nodes[Find(nodes, p.IdOf(e))], nodes[Find(nodes, p.IdOf(l))];
    earlier.outputs != [] && exists k, c, t ::
      && 0 <= k < |later.params| && later.params[k].0 == key && later.params[k].1.Text?
      && 0 <= c < |p.groups[e].calls| && 0 <= t < |p.groups[e].calls[c].texts|
      && |p.groups[e].calls[c].texts[t]| >= 4 && Within(p.groups[e].calls[c].texts[t], later.params[k].1.text)
  }

  /** The step e is the first to be observed, before the first occurrence of the step l, and no wire that
      is not the session's goes into the parameter. */
  ghost predicate FedBy(nodes: seq<Node>, wires: seq<Wire>, p: Projection, l: nat, e: nat, key: string)
    requires forall k :: 0 <= k < |p.groups| ==> Find(nodes, p.IdOf(k)) < |nodes|
  {
    && l < |p.groups| && e < |p.groups| && (forall i :: 0 <= i <= e ==> p.IdOf(i) != p.IdOf(l))
    && Observed(nodes, p, l, e, key) && (forall i :: 0 <= i < e ==> !Observed(nodes, p, l, i, key))
    && forall w :: w in wires && w.owner != Some(p.session) ==> w.target != End(p.IdOf(l), "param:" + key)
  }

  /** From the step's port named path if it has one, else from its first port. */
  ghost predicate IsWire(nodes: seq<Node>, p: Projection, l: nat, e: nat, key: string, w: Wire)
    requires forall k :: 0 <= k < |p.groups| ==> Find(nodes, p.IdOf(k)) < |nodes|
    requires l < |p.groups| && e < |p.groups|
  {
    var outputs := nodes[Find(nodes, p.IdOf(e))].outputs;
    && outputs != [] && w.source.node == p.IdOf(e)
    && w.source.socket == (if "path" in outputs then "path" else outputs[0])
    && w.target == End(p.IdOf(l), "param:" + key)
    && w.id == "inferred-" + p.IdOf(e) + "-" + p.IdOf(l) + "-" + key
    && w.inferred && w.owner == Some(p.session)
  }

  lemma {:induction false} OthersAre(wires: seq<Wire>, session: string)
    ensures forall w :: w in Others(wires, session) <==> w in wires && w.owner != Some(session)
  {
    if wires != [] {
      OthersAre(wires[..|wires| - 1], session);
      assert wires == wires[..|wires| - 1] + [Last(wires)];
    }
  }

  lemma StepsAreFound(nodes: seq<Node>, p: Projection)
    ensures forall k :: 0 <= k < |p.groups| ==> Find(ProjectedNodes(nodes, p), p.IdOf(k)) < |ProjectedNodes(nodes, p)|
  {
    hide Find, Reconciled, WithSession;
    forall k | 0 <= k < |p.groups|
      ensures Find(ProjectedNodes(nodes, p), p.IdOf(k)) < |ProjectedNodes(nodes, p)|
    {
      RunFindsSteps(WithSession(nodes, p), p, |p.groups|, k);
    }
  }

  lemma EntriesAre(nodes: seq<Node>, p: Projection)
    requires forall k :: 0 <= k < |p.groups| ==> Find(nodes, p.IdOf(k)) < |nodes|
    ensures OneNodeEach(Entries(nodes, p))
    ensures forall k :: 0 <= k < |p.groups| ==>
              var node := nodes[Find(nodes, p.IdOf(k))];
              Entries(nodes, p)[k] == Entry(p.IdOf(k), node.params, node.outputs, p.groups[k].calls)
  {
    hide Find;
    forall k | 0 <= k < |p.groups|
      ensures var node := nodes[Find(nodes, p.IdOf(k))];
              Entries(nodes, p)[k] == Entry(p.IdOf(k), node.params, node.outputs, p.groups[k].calls)
    {
      assert Entries(nodes, p)[k] == EntryOf(nodes, p, k);
    }
  }

  lemma ObservedIsCanFeed(nodes: seq<Node>, p: Projection, l: nat, e: nat, key: string)
    requires forall k :: 0 <= k < |p.groups| ==> Find(nodes, p.IdOf(k)) < |nodes|
    requires l < |p.groups| && e < |p.groups|
    ensures var entries := Entries(nodes, p);
            Observed(nodes, p, l, e, key) <==> CanFeed(entries[e], entries[l], |entries[l].params|, key)
  {
    hide Find, Within, Entries, OneNodeEach;
    EntriesAre(nodes, p);
    var earlier, later := Entries(nodes, p)[e], Entries(nodes, p)[l];
    if k, c, t :| && 0 <= k < |later.params| && later.params[k].0 == key && later.params[k].1.Text?
                  && 0 <= c < |earlier.calls| && 0 <= t < |earlier.calls[c].texts|
                  && |earlier.calls[c].texts[t]| >= 4 && Within(earlier.calls[c].texts[t], later.params[k].1.text) {
      assert ValueFrom(earlier.calls, later.params[k].1);
    }
  }

  lemma BeforeFirst(nodes: seq<Node>, p: Projection, l: nat, e: nat)
    requires forall k :: 0 <= k < |p.groups| ==> Find(nodes, p.IdOf(k)) < |nodes|
    requires l < |p.groups| && e < |p.groups|
    ensures e < Rank(Entries(nodes, p), Entries(nodes, p)[l].id) <==> forall i :: 0 <= i <= e ==> p.IdOf(i) != p.IdOf(l)
  {
    hide Find, Rank, Entries, OneNodeEach;
    EntriesAre(nodes, p);
    RankIsFirst(Entries(nodes, p), p.IdOf(l));
  }

  lemma NotTaken(wires: seq<Wire>, session: string, target: End)
    ensures Taken(Others(wires, session), target) <==>
            exists w :: w in wires && w.owner != Some(session) && w.target == target
  {
    hide Taken, Others;
    OthersAre(wires, session);
    TakenIsMember(Others(wires, session), target);
  }

  lemma FedByIsAdded(nodes: seq<Node>, wires: seq<Wire>, p: Projection, l: nat, e: nat, key: string, w: Wire)
    requires forall k :: 0 <= k < |p.groups| ==> Find(nodes, p.IdOf(k)) < |nodes|
    requires l < |p.groups| && e < |p.groups|
    ensures FedBy(nodes, wires, p, l, e, key) && IsWire(nodes, p, l, e, key, w) <==>
            && e < Rank(Entries(nodes, p), Entries(nodes, p)[l].id)
            && AddsFrom(Others(wires, p.session), p.session, Entries(nodes, p), l, e, key, w)
  {
    hide Find, Rank, Entries, OneNodeEach, Observed, CanFeed, Taken, Others;
    var entries := Entries(nodes, p);
    EntriesAre(nodes, p);
    BeforeFirst(nodes, p, l, e);
    NotTaken(wires, p.session, Socket(p.IdOf(l), key));
    forall i | 0 <= i <= e
      ensures Observed(nodes, p, l, i, key) <==> CanFeed(entries[i], entries[l], |entries[l].params|, key)
    {
      ObservedIsCanFeed(nodes, p, l, i, key);
    }
    CanFeedOutputs(nodes, p, l, e, key);
    if CanFeed(entries[e], entries[l], |entries[l].params|, key) {
      WireIs(nodes, p, l, e, key, w);
    }
  }

  lemma CanFeedOutputs(nodes: seq<Node>, p: Projection, l: nat, e: nat, key: string)
    requires forall k :: 0 <= k < |p.groups| ==> Find(nodes, p.IdOf(k)) < |nodes|
    requires l < |p.groups| && e < |p.groups|
    ensures Observed(nodes, p, l, e, key) ==> Entries(nodes, p)[e].outputs != []
  {
    hide Find, Within, Entries, OneNodeEach;
    EntriesAre(nodes, p);
  }

  lemma WireIs(nodes: seq<Node>, p: Projection, l: nat, e: nat, key: string, w: Wire)
    requires forall k :: 0 <= k < |p.groups| ==> Find(nodes, p.IdOf(k)) < |nodes|
    requires l < |p.groups| && e < |p.groups| && Entries(nodes, p)[e].outputs != []
    ensures IsWire(nodes, p, l, e, key, w) <==>
            w == Inferred(p.session, Entries(nodes, p)[e], Entries(nodes, p)[l], key)
  {
    hide Find, Entries, OneNodeEach;
    EntriesAre(nodes, p);
  }

  predicate IsOnlyWire(wires: seq<Wire>, target: End, q: nat) {
    q < |wires| && wires[q].target == target && forall o :: 0 <= o < |wires| && o != q ==> wires[o].target != target
  }

  /** Exactly one wire goes into the parameter, and it is the one from the step e. */
  ghost predicate HasOneWire(nodes: seq<Node>, wires: seq<Wire>, p: Projection, l: nat, e: nat, key: string)
    requires forall k :: 0 <= k < |p.groups| ==> Find(nodes, p.IdOf(k)) < |nodes|
  {
    && l < |p.groups| && e < |p.groups|
    && exists q: nat :: IsOnlyWire(wires, End(p.IdOf(l), "param:" + key), q) && IsWire(nodes, p, l, e, key, wires[q])
  }

  ghost predicate IsFed(nodes: seq<Node>, wires: seq<Wire>, p: Projection, w: Wire)
    requires forall k :: 0 <= k < |p.groups| ==> Find(nodes, p.IdOf(k)) < |nodes|
  {
    exists l, e, key :: FedBy(nodes, wires, p, l, e, key) && IsWire(nodes, p, l, e, key, w)
  }

  lemma FedIsAdds(nodes: seq<Node>, wires: seq<Wire>, p: Projection, w: Wire)
    requires forall k :: 0 <= k < |p.groups| ==> Find(nodes, p.IdOf(k)) < |nodes|
    ensures IsFed(nodes, wires, p, w) <==>
            Adds(Others(wires, p.session), p.session, Entries(nodes, p), |p.groups|, w)
  {
    hide Find, Rank, Entries, Observed, AddsFrom, Others, IsWire;
    var base, entries := Others(wires, p.session), Entries(nodes, p);
    if l: nat, e: nat, key :| FedBy(nodes, wires, p, l, e, key) && IsWire(nodes, p, l, e, key, w) {
      FedByIsAdded(nodes, wires, p, l, e, key, w);
      RankIsFirst(entries, entries[l].id);
      assert LaterAdds(base, p.session, entries, l, Rank(entries, entries[l].id), w);
    }
    if l: nat :| l < |p.groups| && Rank(entries, entries[l].id) <= |entries|
                 && LaterAdds(base, p.session, entries, l, Rank(entries, entries[l].id), w) {
      var key, e: nat :| e < Rank(entries, entries[l].id) && AddsFrom(base, p.session, entries, l, e, key, w);
      FedByIsAdded(nodes, wires, p, l, e, key, w);
    }
  }

  /** The wires after a projection are those that are not the session's, and exactly one into each
      parameter that an earlier step feeds, from the first such step. */
  lemma InferredExactly(nodes: seq<Node>, wires: seq<Wire>, p: Projection)
    requires forall k :: 0 <= k < |p.groups| ==> Find(nodes, p.IdOf(k)) < |nodes|
    ensures forall w :: w in ProjectedWires(nodes, wires, p) <==>
              (w in wires && w.owner != Some(p.session)) || IsFed(nodes, wires, p, w)
    ensures forall l: nat, e: nat, key :: FedBy(nodes, wires, p, l, e, key) ==>
              HasOneWire(nodes, ProjectedWires(nodes, wires, p), p, l, e, key)
  {
    hide Find, Entries, InferAll, IsFed, Adds, Others, FedBy, IsWire, Forward, OneNodeEach, IsOnlyWire;
    var base, entries, all := Others(wires, p.session), Entries(nodes, p), ProjectedWires(nodes, wires, p);
    EntriesAre(nodes, p);
    AllIs(base, p.session, entries, |p.groups|);
    OthersAre(wires, p.session);
    forall w
      ensures w in all <==> (w in wires && w.owner != Some(p.session)) || IsFed(nodes, wires, p, w)
    {
      FedIsAdds(nodes, wires, p, w);
    }
    forall l: nat, e: nat, key | FedBy(nodes, wires, p, l, e, key)
      ensures HasOneWire(nodes, all, p, l, e, key)
    {
      var w := TheWire(nodes, wires, p, l, e, key);
      assert IsFed(nodes, wires, p, w);
      var q: nat :| q < |all| && all[q] == w;
      ProjectionWires(nodes, wires, p);
      OnlyOne(base, all, p.session, entries, q);
    }
  }

  lemma TheWire(nodes: seq<Node>, wires: seq<Wire>, p: Projection, l: nat, e: nat, key: string) returns (w: Wire)
    requires forall k :: 0 <= k < |p.groups| ==> Find(nodes, p.IdOf(k)) < |nodes|
    requires FedBy(nodes, wires, p, l, e, key)
    ensures l < |p.groups| && e < |p.groups|
    ensures IsWire(nodes, p, l, e, key, w) && IsFed(nodes, wires, p, w)
    ensures w.target == End(p.IdOf(l), "param:" + key) && w.owner == Some(p.session)
  {
    hide Find;
    var outputs := nodes[Find(nodes, p.IdOf(e))].outputs;
    w := Wire("inferred-" + p.IdOf(e) + "-" + p.IdOf(l) + "-" + key,
              End(p.IdOf(e), if "path" in outputs then "path" else outputs[0]),
              End(p.IdOf(l), "param:" + key), true, Some(p.session));
    assert IsWire(nodes, p, l, e, key, w);
  }

  lemma OnlyOne(base: seq<Wire>, all: seq<Wire>, session: string, entries: seq<Entry>, q: nat)
    requires q < |all| && all[q].owner == Some(session) && Forward(base, all, session, entries)
    requires forall w :: w in base ==> w.owner != Some(session)
    ensures IsOnlyWire(all, all[q].target, q)
  {
    hide Rank;
    forall k | 0 <= k < |base|
      ensures all[k].owner != Some(session)
    {
      assert all[..|base|][k] == all[k] && base[k] in base;
    }
  }
}
