/** The transport remembers the ids of the requests it accepted in a bounded window and denies
    a request whose id is still inside it. */
module ReplayWindow {

  type RequestId = string

  const WINDOW: nat := 4096

  ghost predicate Distinct(s: seq<RequestId>) {
    forall i, j :: 0 <= i < j < |s| ==> s[i] != s[j]
  }

  // ---------- what a run of requests means ----------

  /** The most recent WINDOW entries of a list. */
  function Recent(accepted: seq<RequestId>): seq<RequestId> {
    if |accepted| <= WINDOW then accepted else accepted[|accepted| - WINDOW..]
  }

  /** All ids accepted over a run, oldest first, when exactly the recent ones are denied. */
  function Accepted(requests: seq<RequestId>): seq<RequestId> {
    if requests == [] then []
    else
      var before := Accepted(requests[..|requests| - 1]);
      var id := requests[|requests| - 1];
      if id in Recent(before) then before else before + [id]
  }

  lemma PushToRecent(past: seq<RequestId>, id: RequestId)
    ensures var full := Recent(past) + [id];
            Recent(past + [id]) == if |full| > WINDOW then full[1..] else full
  {
  }

  lemma PushKeepsDistinct(s: seq<RequestId>, id: RequestId)
    requires Distinct(s) && id !in s
    ensures Distinct(s + [id])
    ensures forall x :: x in s + [id] <==> x in s || x == id
  {
  }

  lemma PopKeepsDistinct(s: seq<RequestId>)
    requires Distinct(s) && s != []
    ensures Distinct(s[1..])
    ensures forall x :: x in s[1..] <==> x in s && x != s[0]
  {
    assert s == [s[0]] + s[1..];
    assert forall i :: 0 <= i < |s[1..]| ==> s[1..][i] == s[i + 1];
  }

  // ---------- the object ----------

  class Transport {
    var seen: set<RequestId>
    var order: seq<RequestId>
    /** Every id accepted since construction. */
    ghost var accepted: seq<RequestId>

    ghost predicate Valid()
      reads this
    {
      && Distinct(order)
      && (forall id :: id in seen <==> id in order)
      && order == Recent(accepted)
    }

    constructor ()
      ensures Valid() && accepted == []
    {
      seen, order, accepted := {}, [], [];
    }

    /** Denied exactly when the id is among the last WINDOW accepted ids; otherwise it joins them. */
    method Remember(id: RequestId) returns (denied: bool)
      requires Valid()
      modifies this
      ensures Valid()
      ensures denied <==> id in Recent(old(accepted))
      ensures accepted == if denied then old(accepted) else old(accepted) + [id]
      ensures denied ==> order == old(order) && seen == old(seen)
    {
      if id in seen {
        return true;
      }
      denied := false;
      ghost var full := order + [id];
      PushKeepsDistinct(order, id);
      seen := seen + {id};
      order := order + [id];
      accepted := accepted + [id];
      while |order| > WINDOW
        invariant Distinct(order) && forall x :: x in seen <==> x in order
        invariant accepted == old(accepted) + [id]
        invariant order == full || (order == full[1..] && |full| == WINDOW + 1)
      {
        PopKeepsDistinct(order);
        var expired := order[0];
        order := order[1..];
        seen := seen - {expired};
      }
      PushToRecent(old(accepted), id);
    }

    /** A whole run of requests leaves exactly the window of what it accepted. */
    method Serve(requests: seq<RequestId>)
      requires Valid() && accepted == []
      modifies this
      ensures Valid() && accepted == Accepted(requests) && order == Recent(Accepted(requests))
    {
      for i := 0 to |requests|
        invariant Valid() && accepted == Accepted(requests[..i])
      {
        assert requests[..i + 1][..i] == requests[..i];
        var denied := Remember(requests[i]);
      }
      assert requests[..|requests|] == requests;
    }
  }

  // ---------- safety over whole runs ----------

  lemma StillRecent(past: seq<RequestId>, id: RequestId)
    ensures id in Recent(past) <==> (exists k :: 0 <= k < |past| && past[k] == id && |past| - k <= WINDOW)
  {
    var recent := Recent(past);
    var gone := |past| - |recent|;
    if id in recent {
      var k :| 0 <= k < |recent| && recent[k] == id;
      assert past[k + gone] == id;
    }
    if k :| 0 <= k < |past| && past[k] == id && |past| - k <= WINDOW {
      assert recent[k - gone] == id;
    }
  }

  /** Two acceptances of one id have at least WINDOW other acceptances between them. */
  lemma {:induction false} NoReplayInsideTheWindow(requests: seq<RequestId>, i: nat, j: nat)
    requires i < j < |Accepted(requests)|
    requires Accepted(requests)[i] == Accepted(requests)[j]
    ensures j - i > WINDOW
  {
    var last := |requests| - 1;
    var before := Accepted(requests[..last]);
    if j < |before| {
      NoReplayInsideTheWindow(requests[..last], i, j);
    } else {
      assert Accepted(requests) == before + [requests[last]];
      StillRecent(before, requests[last]);
    }
  }

  /** A run accepts its next request if and only if the id was never accepted, or WINDOW ids were
      accepted after its last acceptance. */
  lemma {:induction false} AcceptedAgainExactlyAfterTheWindow(requests: seq<RequestId>, id: RequestId)
    ensures var past := Accepted(requests);
            |Accepted(requests + [id])| == |past| + 1
            <==> (forall k :: 0 <= k < |past| && past[k] == id ==> |past| - k > WINDOW)
  {
    var past := Accepted(requests);
    assert (requests + [id])[..|requests|] == requests;
    StillRecent(past, id);
  }
}
