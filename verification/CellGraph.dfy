/** Cells and the relations composed of them: a relation is a chain of cells whose first link is an
    incidence (role, participant) and whose second link is the next chain cell. */
module CellGraph {
  import opened Octets
  import opened Wrappers

  /** Identities are opaque strings; those derived from a relation's root carry it. */
  datatype Id = Null | Named(n: nat) | Incidence(root: Id, index: nat) | Chain(root: Id, index: nat)

  datatype Cell = Cell(id: Id, link0: Id, link1: Id, atom: Bytes)

  type Graph = map<Id, Cell>

  datatype Member = Member(incidence: Id, role: Id, participant: Id)

  type Pair = (Id, Id)

  datatype Fault = InvalidCell | Exhausted

  // ---------- reading ----------

  function Walk(g: Graph, cursor: Id, seen: set<Id>, budget: nat): Result<seq<Member>, Fault>
    decreases budget
  {
    if cursor == Null then Ok([])
    else if budget == 0 then Err(Exhausted)
    else if cursor in seen || cursor !in g then Err(InvalidCell)
    else
      var chain := g[cursor];
      if chain.link0 == Null then
        if chain.link1 == Null then Ok([]) else Err(InvalidCell)
      else if chain.link0 !in g then Err(InvalidCell)
      else
        var incidence := g[chain.link0];
        if incidence.link0 !in g || incidence.link1 !in g then Err(InvalidCell)
        else
          var rest := Walk(g, chain.link1, seen + {cursor}, budget - 1);
          if rest.Err? then rest
          else Ok([Member(incidence.id, incidence.link0, incidence.link1)] + rest.value)
  }

  /** The members of a relation, first to last, or the reason it is not one. */
  function ReadRelation(g: Graph, root: Id, budget: nat): Result<seq<Member>, Fault> {
    if budget == 0 then Err(Exhausted)
    else if root !in g then Err(InvalidCell)
    else Walk(g, root, {}, budget)
  }

  /** The walk as it runs: a cursor, the chain cells seen, the members found. */
  method WalkRelation(g: Graph, root: Id, budget: nat) returns (r: Result<seq<Member>, Fault>)
    ensures r == ReadRelation(g, root, budget)
  {
    if budget == 0 {
      return Err(Exhausted);
    }
    if root !in g {
      return Err(InvalidCell);
    }
    var members: seq<Member>, seen, cursor, steps := [], {}, root, 0;
    assert var all := ReadRelation(g, root, budget); all.Ok? ==> members + all.value == all.value;
    while cursor != Null
      invariant steps <= budget
      invariant var rest := Walk(g, cursor, seen, budget - steps);
                ReadRelation(g, root, budget) == if rest.Err? then rest else Ok(members + rest.value)
      decreases budget - steps
    {
      steps := steps + 1;
      if steps > budget {
        return Err(Exhausted);
      }
      if cursor in seen || cursor !in g {
        return Err(InvalidCell);
      }
      var chain := g[cursor];
      if chain.link0 == Null {
        if chain.link1 != Null {
          return Err(InvalidCell);
        }
        assert members + [] == members;
        return Ok(members);
      }
      if chain.link0 !in g {
        return Err(InvalidCell);
      }
      var incidence := g[chain.link0];
      if incidence.link0 !in g || incidence.link1 !in g {
        return Err(InvalidCell);
      }
      var member := Member(incidence.id, incidence.link0, incidence.link1);
      ghost var rest := Walk(g, chain.link1, seen + {cursor}, budget - steps);
      assert rest.Ok? ==> members + ([member] + rest.value) == (members + [member]) + rest.value;
      seen := seen + {cursor};
      members := members + [member];
      cursor := chain.link1;
    }
    assert members + [] == members;
    return Ok(members);
  }

  /** A budget can only cut a walk short: two budgets that both suffice show the same relation. */
  lemma {:induction false} WalkBudget(g: Graph, cursor: Id, seen: set<Id>, a: nat, b: nat)
    requires a <= b
    ensures Walk(g, cursor, seen, a) == Err(Exhausted) || Walk(g, cursor, seen, a) == Walk(g, cursor, seen, b)
    decreases a
  {
    if cursor != Null && a > 0 && cursor !in seen && cursor in g {
      WalkBudget(g, g[cursor].link1, seen + {cursor}, a - 1, b - 1);
    }
  }

  lemma BudgetsAgree(g: Graph, root: Id, a: nat, b: nat)
    requires ReadRelation(g, root, a) != Err(Exhausted) && ReadRelation(g, root, b) != Err(Exhausted)
    ensures ReadRelation(g, root, a) == ReadRelation(g, root, b)
  {
    if root in g {
      if a <= b {
        WalkBudget(g, root, {}, a, b);
      } else {
        WalkBudget(g, root, {}, b, a);
      }
    }
  }

  /** A walk meets no chain cell twice, so that a budget above the unseen cells is never exhausted. */
  lemma {:induction false} WalkEnough(g: Graph, cursor: Id, seen: set<Id>, unseen: set<Id>, budget: nat)
    requires |unseen| < budget && forall id :: id in g ==> id in seen || id in unseen
    ensures Walk(g, cursor, seen, budget) != Err(Exhausted)
    decreases budget
  {
    if cursor in g && cursor !in seen {
      var fewer := unseen - {cursor};
      assert |fewer| == |unseen| - 1;
      WalkEnough(g, g[cursor].link1, seen + {cursor}, fewer, budget - 1);
    }
  }

  /** A budget above the number of cells never matters: every such budget gives the same reading. */
  lemma ReadEnough(g: Graph, root: Id, a: nat, b: nat)
    requires |g| < a && |g| < b
    ensures ReadRelation(g, root, a) == ReadRelation(g, root, b) != Err(Exhausted)
  {
    assert |g.Keys| == |g|;
    WalkEnough(g, root, {}, g.Keys, a);
    WalkEnough(g, root, {}, g.Keys, b);
    BudgetsAgree(g, root, a, b);
  }

  /** The later graph has every cell of the earlier one, unchanged. */
  predicate Includes(later: Graph, earlier: Graph) {
    forall id :: id in earlier ==> id in later && later[id] == earlier[id]
  }

  lemma {:induction false} WalkInLater(g: Graph, h: Graph, cursor: Id, seen: set<Id>, budget: nat)
    requires Includes(h, g) && Walk(g, cursor, seen, budget).Ok?
    ensures Walk(h, cursor, seen, budget) == Walk(g, cursor, seen, budget)
    decreases budget
  {
    if cursor != Null && budget > 0 && g[cursor].link0 != Null {
      WalkInLater(g, h, g[cursor].link1, seen + {cursor}, budget - 1);
    }
  }

  /** A relation that can be read stays as it is when cells are added. */
  lemma ReadInLater(g: Graph, h: Graph, root: Id, budget: nat)
    requires Includes(h, g) && ReadRelation(g, root, budget).Ok?
    ensures ReadRelation(h, root, budget) == ReadRelation(g, root, budget)
  {
    WalkInLater(g, h, root, {}, budget);
  }

  lemma {:induction false} WalkMembersPresent(g: Graph, cursor: Id, seen: set<Id>, budget: nat)
    requires Walk(g, cursor, seen, budget).Ok?
    ensures var r := Walk(g, cursor, seen, budget).value;
            forall k :: 0 <= k < |r| ==> r[k].role in g && r[k].participant in g
    decreases budget
  {
    if cursor != Null && budget > 0 && g[cursor].link0 != Null {
      WalkMembersPresent(g, g[cursor].link1, seen + {cursor}, budget - 1);
    }
  }

  // ---------- composing ----------

  function ChainAt(root: Id, index: nat): Id {
    if index == 0 then root else Chain(root, index)
  }

  function NextChain(root: Id, index: nat, count: nat): Id {
    if index + 1 < count then ChainAt(root, index + 1) else Null
  }

  function CellsFrom(root: Id, pairs: seq<Pair>, i: nat): seq<Cell>
    requires i <= |pairs|
    decreases |pairs| - i
  {
    if i == |pairs| then []
    else
      [Cell(Incidence(root, i), pairs[i].0, pairs[i].1, []),
       Cell(ChainAt(root, i), Incidence(root, i), NextChain(root, i, |pairs|), [])]
      + CellsFrom(root, pairs, i + 1)
  }

  /** The cells of a relation over the given role and participant pairs. */
  function Composed(root: Id, pairs: seq<Pair>): seq<Cell> {
    if pairs == [] then [Cell(root, Null, Null, [])] else CellsFrom(root, pairs, 0)
  }

  method Compose(root: Id, pairs: seq<Pair>) returns (cells: seq<Cell>)
    ensures cells == Composed(root, pairs)
    ensures pairs != [] ==> |cells| == 2 * |pairs|
  {
    if pairs == [] {
      return [Cell(root, Null, Null, [])];
    }
    cells := [];
    for i := 0 to |pairs|
      invariant cells + CellsFrom(root, pairs, i) == CellsFrom(root, pairs, 0)
      invariant |cells| == 2 * i
    {
      var (role, participant) := pairs[i];
      ghost var before := cells;
      cells := cells + [Cell(Incidence(root, i), role, participant, [])];
      var next := if i + 1 < |pairs| then ChainAt(root, i + 1) else Null;
      cells := cells + [Cell(ChainAt(root, i), Incidence(root, i), next, [])];
      assert before + CellsFrom(root, pairs, i) == cells + CellsFrom(root, pairs, i + 1);
    }
  }

  // ---------- what composing and reading have to do with each other ----------

  /** The graph holds these very cells. */
  predicate Holds(g: Graph, cells: seq<Cell>) {
    forall k :: 0 <= k < |cells| ==> cells[k].id in g && g[cells[k].id] == cells[k]
  }

  predicate Present(g: Graph, pairs: seq<Pair>) {
    forall k :: 0 <= k < |pairs| ==> pairs[k].0 in g && pairs[k].1 in g
  }

  function MembersFrom(root: Id, pairs: seq<Pair>, i: nat): (r: seq<Member>)
    requires i <= |pairs|
    ensures |r| == |pairs| - i
    ensures forall k :: 0 <= k < |r| ==> r[k] == Member(Incidence(root, i + k), pairs[i + k].0, pairs[i + k].1)
    decreases |pairs| - i
  {
    if i == |pairs| then []
    else [Member(Incidence(root, i), pairs[i].0, pairs[i].1)] + MembersFrom(root, pairs, i + 1)
  }

  function Members(root: Id, pairs: seq<Pair>): seq<Member> {
    MembersFrom(root, pairs, 0)
  }

  lemma {:induction false} CellAt(root: Id, pairs: seq<Pair>, i: nat, k: nat)
    requires i <= k < |pairs|
    ensures Cell(Incidence(root, k), pairs[k].0, pairs[k].1, []) in CellsFrom(root, pairs, i)
    ensures Cell(ChainAt(root, k), Incidence(root, k), NextChain(root, k, |pairs|), []) in CellsFrom(root, pairs, i)
    decreases |pairs| - i
  {
    if i < k {
      CellAt(root, pairs, i + 1, k);
    }
  }

  lemma CellHeld(g: Graph, root: Id, pairs: seq<Pair>, k: nat)
    requires k < |pairs| && Holds(g, Composed(root, pairs))
    ensures Incidence(root, k) in g && g[Incidence(root, k)] == Cell(Incidence(root, k), pairs[k].0, pairs[k].1, [])
    ensures ChainAt(root, k) in g
    ensures g[ChainAt(root, k)] == Cell(ChainAt(root, k), Incidence(root, k), NextChain(root, k, |pairs|), [])
  {
    CellAt(root, pairs, 0, k);
  }

  lemma {:induction false} WalkComposed(g: Graph, root: Id, pairs: seq<Pair>, i: nat, seen: set<Id>, budget: nat)
    requires root != Null && i < |pairs| && Holds(g, Composed(root, pairs))
    requires forall k :: i <= k < |pairs| ==> ChainAt(root, k) !in seen
    ensures var r := Walk(g, ChainAt(root, i), seen, budget);
            && (r.Ok? <==> |pairs| - i <= budget && Present(g, pairs[i..]))
            && (r.Ok? ==> r.value == MembersFrom(root, pairs, i))
    decreases |pairs| - i
  {
    if budget > 0 {
      CellHeld(g, root, pairs, i);
      assert pairs[i..] == [pairs[i]] + pairs[i + 1..];
      if i + 1 < |pairs| {
        WalkComposed(g, root, pairs, i + 1, seen + {ChainAt(root, i)}, budget - 1);
        assert Present(g, pairs[i..]) <==> pairs[i..][0].0 in g && pairs[i..][0].1 in g && Present(g, pairs[i + 1..]);
      }
    }
  }

  /** Wherever the cells of a composed relation are, reading it gives back its pairs, in order, as
      soon as the budget covers them and every role and participant is there; otherwise it refuses. */
  lemma ReadComposed(g: Graph, root: Id, pairs: seq<Pair>, budget: nat)
    requires root != Null && Holds(g, Composed(root, pairs))
    ensures var r := ReadRelation(g, root, budget);
            && (r.Ok? <==> 1 <= budget && |pairs| <= budget && Present(g, pairs))
            && (r.Ok? ==> r.value == Members(root, pairs))
  {
    if pairs == [] {
      assert Composed(root, pairs)[0].id in g;
    } else {
      CellHeld(g, root, pairs, 0);
      WalkComposed(g, root, pairs, 0, {}, budget);
      assert pairs[0..] == pairs;
    }
  }

  // ---------- installing new cells ----------

  /** Identities made from the first `next` new names only. */
  predicate Below(id: Id, next: nat) {
    match id
    case Null => true
    case Named(n) => n < next
    case Incidence(root, _) => Below(root, next)
    case Chain(root, _) => Below(root, next)
  }

  /** Identities made from names numbered from low to high. */
  predicate From(id: Id, low: nat, high: nat) {
    match id
    case Null => false
    case Named(n) => low <= n < high
    case Incidence(root, _) => From(root, low, high)
    case Chain(root, _) => From(root, low, high)
  }

  predicate GraphBelow(g: Graph, next: nat) {
    forall id :: id in g ==> Below(id, next)
  }

  predicate DistinctIds(cells: seq<Cell>) {
    forall i, j :: 0 <= i < j < |cells| ==> cells[i].id != cells[j].id
  }

  predicate AllFrom(cells: seq<Cell>, low: nat, high: nat) {
    forall k :: 0 <= k < |cells| ==> From(cells[k].id, low, high)
  }

  lemma {:induction id} NewIsNotOld(id: Id, low: nat, high: nat)
    requires From(id, low, high)
    ensures !Below(id, low) && Below(id, high)
  {
  }

  lemma {:induction id} DisjointNames(id: Id, a: nat, b: nat, c: nat, d: nat)
    requires From(id, a, b) && b <= c
    ensures !From(id, c, d)
  {
  }

  lemma {:induction id} WiderNames(id: Id, a: nat, b: nat, c: nat, d: nat)
    requires From(id, a, b) && c <= a && b <= d
    ensures From(id, c, d)
  {
  }

  /** New cells from a later run of names join those from an earlier one without a clash. */
  lemma JoinNew(first: seq<Cell>, more: seq<Cell>, a: nat, b: nat, c: nat)
    requires a <= b <= c
    requires DistinctIds(first) && AllFrom(first, a, b)
    requires DistinctIds(more) && AllFrom(more, b, c)
    ensures DistinctIds(first + more) && AllFrom(first + more, a, c)
  {
    forall k | 0 <= k < |first|
      ensures From(first[k].id, a, c) && !From(first[k].id, b, c)
    {
      WiderNames(first[k].id, a, b, a, c);
      DisjointNames(first[k].id, a, b, b, c);
    }
    forall k | 0 <= k < |more|
      ensures From(more[k].id, a, c)
    {
      WiderNames(more[k].id, b, c, a, c);
    }
  }

  /** The incidences and the chain cells alternate. */
  function ComposedId(root: Id, i: nat, chain: bool): Id {
    if chain then ChainAt(root, i) else Incidence(root, i)
  }

  lemma {:induction false} CellIdAt(root: Id, pairs: seq<Pair>, i: nat, k: nat)
    requires i <= |pairs| && k < |CellsFrom(root, pairs, i)|
    ensures CellsFrom(root, pairs, i)[k].id == ComposedId(root, i + k / 2, k % 2 == 1)
    decreases |pairs| - i
  {
    if k >= 2 {
      CellIdAt(root, pairs, i + 1, k - 2);
    }
  }

  lemma RootNames(root: Id, i: nat, low: nat, high: nat)
    requires From(root, low, high)
    ensures From(ComposedId(root, i, false), low, high) && From(ComposedId(root, i, true), low, high)
  {
  }

  lemma DifferentPlaces(root: Id, j: nat, k: nat)
    requires j < k
    ensures ComposedId(root, j / 2, j % 2 == 1) != ComposedId(root, k / 2, k % 2 == 1)
  {
    assert j / 2 <= k / 2 && (j % 2 == k % 2 ==> j / 2 < k / 2);
    RootIsApart(root, j / 2);
    RootIsApart(root, k / 2);
  }

  lemma {:induction false} RootIsApart(root: Id, i: nat)
    ensures Incidence(root, i) != root && Chain(root, i) != root
  {
    match root
    case Incidence(inner, _) => RootIsApart(inner, i);
    case Chain(inner, _) => RootIsApart(inner, i);
    case _ =>
  }

  lemma ComposedIsNew(root: Id, pairs: seq<Pair>, low: nat, high: nat)
    requires From(root, low, high)
    ensures DistinctIds(Composed(root, pairs)) && AllFrom(Composed(root, pairs), low, high)
  {
    hide From, CellsFrom, ComposedId;
    if pairs != [] {
      var cells := CellsFrom(root, pairs, 0);
      forall k | 0 <= k < |cells|
        ensures From(cells[k].id, low, high)
      {
        CellIdAt(root, pairs, 0, k);
        RootNames(root, k / 2, low, high);
      }
      forall j, k | 0 <= j < k < |cells|
        ensures cells[j].id != cells[k].id
      {
        CellIdAt(root, pairs, 0, j);
        CellIdAt(root, pairs, 0, k);
        DifferentPlaces(root, j, k);
      }
    }
  }

  /** A commit that creates cells. */
  function Install(g: Graph, cells: seq<Cell>): Graph {
    if cells == [] then g else Install(g, cells[..|cells| - 1])[cells[|cells| - 1].id := cells[|cells| - 1]]
  }

  /** New cells with new identities are all there after the commit, and nothing else changed. */
  lemma {:induction false} InstallHolds(g: Graph, cells: seq<Cell>, low: nat, high: nat)
    requires GraphBelow(g, low) && DistinctIds(cells) && AllFrom(cells, low, high) && low <= high
    ensures Holds(Install(g, cells), cells) && GraphBelow(Install(g, cells), high)
    ensures Includes(Install(g, cells), g)
    ensures forall id :: id in Install(g, cells) ==> id in g || exists k :: 0 <= k < |cells| && id == cells[k].id
  {
    if cells == [] {
      forall id | id in g
        ensures Below(id, high)
      {
        BelowLater(id, low, high);
      }
    } else {
      hide Holds, From, Below;
      var n := |cells| - 1;
      InstallHolds(g, cells[..n], low, high);
      NewIsNotOld(cells[n].id, low, high);
      InstallOne(Install(g, cells[..n]), cells[..n], cells[n]);
      assert cells[..n] + [cells[n]] == cells;
    }
  }

  lemma InstallOne(g: Graph, cells: seq<Cell>, c: Cell)
    requires Holds(g, cells) && forall k :: 0 <= k < |cells| ==> cells[k].id != c.id
    ensures Holds(g[c.id := c], cells + [c])
  {
    forall k | 0 <= k < |cells + [c]|
      ensures (cells + [c])[k].id in g[c.id := c] && g[c.id := c][(cells + [c])[k].id] == (cells + [c])[k]
    {
    }
  }

  /** Every link leads to a cell, or nowhere: what a commit demands. */
  predicate Linked(g: Graph, c: Cell) {
    (c.link0 == Null || c.link0 in g) && (c.link1 == Null || c.link1 in g)
  }

  ghost predicate NoDangling(g: Graph) {
    forall id :: id in g ==> Linked(g, g[id])
  }

  /** The cells of a relation link to each other, and to its roles and participants. */
  lemma {:induction false} CellsLinked(g: Graph, root: Id, pairs: seq<Pair>, i: nat)
    requires i <= |pairs| && Present(g, pairs)
    requires forall k :: 0 <= k < |pairs| ==> Incidence(root, k) in g && ChainAt(root, k) in g
    ensures forall k :: 0 <= k < |CellsFrom(root, pairs, i)| ==> Linked(g, CellsFrom(root, pairs, i)[k])
    decreases |pairs| - i
  {
    if i < |pairs| {
      CellsLinked(g, root, pairs, i + 1);
    }
  }

  lemma ComposedLinked(g: Graph, root: Id, pairs: seq<Pair>)
    requires Holds(g, Composed(root, pairs)) && Present(g, pairs)
    ensures forall k :: 0 <= k < |Composed(root, pairs)| ==> Linked(g, Composed(root, pairs)[k])
  {
    forall k | 0 <= k < |pairs|
      ensures Incidence(root, k) in g && ChainAt(root, k) in g
    {
      CellHeld(g, root, pairs, k);
    }
    CellsLinked(g, root, pairs, 0);
  }

  /** A commit of linked cells leaves no link dangling. */
  lemma InstallNoDangling(g: Graph, cells: seq<Cell>, low: nat, high: nat)
    requires GraphBelow(g, low) && DistinctIds(cells) && AllFrom(cells, low, high) && low <= high
    requires forall id :: id in g ==> Linked(Install(g, cells), g[id])
    requires forall k :: 0 <= k < |cells| ==> Linked(Install(g, cells), cells[k])
    ensures NoDangling(Install(g, cells))
  {
    hide GraphBelow, DistinctIds, AllFrom, Install;
    InstallHolds(g, cells, low, high);
  }

  lemma {:induction id} BelowLater(id: Id, low: nat, high: nat)
    requires Below(id, low) && low <= high
    ensures Below(id, high)
  {
  }
}
