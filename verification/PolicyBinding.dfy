/** The descriptor that selects the context predicates: a relation of one version leaf and ten
    predicate leaves, its reading, and the digest that pins everything that was read. */
module PolicyBinding {
  import opened Octets
  import opened Wrappers
  import opened CellGraph
  import opened PolicyCompiler

  datatype Field = Version | Input(of: ContextField)

  const ALL: seq<Field> :=
    [Version, Input(Subject), Input(Principal), Input(Tenant), Input(Assurance), Input(Action), Input(Object),
     Input(Scope), Input(Purpose), Input(Classification), Input(Audience)]

  const COUNT: nat := 11
  const READ_BUDGET: nat := 32
  const VERSION := "archhub/authenticated-policy-context/v1"
  const PREFIX := "context-input/"

  function FieldName(f: Field): string {
    match f
    case Version => "version"
    case Input(Subject) => "subject"
    case Input(Principal) => "principal"
    case Input(Tenant) => "tenant"
    case Input(Assurance) => "assurance"
    case Input(Action) => "action"
    case Input(Object) => "object"
    case Input(Scope) => "scope"
    case Input(Purpose) => "purpose"
    case Input(Classification) => "classification"
    case Input(Audience) => "audience"
  }

  function Expected(f: Field): Bytes {
    if f == Version then Ascii(VERSION) else Ascii(PREFIX + FieldName(f))
  }

  lemma NamesTellFieldsApart(f: Field, e: Field)
    requires Ascii(FieldName(f)) == Ascii(FieldName(e))
    ensures f == e
  {
    assert |FieldName(f)| == |Ascii(FieldName(f))| == |FieldName(e)|;
    assert FieldName(f)[0] as int == Ascii(FieldName(f))[0] == FieldName(e)[0] as int;
  }

  lemma NamesAreShort(f: Field)
    ensures 0 < |FieldName(f)| <= 64 && |Expected(f)| <= 128
  {
  }

  function FindField(fields: seq<Field>, atom: Bytes): (r: Option<Field>)
    ensures r.Some? ==> r.value in fields && Ascii(FieldName(r.value)) == atom
    ensures r.None? ==> forall f :: f in fields ==> Ascii(FieldName(f)) != atom
  {
    if fields == [] then None
    else if Ascii(FieldName(fields[0])) == atom then Some(fields[0])
    else FindField(fields[1..], atom)
  }

  // ---------- a member of a descriptor ----------

  predicate Leaf(cell: Cell) {
    cell.link0 == Null && cell.link1 == Null
  }

  /** The field that a role leaf and a value leaf stand for. */
  function FieldOfCells(role: Cell, value: Cell): Option<Field> {
    if |role.atom| > 64 || |value.atom| > 128 || !Leaf(role) || !Leaf(value) then None
    else
      var found := FindField(ALL, role.atom);
      if found.Some? && value.atom == Expected(found.value) then found else None
  }

  /** A field is two leaves, the field's name and its one value, and nothing else is. */
  lemma FieldExactly(role: Cell, value: Cell, f: Field)
    ensures FieldOfCells(role, value) == Some(f) <==>
            && role.link0 == role.link1 == value.link0 == value.link1 == Null && role.atom == Ascii(FieldName(f))
            && value.atom == match f
                             case Version => Ascii("archhub/authenticated-policy-context/v1")
                             case Input(_) => Ascii("context-input/" + FieldName(f))
  {
    hide FieldName, Ascii;
    NamesAreShort(f);
    NameIsShort(f);
    var found := FindField(ALL, role.atom);
    if role.atom == Ascii(FieldName(f)) {
      if f.Input? {
        InputIsListed(f.of);
      }
      assert f in ALL by {
        assert ALL[0] == Version;
      }
      NamesTellFieldsApart(found.value, f);
    }
  }

  lemma NameIsShort(f: Field)
    ensures |Ascii(FieldName(f))| <= 64
  {
  }

  function FieldOf(g: Graph, m: Member): Option<Field> {
    if m.role !in g || m.participant !in g then None else FieldOfCells(g[m.role], g[m.participant])
  }

  predicate AllFields(g: Graph, members: seq<Member>) {
    forall k :: 0 <= k < |members| ==> FieldOf(g, members[k]).Some?
  }

  predicate FieldsApart(g: Graph, members: seq<Member>) {
    forall j, k :: 0 <= j < k < |members| ==> FieldOf(g, members[j]) != FieldOf(g, members[k])
  }

  predicate IsInput(f: Option<Field>) {
    f.Some? && f.value.Input?
  }

  /** Two predicate fields never share their leaf. */
  predicate LeavesApart(g: Graph, members: seq<Member>) {
    forall j, k :: 0 <= j < k < |members| && IsInput(FieldOf(g, members[j])) && IsInput(FieldOf(g, members[k])) ==>
                     members[j].participant != members[k].participant
  }

  predicate Descriptor(g: Graph, members: seq<Member>) {
    |members| == COUNT && AllFields(g, members) && FieldsApart(g, members) && LeavesApart(g, members)
  }

  // ---------- eleven distinct fields are all of them ----------

  ghost function SetOf<T>(s: seq<T>): set<T> {
    set k | 0 <= k < |s| :: s[k]
  }

  lemma {:induction false} DistinctCount<T>(s: seq<T>)
    requires forall j, k :: 0 <= j < k < |s| ==> s[j] != s[k]
    ensures |SetOf(s)| == |s|
  {
    if s == [] {
      assert SetOf(s) == {};
    } else {
      var n := |s| - 1;
      DistinctCount(s[..n]);
      assert SetOf(s) == SetOf(s[..n]) + {s[n]};
    }
  }

  lemma SubsetOfSameSize<T>(a: set<T>, b: set<T>)
    requires a <= b && |a| >= |b|
    ensures a == b
  {
    assert b == a + (b - a);
  }

  lemma AllAreDistinct()
    ensures |ALL| == COUNT && forall j, k :: 0 <= j < k < |ALL| ==> ALL[j] != ALL[k]
    ensures forall f: Field :: f in ALL
  {
    forall f: Field
      ensures f in ALL
    {
      match f
      case Version => assert f == ALL[0];
      case Input(of) => InputIsListed(of);
    }
  }

  lemma InputIsListed(of: ContextField)
    ensures Input(of) in ALL
  {
    var k := match of
      case Subject => 1
      case Principal => 2
      case Tenant => 3
      case Assurance => 4
      case Action => 5
      case Object => 6
      case Scope => 7
      case Purpose => 8
      case Classification => 9
      case Audience => 10;
    assert ALL[k] == Input(of);
  }

  /** The members' fields, all present. */
  ghost function FieldsOf(g: Graph, members: seq<Member>): (r: seq<Field>)
    requires AllFields(g, members)
    ensures |r| == |members| && forall k :: 0 <= k < |r| ==> FieldOf(g, members[k]) == Some(r[k])
  {
    seq(|members|, k requires 0 <= k < |members| => FieldOf(g, members[k]).value)
  }

  /** An accepted descriptor carries the version and each of the ten predicates exactly once. */
  lemma EachFieldOnce(g: Graph, members: seq<Member>, f: Field)
    requires |members| == COUNT && AllFields(g, members) && FieldsApart(g, members)
    ensures exists k :: 0 <= k < COUNT && FieldOf(g, members[k]) == Some(f)
    ensures forall j, k :: 0 <= j < COUNT && 0 <= k < COUNT && FieldOf(g, members[j]) == FieldOf(g, members[k]) ==>
              j == k
  {
    var fields := FieldsOf(g, members);
    AllAreDistinct();
    forall j, k | 0 <= j < k < COUNT
      ensures fields[j] != fields[k]
    {
      assert FieldOf(g, members[j]) != FieldOf(g, members[k]);
    }
    DistinctCount(fields);
    DistinctCount(ALL);
    assert SetOf(fields) <= SetOf(ALL);
    SubsetOfSameSize(SetOf(fields), SetOf(ALL));
    assert f in ALL && f in SetOf(ALL);
    var k :| 0 <= k < |fields| && fields[k] == f;
    assert FieldOf(g, members[k]) == Some(f);
  }

  // ---------- preparing ----------

  function RoleAt(next: nat, i: nat): Id {
    Named(next + 1 + 2 * i)
  }

  function ValueAt(next: nat, i: nat): Id {
    Named(next + 2 + 2 * i)
  }

  function LeafCells(next: nat, n: nat): seq<Cell>
    requires n <= COUNT
  {
    if n == 0 then []
    else
      LeafCells(next, n - 1)
      + [Cell(RoleAt(next, n - 1), Null, Null, Ascii(FieldName(ALL[n - 1]))),
         Cell(ValueAt(next, n - 1), Null, Null, Expected(ALL[n - 1]))]
  }

  function LeafPairs(next: nat, n: nat): (r: seq<Pair>)
    requires n <= COUNT
    ensures |r| == n && forall k :: 0 <= k < n ==> r[k] == (RoleAt(next, k), ValueAt(next, k))
  {
    if n == 0 then [] else LeafPairs(next, n - 1) + [(RoleAt(next, n - 1), ValueAt(next, n - 1))]
  }

  function Prepared(next: nat): seq<Cell> {
    LeafCells(next, COUNT) + Composed(Named(next), LeafPairs(next, COUNT))
  }

  /** A new descriptor root and the cells to commit, all under new names. */
  method PrepareBinding(next: nat) returns (root: Id, cells: seq<Cell>, last: nat)
    ensures root == Named(next) && last == next + 1 + 2 * COUNT && cells == Prepared(next)
    ensures DistinctIds(cells) && AllFrom(cells, next, last)
  {
    root, cells := Named(next), [];
    var pairs: seq<Pair> := [];
    for i := 0 to COUNT
      invariant cells == LeafCells(next, i) && pairs == LeafPairs(next, i)
    {
      var role, value := RoleAt(next, i), ValueAt(next, i);
      cells := cells + [Cell(role, Null, Null, Ascii(FieldName(ALL[i]))), Cell(value, Null, Null, Expected(ALL[i]))];
      pairs := pairs + [(role, value)];
    }
    var relation := Compose(root, pairs);
    last := next + 1 + 2 * COUNT;
    PreparedIsNew(next);
    cells := cells + relation;
  }

  lemma {:induction false} LeavesAreNew(next: nat, n: nat)
    requires n <= COUNT
    ensures DistinctIds(LeafCells(next, n)) && AllFrom(LeafCells(next, n), next + 1, next + 1 + 2 * n)
    ensures forall k :: 0 <= k < |LeafCells(next, n)| ==> LeafCells(next, n)[k].id.Named?
  {
    hide FieldName, Expected, Ascii;
    if n > 0 {
      LeavesAreNew(next, n - 1);
    }
  }

  lemma PreparedIsNew(next: nat)
    ensures DistinctIds(Prepared(next)) && AllFrom(Prepared(next), next, next + 1 + 2 * COUNT)
  {
    hide LeafCells, Composed;
    LeavesAreNew(next, COUNT);
    ComposedIsNew(Named(next), LeafPairs(next, COUNT), next, next + 1);
    var leaves, chain := LeafCells(next, COUNT), Composed(Named(next), LeafPairs(next, COUNT));
    forall k | 0 <= k < |leaves|
      ensures From(leaves[k].id, next, next + 1 + 2 * COUNT) && !From(leaves[k].id, next, next + 1)
    {
    }
    forall k | 0 <= k < |chain|
      ensures From(chain[k].id, next, next + 1 + 2 * COUNT)
    {
      WiderNames(chain[k].id, next, next + 1, next, next + 1 + 2 * COUNT);
    }
  }

  lemma {:induction false} LeafHeld(h: Graph, next: nat, n: nat, k: nat)
    requires k < n <= COUNT && Holds(h, LeafCells(next, n))
    ensures RoleAt(next, k) in h && h[RoleAt(next, k)] == Cell(RoleAt(next, k), Null, Null, Ascii(FieldName(ALL[k])))
    ensures ValueAt(next, k) in h && h[ValueAt(next, k)] == Cell(ValueAt(next, k), Null, Null, Expected(ALL[k]))
  {
    hide FieldName, Expected, Ascii;
    var cells := LeafCells(next, n);
    if k == n - 1 {
      assert cells[|cells| - 2].id == RoleAt(next, k) && cells[|cells| - 1].id == ValueAt(next, k);
    } else {
      assert cells[..|cells| - 2] == LeafCells(next, n - 1);
      LeafHeld(h, next, n - 1, k);
    }
  }

  lemma PreparedField(h: Graph, next: nat, k: nat)
    requires k < COUNT && Holds(h, LeafCells(next, COUNT))
    ensures FieldOf(h, Member(Incidence(Named(next), k), RoleAt(next, k), ValueAt(next, k))) == Some(ALL[k])
  {
    LeafHeld(h, next, COUNT, k);
    var f := ALL[k];
    NamesAreShort(f);
    AllAreDistinct();
    var found := FindField(ALL, Ascii(FieldName(f)));
    NamesTellFieldsApart(f, found.value);
  }

  /** A prepared descriptor, committed to any graph, reads back as exactly its eleven leaves. */
  lemma BindingRoundTrip(g: Graph, next: nat)
    requires GraphBelow(g, next)
    ensures var h := Install(g, Prepared(next));
            var read := ReadRelation(h, Named(next), READ_BUDGET);
            && read.Ok? && Descriptor(h, read.value)
            && forall k :: 0 <= k < COUNT ==>
               read.value[k].participant == ValueAt(next, k) && FieldOf(h, read.value[k]) == Some(ALL[k])
  {
    hide LeafCells, Composed, FieldOf, Install, ReadRelation;
    var h, pairs := Install(g, Prepared(next)), LeafPairs(next, COUNT);
    PreparedIsNew(next);
    InstallHolds(g, Prepared(next), next, next + 1 + 2 * COUNT);
    PreparedParts(h, next);
    forall k | 0 <= k < COUNT
      ensures FieldOf(h, Members(Named(next), pairs)[k]) == Some(ALL[k]) && pairs[k].0 in h && pairs[k].1 in h
    {
      PreparedField(h, next, k);
      LeafHeld(h, next, COUNT, k);
    }
    ReadComposed(h, Named(next), pairs, READ_BUDGET);
    AllAreDistinct();
  }

  lemma PreparedParts(h: Graph, next: nat)
    requires Holds(h, Prepared(next))
    ensures Holds(h, LeafCells(next, COUNT)) && Holds(h, Composed(Named(next), LeafPairs(next, COUNT)))
  {
    hide LeafCells, Composed, LeafPairs;
    HeldParts(h, LeafCells(next, COUNT), Composed(Named(next), LeafPairs(next, COUNT)));
  }

  lemma HeldParts(h: Graph, a: seq<Cell>, b: seq<Cell>)
    requires Holds(h, a + b)
    ensures Holds(h, a) && Holds(h, b)
  {
    assert forall k :: 0 <= k < |a| ==> a[k] == (a + b)[k];
    assert forall k :: 0 <= k < |b| ==> b[k] == (a + b)[|a| + k];
  }

  // ---------- the digest ----------

  /** Text of identities, a hash, and an order in which to list a set of identities. */
  datatype Fingerprint = Fingerprint(text: Id -> Bytes, hash: Bytes -> Bytes, sorted: set<Id> -> seq<Id>)
  {
    ghost predicate Faithful() {
      && (forall a, b :: text(a) == text(b) ==> a == b) && (forall s, t :: hash(s) == hash(t) ==> s == t)
      && (forall s, id :: id in sorted(s) <==> id in s)
    }
  }

  predicate Short(field: Bytes) {
    |field| < Power256(WIDTH)
  }

  function Frame(field: Bytes): Bytes {
    BigEndian(|field|, WIDTH) + field
  }

  function CellStream(cell: Cell, c: Fingerprint): Bytes {
    Frame(c.text(cell.id)) + (Frame(c.text(cell.link0)) + (Frame(c.text(cell.link1)) + Frame(cell.atom)))
  }

  function Stream(cells: seq<Cell>, c: Fingerprint): Bytes {
    if cells == [] then [] else CellStream(cells[0], c) + Stream(cells[1..], c)
  }

  predicate CellShort(cell: Cell, c: Fingerprint) {
    Short(c.text(cell.id)) && Short(c.text(cell.link0)) && Short(c.text(cell.link1)) && Short(cell.atom)
  }

  predicate CellsShort(cells: seq<Cell>, c: Fingerprint) {
    forall k :: 0 <= k < |cells| ==> CellShort(cells[k], c)
  }

  /** A framed field is told apart from what follows it. */
  lemma FrameIsDecodable(a: Bytes, b: Bytes, s: Bytes, t: Bytes)
    requires Short(a) && Short(b) && Frame(a) + s == Frame(b) + t
    ensures a == b && s == t
  {
    BigEndianRoundTrip(|a|, WIDTH);
    BigEndianRoundTrip(|b|, WIDTH);
    var x, y := BigEndian(|a|, WIDTH), BigEndian(|b|, WIDTH);
    assert x == (Frame(a) + s)[..WIDTH] && y == (Frame(b) + t)[..WIDTH];
    assert x == y && |a| == |b|;
    assert (Frame(a) + s)[WIDTH..][..|a|] == a && (Frame(b) + t)[WIDTH..][..|b|] == b;
    assert (Frame(a) + s)[WIDTH..][|a|..] == s && (Frame(b) + t)[WIDTH..][|b|..] == t;
  }

  lemma FramesNested(w: Bytes, x: Bytes, y: Bytes, z: Bytes, rest: Bytes)
    ensures (w + (x + (y + z))) + rest == w + (x + (y + (z + rest)))
  {
    assert (y + z) + rest == y + (z + rest);
    assert (x + (y + z)) + rest == x + ((y + z) + rest);
  }

  lemma CellIsDecodable(a: Cell, b: Cell, s: Bytes, t: Bytes, c: Fingerprint)
    requires c.Faithful() && CellShort(a, c) && CellShort(b, c) && CellStream(a, c) + s == CellStream(b, c) + t
    ensures a == b && s == t
  {
    hide Frame, Short;
    var a3, b3 := Frame(a.atom) + s, Frame(b.atom) + t;
    var a2, b2 := Frame(c.text(a.link1)) + a3, Frame(c.text(b.link1)) + b3;
    var a1, b1 := Frame(c.text(a.link0)) + a2, Frame(c.text(b.link0)) + b2;
    FramesNested(Frame(c.text(a.id)), Frame(c.text(a.link0)), Frame(c.text(a.link1)), Frame(a.atom), s);
    FramesNested(Frame(c.text(b.id)), Frame(c.text(b.link0)), Frame(c.text(b.link1)), Frame(b.atom), t);
    FrameIsDecodable(c.text(a.id), c.text(b.id), a1, b1);
    FrameIsDecodable(c.text(a.link0), c.text(b.link0), a2, b2);
    FrameIsDecodable(c.text(a.link1), c.text(b.link1), a3, b3);
    FrameIsDecodable(a.atom, b.atom, s, t);
  }

  /** Equal digest inputs come from equal lists of cells. */
  lemma {:induction false} StreamIsDecodable(a: seq<Cell>, b: seq<Cell>, c: Fingerprint)
    requires c.Faithful() && CellsShort(a, c) && CellsShort(b, c) && Stream(a, c) == Stream(b, c)
    ensures a == b
  {
    hide CellStream, CellShort;
    if a != [] && b != [] {
      CellIsDecodable(a[0], b[0], Stream(a[1..], c), Stream(b[1..], c), c);
      assert CellsShort(a[1..], c) && CellsShort(b[1..], c);
      StreamIsDecodable(a[1..], b[1..], c);
      assert a == [a[0]] + a[1..] && b == [b[0]] + b[1..];
    } else if a != [] {
      CellStreamNonempty(a[0], c);
    } else if b != [] {
      CellStreamNonempty(b[0], c);
    }
  }

  lemma CellStreamNonempty(cell: Cell, c: Fingerprint)
    requires CellShort(cell, c)
    ensures CellStream(cell, c) != []
  {
    BigEndianRoundTrip(|c.text(cell.id)|, WIDTH);
  }

  // ---------- reading ----------

  predicate WellKeyed(g: Graph) {
    forall id :: id in g ==> g[id].id == id
  }

  function ChainIds(g: Graph, cursor: Id, budget: nat): seq<Id>
    decreases budget
  {
    if cursor == Null || budget == 0 || cursor !in g then [] else [cursor] + ChainIds(g, g[cursor].link1, budget - 1)
  }

  /** Everything a reading looks at. */
  ghost predicate TouchedBy(g: Graph, root: Id, members: seq<Member>, touched: set<Id>) {
    && (forall id :: id in ChainIds(g, root, READ_BUDGET) ==> id in touched)
    && (forall k :: 0 <= k < |members| ==>
        members[k].incidence in touched && members[k].role in touched && members[k].participant in touched)
    && (forall id :: id in touched ==> id in g)
  }

  function CellsAt(g: Graph, ids: seq<Id>): (r: seq<Cell>)
    requires forall k :: 0 <= k < |ids| ==> ids[k] in g
    ensures |r| == |ids| && forall k :: 0 <= k < |r| ==> r[k] == g[ids[k]]
  {
    seq(|ids|, k requires 0 <= k < |ids| => g[ids[k]])
  }

  datatype Refusal = Unreadable | Incomplete | InvalidField | SharedLeaf | TooLong

  datatype Binding = Binding(root: Id, predicates: map<ContextField, Id>, digest: Bytes, touched: set<Id>)

  ghost predicate Carries(g: Graph, members: seq<Member>, k: int, f: ContextField) {
    0 <= k < |members| && FieldOf(g, members[k]) == Some(Input(f))
  }

  /** The map sends each predicate that a member carries to that member's leaf, and no other. */
  ghost predicate Selects(g: Graph, members: seq<Member>, predicates: map<ContextField, Id>) {
    && (forall k, f :: Carries(g, members, k, f) ==> f in predicates && predicates[f] == members[k].participant)
    && (forall f :: f in predicates ==> exists k :: Carries(g, members, k, f))
  }

  lemma {:induction false} ReadIsHeld(g: Graph, cursor: Id, seen: set<Id>, budget: nat)
    requires WellKeyed(g) && Walk(g, cursor, seen, budget).Ok?
    ensures var r := Walk(g, cursor, seen, budget).value;
            forall k :: 0 <= k < |r| ==> r[k].incidence in g && r[k].role in g && r[k].participant in g
    decreases budget
  {
    if cursor != Null && budget > 0 && g[cursor].link0 != Null {
      ReadIsHeld(g, g[cursor].link1, seen + {cursor}, budget - 1);
    }
  }

  lemma {:induction false} ChainIsHeld(g: Graph, cursor: Id, budget: nat)
    ensures forall id :: id in ChainIds(g, cursor, budget) ==> id in g
    decreases budget
  {
    if cursor != Null && budget > 0 && cursor in g {
      ChainIsHeld(g, g[cursor].link1, budget - 1);
    }
  }

  /** The members one by one, with the names seen and the leaves selected so far. */
  method ReadBinding(g: Graph, root: Id, c: Fingerprint) returns (r: Result<Binding, Refusal>)
    requires c.Faithful() && WellKeyed(g)
    ensures r.Ok? ==>
              && ReadRelation(g, root, READ_BUDGET).Ok? && Descriptor(g, ReadRelation(g, root, READ_BUDGET).value)
              && r.value.root == root && Selects(g, ReadRelation(g, root, READ_BUDGET).value, r.value.predicates)
              && TouchedBy(g, root, ReadRelation(g, root, READ_BUDGET).value, r.value.touched)
              && DigestOf(g, r.value.touched, c) == Some(r.value.digest)
    ensures r.Err? && r.error != TooLong ==>
              !(ReadRelation(g, root, READ_BUDGET).Ok? && Descriptor(g, ReadRelation(g, root, READ_BUDGET).value))
    ensures r == Err(TooLong) ==> exists id :: id in g && !CellShort(g[id], c)
  {
    hide FieldOf, ReadRelation, CellShort, Progress, Descriptor, AllFields, FieldsApart, LeavesApart, Selects,
      TouchedBy, DigestOf, ChainIds;
    var read := ReadRelation(g, root, READ_BUDGET);
    if read.Err? {
      return Err(Unreadable);
    }
    var members := read.value;
    if |members| != COUNT {
      CountMatters(g, members);
      return Err(Incomplete);
    }
    HeldMembers(g, root);
    var selected: map<ContextField, Id>, seen: set<Field> := map[], {};
    var touched := set id | id in ChainIds(g, root, READ_BUDGET);
    NoProgress(g, root, touched);
    assert members[..0] == [];
    for i := 0 to |members|
      invariant Progress(g, root, members[..i], seen, selected, touched)
    {
      var found := FieldOf(g, members[i]);
      if found.None? || found.value in seen {
        Repeated(g, root, members, i, seen, selected, touched);
        return Err(InvalidField);
      }
      MoreProgress(g, root, members[..i], seen, selected, touched, members[i], found.value);
      assert members[..i + 1] == members[..i] + [members[i]];
      seen := seen + {found.value};
      if found.value.Input? {
        selected := selected[found.value.of := g[members[i].participant].id];
      }
      touched := touched + {members[i].incidence, members[i].role, members[i].participant};
    }
    assert members[..|members|] == members;
    r := Finish(g, root, members, seen, selected, touched, c);
  }

  /** The final checks, and the digest of what was touched. */
  method Finish(g: Graph, root: Id, ghost members: seq<Member>, ghost seen: set<Field>,
                selected: map<ContextField, Id>, touched: set<Id>, c: Fingerprint)
    returns (r: Result<Binding, Refusal>)
    requires c.Faithful() && |members| == COUNT && Progress(g, root, members, seen, selected, touched)
    ensures r.Ok? ==>
              && Descriptor(g, members) && r.value.root == root && Selects(g, members, r.value.predicates)
              && TouchedBy(g, root, members, r.value.touched) && DigestOf(g, r.value.touched, c) == Some(r.value.digest)
    ensures r.Err? ==> r.error == SharedLeaf || r.error == TooLong
    ensures r == Err(SharedLeaf) ==> !Descriptor(g, members)
    ensures r == Err(TooLong) ==> exists id :: id in g && !CellShort(g[id], c)
  {
    hide FieldOf, CellShort, Progress, Descriptor, AllFields, FieldsApart, LeavesApart, Selects, TouchedBy, DigestOf;
    ProgressParts(g, root, members, seen, selected, touched);
    AllSelected(g, members, selected);
    if !(forall f: ContextField :: f in selected)
      || !(forall f, e :: f in selected && e in selected && f != e ==> selected[f] != selected[e]) {
      return Err(SharedLeaf);
    }
    var digest := DigestOf(g, touched, c);
    if digest.None? {
      LongCell(g, touched, c);
      return Err(TooLong);
    }
    return Ok(Binding(root, selected, digest.value, touched));
  }

  lemma CountMatters(g: Graph, members: seq<Member>)
    requires |members| != COUNT
    ensures !Descriptor(g, members)
  {
  }

  lemma HeldMembers(g: Graph, root: Id)
    requires WellKeyed(g) && ReadRelation(g, root, READ_BUDGET).Ok?
    ensures var r := ReadRelation(g, root, READ_BUDGET).value;
            forall k :: 0 <= k < |r| ==> r[k].incidence in g && r[k].role in g && r[k].participant in g
  {
    ReadIsHeld(g, root, {}, READ_BUDGET);
  }

  /** The names seen, the leaves selected and the cells touched so far. */
  ghost predicate Progress(g: Graph, root: Id, members: seq<Member>, seen: set<Field>, selected: map<ContextField, Id>,
                           touched: set<Id>) {
    && AllFields(g, members) && FieldsApart(g, members)
    && (forall f :: f in seen <==> exists k :: 0 <= k < |members| && FieldOf(g, members[k]) == Some(f))
    && Selects(g, members, selected) && TouchedBy(g, root, members, touched)
  }

  lemma NoProgress(g: Graph, root: Id, touched: set<Id>)
    requires forall id :: id in touched <==> id in ChainIds(g, root, READ_BUDGET)
    ensures Progress(g, root, [], {}, map[], touched)
  {
    ChainIsHeld(g, root, READ_BUDGET);
  }

  lemma MoreProgress(g: Graph, root: Id, members: seq<Member>, seen: set<Field>, selected: map<ContextField, Id>,
                     touched: set<Id>,
                     m: Member, f: Field)
    requires Progress(g, root, members, seen, selected, touched) && FieldOf(g, m) == Some(f) && f !in seen
    requires m.incidence in g && m.role in g && m.participant in g
    ensures Progress(g, root, members + [m], seen + {f}, if f.Input? then selected[f.of := m.participant] else selected,
                     touched + {m.incidence, m.role, m.participant})
  {
    hide FieldOf;
    var all := members + [m];
    assert forall k :: 0 <= k < |members| ==> all[k] == members[k];
    assert all[|members|] == m;
    var after := if f.Input? then selected[f.of := m.participant] else selected;
    assert forall e :: e in seen + {f} <==> exists k :: 0 <= k < |all| && FieldOf(g, all[k]) == Some(e);
    forall k, e | Carries(g, all, k, e)
      ensures e in after && after[e] == all[k].participant
    {
      if k < |members| {
        assert Carries(g, members, k, e) && Input(e) in seen;
      }
    }
    forall e | e in after
      ensures exists k :: Carries(g, all, k, e)
    {
      if f == Input(e) {
        assert Carries(g, all, |members|, e);
      } else {
        var k :| Carries(g, members, k, e);
        assert Carries(g, all, k, e);
      }
    }
  }

  lemma Repeated(g: Graph, root: Id, members: seq<Member>, i: nat, seen: set<Field>, selected: map<ContextField, Id>,
                 touched: set<Id>)
    requires i < |members| && Progress(g, root, members[..i], seen, selected, touched)
    requires FieldOf(g, members[i]).None? || FieldOf(g, members[i]).value in seen
    ensures !Descriptor(g, members)
  {
    hide FieldOf;
    if FieldOf(g, members[i]).Some? {
      var k :| 0 <= k < i && FieldOf(g, members[..i][k]) == FieldOf(g, members[i]);
      assert members[..i][k] == members[k];
    }
  }

  lemma ProgressParts(g: Graph, root: Id, members: seq<Member>, seen: set<Field>, selected: map<ContextField, Id>,
                      touched: set<Id>)
    requires Progress(g, root, members, seen, selected, touched)
    ensures AllFields(g, members) && FieldsApart(g, members) && Selects(g, members, selected)
            && TouchedBy(g, root, members, touched)
    ensures Descriptor(g, members) <==> |members| == COUNT && LeavesApart(g, members)
    ensures forall id :: id in touched ==> id in g
  {
  }

  /** With eleven distinct fields every predicate is selected, and selected leaves differ exactly
      when the members' leaves do. */
  lemma AllSelected(g: Graph, members: seq<Member>, selected: map<ContextField, Id>)
    requires |members| == COUNT && AllFields(g, members) && FieldsApart(g, members) && Selects(g, members, selected)
    ensures forall f: ContextField :: f in selected
    ensures LeavesApart(g, members) <==>
              forall f, e :: f in selected && e in selected && f != e ==> selected[f] != selected[e]
  {
    hide FieldOf;
    forall f: ContextField
      ensures f in selected
    {
      EachFieldOnce(g, members, Input(f));
      var k :| 0 <= k < COUNT && FieldOf(g, members[k]) == Some(Input(f));
      assert Carries(g, members, k, f);
    }
    if LeavesApart(g, members) {
      forall f: ContextField, e: ContextField | f != e
        ensures selected[f] != selected[e]
      {
        assert f in selected && e in selected;
        var j: int :| Carries(g, members, j, f);
        var k: int :| Carries(g, members, k, e);
        assert j != k && IsInput(FieldOf(g, members[j])) && IsInput(FieldOf(g, members[k]));
      }
    }
    if forall f, e :: f in selected && e in selected && f != e ==> selected[f] != selected[e] {
      forall j, k | 0 <= j < k < |members| && IsInput(FieldOf(g, members[j])) && IsInput(FieldOf(g, members[k]))
        ensures members[j].participant != members[k].participant
      {
        var f, e := FieldOf(g, members[j]).value.of, FieldOf(g, members[k]).value.of;
        assert Carries(g, members, j, f) && Carries(g, members, k, e);
      }
    }
  }

  lemma LongCell(g: Graph, touched: set<Id>, c: Fingerprint)
    requires c.Faithful() && (forall id :: id in touched ==> id in g) && DigestOf(g, touched, c).None?
    ensures exists id :: id in g && !CellShort(g[id], c)
  {
    hide CellShort;
  }

  // ---------- what the digest pins ----------

  lemma {:induction false} WalkOnTouched(g: Graph, h: Graph, cursor: Id, seen: set<Id>, budget: nat, touched: set<Id>)
    requires WellKeyed(g) && Walk(g, cursor, seen, budget).Ok?
    requires forall id :: id in ChainIds(g, cursor, budget) ==> id in touched
    requires var r := Walk(g, cursor, seen, budget).value;
             forall k :: 0 <= k < |r| ==>
               r[k].incidence in touched && r[k].role in touched && r[k].participant in touched
    requires forall id :: id in touched ==> id in g && id in h && h[id] == g[id]
    ensures Walk(h, cursor, seen, budget) == Walk(g, cursor, seen, budget)
    decreases budget
  {
    if cursor != Null && budget > 0 {
      var chain := g[cursor];
      assert ChainIds(g, cursor, budget)[0] == cursor;
      assert cursor in touched;
      if chain.link0 != Null {
        var r := Walk(g, cursor, seen, budget).value;
        assert r[0].incidence == chain.link0;
        assert ChainIds(g, cursor, budget)[1..] == ChainIds(g, chain.link1, budget - 1);
        assert r[1..] == Walk(g, chain.link1, seen + {cursor}, budget - 1).value;
        WalkOnTouched(g, h, chain.link1, seen + {cursor}, budget - 1, touched);
      }
    }
  }

  /** Two graphs in which the descriptor reads with the same digest agree on every cell that was
      read, and so on the descriptor: its members and the predicates it selects. */
  lemma DigestPinsBinding(g: Graph, h: Graph, root: Id, touched: set<Id>, later: set<Id>, c: Fingerprint)
    requires c.Faithful() && WellKeyed(g) && WellKeyed(h) && root in g
    requires ReadRelation(g, root, READ_BUDGET).Ok? && Descriptor(g, ReadRelation(g, root, READ_BUDGET).value)
    requires TouchedBy(g, root, ReadRelation(g, root, READ_BUDGET).value, touched)
    requires forall id :: id in later ==> id in h
    requires DigestOf(g, touched, c).Some? && DigestOf(h, later, c) == DigestOf(g, touched, c)
    ensures touched == later && forall id :: id in touched ==> id in g && id in h && h[id] == g[id]
    ensures ReadRelation(h, root, READ_BUDGET) == ReadRelation(g, root, READ_BUDGET)
    ensures forall k :: 0 <= k < COUNT ==> var m := ReadRelation(g, root, READ_BUDGET).value[k];
            FieldOf(h, m) == FieldOf(g, m)
  {
    hide CellShort, FieldOfCells;
    var a, b := c.sorted(touched), c.sorted(later);
    StreamIsDecodable(CellsAt(g, a), CellsAt(h, b), c);
    assert |a| == |CellsAt(g, a)| == |b|;
    forall k | 0 <= k < |a|
      ensures a[k] == b[k] && g[a[k]] == h[b[k]]
    {
      assert CellsAt(g, a)[k] == CellsAt(h, b)[k] && a[k] in g && b[k] in h;
    }
    assert a == b;
    assert forall id :: id in touched <==> id in a;
    assert forall id :: id in later <==> id in b;
    forall id | id in touched
      ensures id in g && id in h && h[id] == g[id]
    {
      var k :| 0 <= k < |a| && a[k] == id;
    }
    WalkOnTouched(g, h, root, {}, READ_BUDGET, touched);
    assert root == Null || root in touched by {
      assert root != Null ==> ChainIds(g, root, READ_BUDGET)[0] == root;
    }
  }

  /** The digest over the cells that were read, in order of their identities. */
  function DigestOf(g: Graph, touched: set<Id>, c: Fingerprint): Option<Bytes> {
    var ids := c.sorted(touched);
    if !(forall k :: 0 <= k < |ids| ==> ids[k] in g) then None
    else if !CellsShort(CellsAt(g, ids), c) then None
    else Some(c.hash(Stream(CellsAt(g, ids), c)))
  }
}
