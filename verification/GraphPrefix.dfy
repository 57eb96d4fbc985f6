/** Admission of a recovered graph journal: its canonical history must be a prefix of the live
    owner's, and its derived index of current cells must be the head of that prefix. */
module GraphPrefix {
  import opened Octets
  import opened Wrappers
  import Order = PrefixRanges

  datatype Revision = Revision(number: nat, committedAt: real)

  /** A row of cell_versions, and equally a row of current_cells. */
  datatype CellRow = CellRow(revision: nat, cell: string, link0: string, link1: string, atom: Bytes)

  /** An object of the schema, with its normalized definition. */
  datatype SchemaObject = SchemaObject(kind: string, table: string, sql: string)

  type Schema = map<string, SchemaObject>

  /** The three tables, the first two in the order of their primary keys, and the schema by name. */
  datatype Database = Database(
    schema: Schema, revisions: seq<Revision>, versions: seq<CellRow>, current: seq<CellRow>)

  /** The shapes an owner moves between: the page objects that may come and go with embedded history,
      whether they are the owner's own, and the known definitions of the tombstone table. */
  datatype Shapes = Shapes(pages: set<string>, ownPages: Schema -> bool, tombstones: set<string>)

  const SCHEMA_LIMIT: nat := 128

  predicate Before(a: CellRow, b: CellRow) {
    a.revision < b.revision || (a.revision == b.revision && Order.Less(a.cell, b.cell))
  }

  /** The primary keys hold: revision numbers, (revision, cell) pairs and indexed cells are unique. */
  ghost predicate Keyed(db: Database) {
    && (forall i, j :: 0 <= i < j < |db.revisions| ==> db.revisions[i].number < db.revisions[j].number)
    && InOrder(db.versions)
    && (forall i, j :: 0 <= i < j < |db.current| ==> db.current[i].cell != db.current[j].cell)
  }

  ghost predicate InOrder(versions: seq<CellRow>) {
    forall i, j :: 0 <= i < j < |versions| ==> Before(versions[i], versions[j])
  }

  // ---------- the queries ----------

  /** WHERE revision <= ? ORDER BY revision */
  function RevisionsUpTo(revisions: seq<Revision>, limit: nat): seq<Revision> {
    if revisions == [] then []
    else (if revisions[0].number <= limit then [revisions[0]] else []) + RevisionsUpTo(revisions[1..], limit)
  }

  /** WHERE revision <= ? ORDER BY revision, cell_id */
  function VersionsUpTo(versions: seq<CellRow>, limit: nat): seq<CellRow> {
    if versions == [] then []
    else (if versions[0].revision <= limit then [versions[0]] else []) + VersionsUpTo(versions[1..], limit)
  }

  /** SELECT MAX(revision) FROM revisions */
  function MaxRevision(revisions: seq<Revision>): Option<nat> {
    if revisions == [] then None
    else
      match MaxRevision(revisions[1..])
      case None => Some(revisions[0].number)
      case Some(m) => Some(if m < revisions[0].number then revisions[0].number else m)
  }

  /** Some version of the same cell has a greater revision. */
  predicate Superseded(versions: seq<CellRow>, row: CellRow) {
    exists i :: 0 <= i < |versions| && versions[i].cell == row.cell && versions[i].revision > row.revision
  }

  /** The first inspection: an index row that is no version, or not the newest one. */
  predicate HasForgedHead(db: Database) {
    exists i :: 0 <= i < |db.current| && (db.current[i] !in db.versions || Superseded(db.versions, db.current[i]))
  }

  predicate Indexed(db: Database, cell: string) {
    exists i :: 0 <= i < |db.current| && db.current[i].cell == cell
  }

  /** The second inspection: the newest version of a cell that the index does not hold. */
  predicate HasMissingHead(db: Database) {
    exists i :: 0 <= i < |db.versions| && !Indexed(db, db.versions[i].cell) && !Superseded(db.versions, db.versions[i])
  }

  /** PRAGMA foreign_key_check: every row's revision is recorded. */
  predicate ForeignKeysHold(db: Database) {
    && (forall i :: 0 <= i < |db.versions| ==> Recorded(db.revisions, db.versions[i].revision))
    && (forall i :: 0 <= i < |db.current| ==> Recorded(db.revisions, db.current[i].revision))
  }

  predicate Recorded(revisions: seq<Revision>, number: nat) {
    exists i :: 0 <= i < |revisions| && revisions[i].number == number
  }

  // ---------- the schema ----------

  predicate SameShape(shapes: Shapes, name: string, expected: SchemaObject, actual: SchemaObject) {
    && (expected.kind, expected.table) == (actual.kind, actual.table)
    && (expected.sql == actual.sql
        || (name == "message_tombstones" && {expected.sql, actual.sql} <= shapes.tombstones))
  }

  /** Objects that may be on one side only. */
  function MayDiffer(shapes: Shapes, source: Schema): set<string> {
    if "history_identity" in source then shapes.pages else {}
  }

  predicate PagesAreOwn(shapes: Shapes, source: Schema, schema: Schema) {
    "history_identity" in source && "conversation_pages" in schema ==> shapes.ownPages(schema)
  }

  predicate SchemaAccepted(shapes: Shapes, source: Schema, copied: Schema) {
    && PagesAreOwn(shapes, source, source) && PagesAreOwn(shapes, source, copied)
    && |source| <= SCHEMA_LIMIT && |copied| <= SCHEMA_LIMIT
    && (forall name :: name in copied ==>
          if name in source then SameShape(shapes, name, source[name], copied[name])
          else name in MayDiffer(shapes, source))
    && source.Keys - copied.Keys <= MayDiffer(shapes, source)
  }

  /** What a schema has under a name, if anything. */
  function At(schema: Schema, name: string): Option<SchemaObject> {
    if name in schema then Some(schema[name]) else None
  }

  /** Two schemas may differ in two ways: a tombstone table in two of its known texts, and, beside embedded
      history, a page object that one side lacks. */
  predicate Tolerated(shapes: Shapes, embedded: bool, name: string, a: Option<SchemaObject>, b: Option<SchemaObject>) {
    || (name == "message_tombstones" && a.Some? && b.Some? && a.value.sql in shapes.tombstones
        && b.value.sql in shapes.tombstones && a.value == b.value.(sql := a.value.sql))
    || (embedded && name in shapes.pages && (a.None? || b.None?))
  }

  /** A schema is accepted exactly when every difference from the owner's is tolerated. */
  lemma AcceptedExactly(shapes: Shapes, source: Schema, copied: Schema)
    ensures SchemaAccepted(shapes, source, copied) <==>
            && |source| <= 128 && |copied| <= 128
            && (forall name :: At(source, name) != At(copied, name) ==>
                  Tolerated(shapes, "history_identity" in source, name, At(source, name), At(copied, name)))
            && ("history_identity" in source ==>
                  && (At(source, "conversation_pages").Some? ==> shapes.ownPages(source))
                  && (At(copied, "conversation_pages").Some? ==> shapes.ownPages(copied)))
  {
    hide SameShape, Tolerated;
    var embedded := "history_identity" in source;
    forall name
      ensures name in source && name in copied ==>
                (SameShape(shapes, name, source[name], copied[name]) <==>
                 source[name] == copied[name] || Tolerated(shapes, embedded, name, At(source, name), At(copied, name)))
      ensures (name in source) != (name in copied) ==>
                (Tolerated(shapes, embedded, name, At(source, name), At(copied, name)) <==>
                 name in MayDiffer(shapes, source))
    {
      ToleratedAt(shapes, source, copied, name);
    }
    if SchemaAccepted(shapes, source, copied) {
      forall name | name in source && name !in copied
        ensures name in MayDiffer(shapes, source)
      {
        assert name in source.Keys - copied.Keys;
      }
    }
  }

  lemma ToleratedAt(shapes: Shapes, source: Schema, copied: Schema, name: string)
    ensures name in source && name in copied ==>
              (SameShape(shapes, name, source[name], copied[name]) <==>
               || source[name] == copied[name]
               || Tolerated(shapes, "history_identity" in source, name, At(source, name), At(copied, name)))
    ensures (name in source) != (name in copied) ==>
              (Tolerated(shapes, "history_identity" in source, name, At(source, name), At(copied, name)) <==>
               name in MayDiffer(shapes, source))
  {
  }

  /** Without embedded history, and outside the tombstone table, an accepted schema is the owner's. */
  lemma PlainSchemaIsEqual(shapes: Shapes, source: Schema, copied: Schema)
    requires SchemaAccepted(shapes, source, copied)
    requires "history_identity" !in source && "message_tombstones" !in source
    ensures copied == source
  {
    assert forall name :: name in source ==> name in copied || name in source.Keys - copied.Keys;
    assert source.Keys == copied.Keys;
  }

  // ---------- the admission ----------

  /** Streams both cursors together and stops at the first difference or the first missing row. */
  method EqualRows<T(==)>(expected: seq<T>, actual: seq<T>) returns (equal: bool)
    ensures equal <==> expected == actual
  {
    var i := 0;
    while i < |expected| || i < |actual|
      invariant 0 <= i <= |expected| && i <= |actual|
      invariant expected[..i] == actual[..i]
      decreases |expected| + |actual| - i
    {
      if i >= |expected| || i >= |actual| || expected[i] != actual[i] {
        return false;
      }
      i := i + 1;
    }
    assert expected == expected[..i] && actual == actual[..i];
    return true;
  }

  /** What the restore verifier compares. */
  ghost predicate Compared(shapes: Shapes, source: Database, copied: Database, revision: nat) {
    && SchemaAccepted(shapes, source.schema, copied.schema)
    && MaxRevision(copied.revisions) == Some(revision)
    && RevisionsUpTo(source.revisions, revision) == RevisionsUpTo(copied.revisions, revision)
    && VersionsUpTo(source.versions, revision) == VersionsUpTo(copied.versions, revision)
    && !HasForgedHead(copied)
    && !HasMissingHead(copied)
  }

  /** What the restore verifier and the staged file check together demand of a copied graph. */
  ghost predicate Admitted(shapes: Shapes, source: Database, copied: Database, revision: nat) {
    Compared(shapes, source, copied, revision) && ForeignKeysHold(copied)
  }

  method AdmitGraph(shapes: Shapes, source: Database, copied: Database, revision: nat) returns (admitted: bool)
    ensures admitted <==> Admitted(shapes, source, copied, revision)
  {
    if MaxRevision(copied.revisions) != Some(revision) || !SchemaAccepted(shapes, source.schema, copied.schema) {
      return false;
    }
    var same := EqualRows(RevisionsUpTo(source.revisions, revision), RevisionsUpTo(copied.revisions, revision));
    if !same {
      return false;
    }
    same := EqualRows(VersionsUpTo(source.versions, revision), VersionsUpTo(copied.versions, revision));
    if !same || HasForgedHead(copied) || HasMissingHead(copied) {
      return false;
    }
    return ForeignKeysHold(copied);
  }

  // ---------- what the index should be ----------

  /** The owner's index after it upserted every version in commit order. */
  function Replay(versions: seq<CellRow>): map<string, CellRow> {
    if versions == [] then map[]
    else
      var last := versions[|versions| - 1];
      Replay(versions[..|versions| - 1])[last.cell := last]
  }

  /** The copied index says about every cell exactly what a replay of the history says. */
  ghost predicate Truthful(current: seq<CellRow>, replayed: map<string, CellRow>) {
    forall row: CellRow :: row in current <==> (row.cell in replayed && replayed[row.cell] == row)
  }

  // ---------- lemmas about prefixes and replay ----------

  lemma {:induction false} RevisionsAllUpTo(revisions: seq<Revision>, limit: nat)
    requires MaxRevision(revisions).None? || MaxRevision(revisions).value <= limit
    ensures RevisionsUpTo(revisions, limit) == revisions
    ensures forall i :: 0 <= i < |revisions| ==> revisions[i].number <= limit
  {
    if revisions != [] {
      RevisionsAllUpTo(revisions[1..], limit);
      assert forall i :: 1 <= i < |revisions| ==> revisions[i] == revisions[1..][i - 1];
    }
  }

  lemma {:induction false} VersionsAllUpTo(versions: seq<CellRow>, limit: nat)
    requires forall i :: 0 <= i < |versions| ==> versions[i].revision <= limit
    ensures VersionsUpTo(versions, limit) == versions
  {
    if versions != [] { VersionsAllUpTo(versions[1..], limit); }
  }

  lemma {:induction false} VersionsUpToBounded(versions: seq<CellRow>, limit: nat)
    ensures forall row :: row in VersionsUpTo(versions, limit) <==> row in versions && row.revision <= limit
  {
    if versions != [] {
      VersionsUpToBounded(versions[1..], limit);
      assert versions == [versions[0]] + versions[1..];
    }
  }

  /** A replay holds, for each cell, its one version that nothing supersedes. */
  lemma {:induction false} ReplayHoldsTheNewest(versions: seq<CellRow>)
    requires InOrder(versions)
    ensures forall cell :: cell in Replay(versions) <==> (exists i :: 0 <= i < |versions| && versions[i].cell == cell)
    ensures forall cell :: cell in Replay(versions) ==>
              var row := Replay(versions)[cell];
              row.cell == cell && row in versions && !Superseded(versions, row)
  {
    if versions != [] {
      var n := |versions| - 1;
      var earlier, last := versions[..n], versions[n];
      ReplayHoldsTheNewest(earlier);
      assert forall i :: 0 <= i < n ==> earlier[i] == versions[i];
      forall cell | cell in Replay(versions)
        ensures var row := Replay(versions)[cell]; row.cell == cell && row in versions && !Superseded(versions, row)
      {
        var row := Replay(versions)[cell];
        if cell == last.cell {
          forall i | 0 <= i < |versions| && versions[i].cell == cell
            ensures versions[i].revision <= row.revision
          {
            if i < n { assert Before(versions[i], versions[n]); }
          }
        } else {
          assert cell in Replay(earlier) && row == Replay(earlier)[cell];
          forall i | 0 <= i < |versions| && versions[i].cell == row.cell
            ensures versions[i].revision <= row.revision
          {
            assert i != n;
            assert earlier[i] == versions[i];
          }
        }
      }
    }
  }

  /** Of the versions of one cell, only one is not superseded. */
  lemma NewestIsUnique(versions: seq<CellRow>, a: CellRow, b: CellRow)
    requires InOrder(versions) && a in versions && b in versions && a.cell == b.cell
    requires !Superseded(versions, a) && !Superseded(versions, b)
    ensures a == b
  {
    var i :| 0 <= i < |versions| && versions[i] == a;
    var j :| 0 <= j < |versions| && versions[j] == b;
    Order.LessIrreflexive(a.cell);
    assert a.revision == b.revision;
    assert !Before(versions[i], versions[j]) && !Before(versions[j], versions[i]);
  }

  // ---------- the theorem ----------

  lemma HistoryIsThePrefix(shapes: Shapes, source: Database, copied: Database, revision: nat)
    requires Admitted(shapes, source, copied, revision)
    ensures copied.revisions == RevisionsUpTo(source.revisions, revision)
    ensures copied.versions == VersionsUpTo(source.versions, revision)
  {
    RevisionsAllUpTo(copied.revisions, revision);
    forall i | 0 <= i < |copied.versions|
      ensures copied.versions[i].revision <= revision
    {
      assert Recorded(copied.revisions, copied.versions[i].revision);
    }
    VersionsAllUpTo(copied.versions, revision);
  }

  lemma CleanIndexIsTheReplay(db: Database)
    requires InOrder(db.versions)
    requires !HasForgedHead(db) && !HasMissingHead(db)
    ensures Truthful(db.current, Replay(db.versions))
  {
    var replayed := Replay(db.versions);
    ReplayHoldsTheNewest(db.versions);
    forall row | row in db.current
      ensures row.cell in replayed && replayed[row.cell] == row
    {
      var i :| 0 <= i < |db.current| && db.current[i] == row;
      assert row in db.versions && !Superseded(db.versions, row);
      var k :| 0 <= k < |db.versions| && db.versions[k] == row;
      assert db.versions[k].cell == row.cell;
      NewestIsUnique(db.versions, row, replayed[row.cell]);
    }
    forall row: CellRow | row.cell in replayed && replayed[row.cell] == row
      ensures row in db.current
    {
      var k :| 0 <= k < |db.versions| && db.versions[k] == row;
      assert Indexed(db, db.versions[k].cell);
      var i :| 0 <= i < |db.current| && db.current[i].cell == row.cell;
      assert db.current[i] in db.versions && !Superseded(db.versions, db.current[i]);
      NewestIsUnique(db.versions, row, db.current[i]);
    }
  }

  /** An admitted copy holds, for every cell, exactly the live owner's last write at or before the
      recorded revision, and nothing else. */
  lemma AdmittedIndexIsTruthful(shapes: Shapes, source: Database, copied: Database, revision: nat)
    requires Keyed(source) && Keyed(copied)
    requires Admitted(shapes, source, copied, revision)
    ensures Truthful(copied.current, Replay(VersionsUpTo(source.versions, revision)))
    ensures |copied.current| == |Replay(VersionsUpTo(source.versions, revision))|
  {
    HistoryIsThePrefix(shapes, source, copied, revision);
    CleanIndexIsTheReplay(copied);
    ReplayHoldsTheNewest(copied.versions);
    IndexSize(copied.current, Replay(copied.versions));
  }

  function IndexedCells(current: seq<CellRow>): set<string> {
    set i | 0 <= i < |current| :: current[i].cell
  }

  lemma {:induction false} DistinctCells(current: seq<CellRow>)
    requires forall i, j :: 0 <= i < j < |current| ==> current[i].cell != current[j].cell
    ensures |IndexedCells(current)| == |current|
  {
    if current != [] {
      var n := |current| - 1;
      DistinctCells(current[..n]);
      assert IndexedCells(current) == IndexedCells(current[..n]) + {current[n].cell};
    }
  }

  /** Rows with distinct cells are as many as the cells they index. */
  lemma IndexSize(current: seq<CellRow>, replayed: map<string, CellRow>)
    requires forall i, j :: 0 <= i < j < |current| ==> current[i].cell != current[j].cell
    requires Truthful(current, replayed)
    requires forall cell :: cell in replayed ==> replayed[cell].cell == cell
    ensures |current| == |replayed|
  {
    DistinctCells(current);
    assert forall i :: 0 <= i < |current| ==> current[i] in current;
    assert forall cell :: cell in replayed ==> replayed[cell] in current;
    assert IndexedCells(current) == replayed.Keys;
  }

  /** A replayed index passes both inspections. */
  lemma ReplayedIndexIsClean(db: Database)
    requires InOrder(db.versions)
    requires Truthful(db.current, Replay(db.versions))
    ensures !HasForgedHead(db) && !HasMissingHead(db)
  {
    ReplayHoldsTheNewest(db.versions);
    forall i | 0 <= i < |db.current|
      ensures db.current[i] in db.versions && !Superseded(db.versions, db.current[i])
    {
      assert db.current[i] in db.current;
    }
    forall i | 0 <= i < |db.versions|
      ensures Indexed(db, db.versions[i].cell)
    {
      var row := Replay(db.versions)[db.versions[i].cell];
      assert row in db.current;
    }
  }

  lemma PrefixKeysHold(source: Database, copied: Database, revision: nat)
    requires ForeignKeysHold(source)
    requires copied.revisions == RevisionsUpTo(source.revisions, revision)
    requires copied.versions == VersionsUpTo(source.versions, revision)
    requires forall row :: row in copied.current ==> row in copied.versions
    ensures ForeignKeysHold(copied)
  {
    RevisionsUpToBounded(source.revisions, revision);
    VersionsUpToBounded(source.versions, revision);
    forall row | row in copied.versions
      ensures Recorded(copied.revisions, row.revision)
    {
      var k :| 0 <= k < |source.versions| && source.versions[k] == row;
      assert Recorded(source.revisions, source.versions[k].revision);
    }
  }

  /** Nothing truthful is refused: a copy of a retained prefix with its replayed index is admitted. */
  lemma TruthfulCopyIsAdmitted(shapes: Shapes, source: Database, copied: Database, revision: nat)
    requires Keyed(source) && ForeignKeysHold(source) && SchemaAccepted(shapes, source.schema, copied.schema)
    requires Recorded(source.revisions, revision)
    requires copied.revisions == RevisionsUpTo(source.revisions, revision)
    requires copied.versions == VersionsUpTo(source.versions, revision)
    requires Truthful(copied.current, Replay(copied.versions))
    ensures Admitted(shapes, source, copied, revision)
  {
    RevisionsUpToBounded(source.revisions, revision);
    MaxOfPrefix(copied.revisions, revision);
    RevisionsAllUpTo(copied.revisions, revision);
    VersionsUpToBounded(source.versions, revision);
    assert forall i :: 0 <= i < |copied.versions| ==> copied.versions[i] in copied.versions;
    VersionsAllUpTo(copied.versions, revision);
    PrefixInOrder(source.versions, revision);
    ReplayedIndexIsClean(copied);
    ReplayHoldsTheNewest(copied.versions);
    PrefixKeysHold(source, copied, revision);
  }

  lemma {:induction false} RevisionsUpToBounded(revisions: seq<Revision>, limit: nat)
    ensures forall n: nat :: Recorded(RevisionsUpTo(revisions, limit), n) <==> Recorded(revisions, n) && n <= limit
  {
    if revisions != [] {
      RevisionsUpToBounded(revisions[1..], limit);
      var kept := RevisionsUpTo(revisions, limit);
      forall n: nat
        ensures Recorded(kept, n) <==> Recorded(revisions, n) && n <= limit
      {
        if revisions[0].number <= limit {
          assert kept[1..] == RevisionsUpTo(revisions[1..], limit);
          RecordedSplit(kept, n);
        } else {
          assert kept == RevisionsUpTo(revisions[1..], limit);
        }
        RecordedSplit(revisions, n);
      }
    }
  }

  lemma RecordedSplit(revisions: seq<Revision>, n: nat)
    requires revisions != []
    ensures Recorded(revisions, n) <==> revisions[0].number == n || Recorded(revisions[1..], n)
  {
    if Recorded(revisions[1..], n) {
      var i :| 0 <= i < |revisions[1..]| && revisions[1..][i].number == n;
      assert revisions[i + 1].number == n;
    }
    if Recorded(revisions, n) && revisions[0].number != n {
      var i :| 0 <= i < |revisions| && revisions[i].number == n;
      assert revisions[1..][i - 1].number == n;
    }
  }

  lemma {:induction false} MaxOfPrefix(revisions: seq<Revision>, limit: nat)
    requires forall n: nat :: Recorded(revisions, n) ==> n <= limit
    ensures MaxRevision(revisions).Some? ==> MaxRevision(revisions).value <= limit
    ensures Recorded(revisions, limit) ==> MaxRevision(revisions) == Some(limit)
  {
    if revisions != [] {
      forall n: nat | Recorded(revisions[1..], n) ensures n <= limit { RecordedSplit(revisions, n); }
      MaxOfPrefix(revisions[1..], limit);
      RecordedSplit(revisions, limit);
      assert revisions[0].number <= limit by { assert Recorded(revisions, revisions[0].number); }
    }
  }

  lemma {:induction false} PrefixInOrder(versions: seq<CellRow>, limit: nat)
    requires InOrder(versions)
    ensures InOrder(VersionsUpTo(versions, limit))
  {
    if versions != [] {
      PrefixInOrder(versions[1..], limit);
      VersionsUpToBounded(versions[1..], limit);
      var rest := VersionsUpTo(versions[1..], limit);
      forall j | 0 <= j < |rest|
        ensures Before(versions[0], rest[j])
      {
        assert rest[j] in versions[1..];
        var k :| 0 <= k < |versions[1..]| && versions[1..][k] == rest[j];
        assert versions[k + 1] == rest[j];
      }
    }
  }

  /** An index that replays a version above the revision is not that of a history up to it. */
  lemma LateVersionShows(versions: seq<CellRow>, prefix: seq<CellRow>, current: seq<CellRow>, revision: nat, i: nat)
    requires InOrder(versions) && InOrder(prefix) && Truthful(current, Replay(versions))
    requires i < |versions| && versions[i].revision > revision
    requires forall row :: row in prefix ==> row.revision <= revision
    ensures !Truthful(current, Replay(prefix))
  {
    ReplayHoldsTheNewest(versions);
    ReplayHoldsTheNewest(prefix);
    var newest := Replay(versions)[versions[i].cell];
    assert newest.revision > revision;
    assert newest in current && newest !in prefix;
  }

  /** The comparisons alone make the index truthful exactly when no copied version lies above the
      recorded revision; the foreign key check of the staged file is what rules those out. */
  lemma ComparedIsTruthfulExactly(shapes: Shapes, source: Database, copied: Database, revision: nat)
    requires Keyed(source) && Keyed(copied) && Compared(shapes, source, copied, revision)
    ensures Truthful(copied.current, Replay(VersionsUpTo(source.versions, revision)))
            <==> forall i :: 0 <= i < |copied.versions| ==> copied.versions[i].revision <= revision
  {
    hide SchemaAccepted, RevisionsUpTo;
    var prefix := VersionsUpTo(source.versions, revision);
    CleanIndexIsTheReplay(copied);
    ReplayHoldsTheNewest(copied.versions);
    PrefixInOrder(source.versions, revision);
    ReplayHoldsTheNewest(prefix);
    VersionsUpToBounded(source.versions, revision);
    if forall i :: 0 <= i < |copied.versions| ==> copied.versions[i].revision <= revision {
      VersionsAllUpTo(copied.versions, revision);
    } else {
      var i: nat :| i < |copied.versions| && copied.versions[i].revision > revision;
      LateVersionShows(copied.versions, prefix, copied.current, revision, i);
    }
  }

  /** Without the staged file's foreign key check a version above every recorded revision, and an
      index row pointing at it, pass all the other comparisons. */
  lemma ForgedFutureRow(shapes: Shapes)
    ensures exists source: Database, copied: Database ::
              && Keyed(source) && Keyed(copied)
              && Compared(shapes, source, copied, 1) && !ForeignKeysHold(copied)
              && !Truthful(copied.current, Replay(VersionsUpTo(source.versions, 1)))
  {
    hide Replay, Truthful;
    var real1 := CellRow(1, "a", "0", "0", []);
    var forged := CellRow(2, "a", "0", "0", [7]);
    var recorded := [Revision(1, 0.0)];
    var source := Database(map[], recorded, [real1], [real1]);
    var copied := Database(map[], recorded, [real1, forged], [forged]);
    assert recorded[1..] == [];
    assert copied.versions[1..] == [forged] && [forged][1..] == [] && source.versions[1..] == [];
    assert VersionsUpTo([forged], 1) == [];
    assert VersionsUpTo(copied.versions, 1) == [real1] == VersionsUpTo(source.versions, 1);
    assert copied.versions[1] == forged;
    assert !Superseded(copied.versions, forged) && Superseded(copied.versions, real1);
    assert Indexed(copied, "a") by { assert copied.current[0].cell == "a"; }
    assert Compared(shapes, source, copied, 1);
    ComparedIsTruthfulExactly(shapes, source, copied, 1);
  }
}
