/** The logical identity of a closed journal: a digest over a tagged, length-prefixed stream of
    every durable row.  Two journals share an identity only if the stream is uniquely decodable,
    so the stream is proved invertible. */
module JournalIdentity {
  import opened Octets
  import opened Wrappers

  /** A value SQLite holds.  Text is its UTF-8 bytes, a float its eight big-endian bytes. */
  datatype Value =
    | Nul
    | Blob(raw: Bytes)
    | Text(utf8: Bytes)
    | Integer(n: int)
    | Real(bits: Bytes)

  datatype Column = Column(name: Bytes, kind: Bytes)

  /** One table as the queries return it: rows in primary key order. */
  datatype Table = Table(name: Bytes, columns: seq<Column>, rows: seq<seq<Value>>)

  datatype Journal = Journal(applicationId: int, userVersion: int, tables: seq<Table>)

  const ROW: Byte := 114
  const END: Byte := 101

  // ---------- numbers ----------

  function Digits(n: nat): Bytes {
    if n < 10 then [48 + n] else Digits(n / 10) + [48 + n % 10]
  }

  function FromDigits(s: Bytes): int {
    if s == [] then 0 else FromDigits(s[..|s| - 1]) * 10 + (s[|s| - 1] as int - 48)
  }

  /** str(n) in ASCII */
  function Decimal(n: int): Bytes {
    if n < 0 then [45] + Digits(-n) else Digits(n)
  }

  function FromDecimal(s: Bytes): int {
    if s != [] && s[0] == 45 then -FromDigits(s[1..]) else FromDigits(s)
  }

  lemma {:induction false} DigitsRoundTrip(n: nat)
    ensures Digits(n) != [] && 48 <= Digits(n)[0] && FromDigits(Digits(n)) == n
  {
    if n < 10 {
      assert FromDigits([]) == 0 && [48 + n][..0] == [];
    } else {
      DigitsRoundTrip(n / 10);
      var s := Digits(n);
      assert s[..|s| - 1] == Digits(n / 10);
    }
  }

  lemma DecimalRoundTrip(n: int)
    ensures FromDecimal(Decimal(n)) == n
    ensures Decimal(n)[0] == 45 <==> n < 0
  {
    DigitsRoundTrip(if n < 0 then -n else n);
    assert n < 0 ==> Decimal(n)[1..] == Digits(-n);
  }

  // ---------- one field ----------

  function Tag(v: Value): Byte {
    match v
    case Nul => 110
    case Blob(_) => 98
    case Text(_) => 115
    case Integer(_) => 105
    case Real(_) => 102
  }

  function Raw(v: Value): Bytes {
    match v
    case Nul => []
    case Blob(raw) => raw
    case Text(utf8) => utf8
    case Integer(n) => Decimal(n)
    case Real(bits) => bits
  }

  /** The length must fit the eight bytes the source gives it, and a float has eight bytes. */
  predicate Storable(v: Value) {
    |Raw(v)| < Power256(WIDTH) && (v.Real? ==> |v.bits| == 8)
  }

  function Field(v: Value): Bytes {
    [Tag(v)] + BigEndian(|Raw(v)|, WIDTH) + Raw(v)
  }

  function Interpret(tag: Byte, raw: Bytes): Option<Value> {
    if tag == 110 then Some(Nul)
    else if tag == 98 then Some(Blob(raw))
    else if tag == 115 then Some(Text(raw))
    else if tag == 105 then Some(Integer(FromDecimal(raw)))
    else if tag == 102 then Some(Real(raw))
    else None
  }

  /** Reads one field and returns what follows it. */
  function ReadField(s: Bytes): (r: Option<(Value, Bytes)>)
    ensures r.Some? ==> |r.value.1| < |s|
  {
    if |s| < 9 then None
    else
      var length := FromBigEndian(s[1..9]);
      if |s| < 9 + length then None
      else
        match Interpret(s[0], s[9..9 + length])
        case None => None
        case Some(v) => Some((v, s[9 + length..]))
  }

  lemma FrameSlices(tag: Byte, length: Bytes, raw: Bytes, rest: Bytes)
    requires |length| == 8
    ensures var s := [tag] + length + raw + rest;
            |s| >= 9 + |raw| && s[0] == tag && s[1..9] == length && s[9..9 + |raw|] == raw && s[9 + |raw|..] == rest
  {
  }

  lemma FieldRoundTrip(v: Value, rest: Bytes)
    requires Storable(v)
    ensures ReadField(Field(v) + rest) == Some((v, rest))
  {
    hide FromBigEndian, BigEndian, Decimal, FromDecimal, Power256;
    BigEndianRoundTrip(|Raw(v)|, WIDTH);
    FrameSlices(Tag(v), BigEndian(|Raw(v)|, WIDTH), Raw(v), rest);
    if v.Integer? { DecimalRoundTrip(v.n); }
  }

  // ---------- a list of fields ----------

  function Fields(vs: seq<Value>): Bytes {
    if vs == [] then [] else Field(vs[0]) + Fields(vs[1..])
  }

  /** Reads fields up to the first byte that is no field tag: a row mark or an end mark. */
  function ReadWhileFields(s: Bytes): (r: Option<(seq<Value>, Bytes)>)
    ensures r.Some? ==> |r.value.1| <= |s|
    decreases |s|
  {
    if s == [] || Interpret(s[0], []).None? then Some(([], s))
    else
      match ReadField(s)
      case None => None
      case Some((v, rest)) =>
        match ReadWhileFields(rest)
        case None => None
        case Some((vs, tail)) => Some(([v] + vs, tail))
  }

  lemma FieldStartsWithItsTag(v: Value, rest: Bytes)
    ensures Field(v) + rest != [] && Interpret((Field(v) + rest)[0], []).Some?
  {
    hide BigEndian, Decimal;
  }

  lemma {:induction false} FieldsRoundTrip(vs: seq<Value>, rest: Bytes)
    requires forall v :: v in vs ==> Storable(v)
    requires rest == [] || Interpret(rest[0], []).None?
    ensures ReadWhileFields(Fields(vs) + rest) == Some((vs, rest))
  {
    hide Field, ReadField, Storable, Interpret;
    if vs == [] {
      assert Fields(vs) + rest == rest;
    } else {
      var tail := Fields(vs[1..]) + rest;
      assert Fields(vs) + rest == Field(vs[0]) + tail;
      FieldStartsWithItsTag(vs[0], tail);
      FieldRoundTrip(vs[0], tail);
      FieldsRoundTrip(vs[1..], rest);
      assert vs == [vs[0]] + vs[1..];
    }
  }

  // ---------- the columns of a table ----------

  function ColumnFields(columns: seq<Column>): Bytes {
    if columns == [] then []
    else Field(Text(columns[0].name)) + Field(Text(columns[0].kind)) + ColumnFields(columns[1..])
  }

  function ReadColumns(count: nat, s: Bytes): (r: Option<(seq<Column>, Bytes)>)
    ensures r.Some? ==> |r.value.1| <= |s|
  {
    if count == 0 then Some(([], s))
    else
      match ReadField(s)
      case Some((Text(name), afterName)) =>
        (match ReadField(afterName)
         case Some((Text(kind), afterKind)) =>
           (match ReadColumns(count - 1, afterKind)
            case None => None
            case Some((columns, rest)) => Some(([Column(name, kind)] + columns, rest)))
         case _ => None)
      case _ => None
  }

  predicate ColumnsStorable(columns: seq<Column>) {
    forall c :: c in columns ==> Storable(Text(c.name)) && Storable(Text(c.kind))
  }

  lemma {:induction false} ColumnsRoundTrip(columns: seq<Column>, rest: Bytes)
    requires ColumnsStorable(columns)
    ensures ReadColumns(|columns|, ColumnFields(columns) + rest) == Some((columns, rest))
  {
    hide Field, ReadField, Storable;
    if columns == [] {
      assert ColumnFields(columns) + rest == rest;
    } else {
      var c := columns[0];
      var tail := ColumnFields(columns[1..]) + rest;
      assert ColumnFields(columns) + rest == Field(Text(c.name)) + (Field(Text(c.kind)) + tail);
      FieldRoundTrip(Text(c.name), Field(Text(c.kind)) + tail);
      FieldRoundTrip(Text(c.kind), tail);
      ColumnsRoundTrip(columns[1..], rest);
      assert columns == [c] + columns[1..];
    }
  }

  // ---------- the rows of a table ----------

  function MarkedRow(row: seq<Value>): Bytes {
    [ROW] + Fields(row)
  }

  function RowList(rows: seq<seq<Value>>): Bytes {
    if rows == [] then [] else MarkedRow(rows[0]) + RowList(rows[1..])
  }

  /** Reads rows up to the end mark. */
  function ReadRows(s: Bytes): (r: Option<(seq<seq<Value>>, Bytes)>)
    ensures r.Some? ==> |r.value.1| < |s|
    decreases |s|
  {
    if s == [] then None
    else if s[0] == END then Some(([], s[1..]))
    else if s[0] != ROW then None
    else
      match ReadWhileFields(s[1..])
      case None => None
      case Some((row, rest)) =>
        match ReadRows(rest)
        case None => None
        case Some((rows, tail)) => Some(([row] + rows, tail))
  }

  predicate RowsStorable(rows: seq<seq<Value>>) {
    forall i :: 0 <= i < |rows| ==> forall v :: v in rows[i] ==> Storable(v)
  }

  lemma {:induction false} RowsRoundTrip(rows: seq<seq<Value>>, rest: Bytes)
    requires RowsStorable(rows)
    ensures ReadRows(RowList(rows) + [END] + rest) == Some((rows, rest))
  {
    hide Field;
    var s := RowList(rows) + [END] + rest;
    if rows == [] {
      assert s[1..] == rest;
    } else {
      var tail := RowList(rows[1..]) + [END] + rest;
      assert s[1..] == Fields(rows[0]) + tail;
      FieldsRoundTrip(rows[0], tail) by {
        if rows[1..] == [] { assert tail[0] == END; } else { assert tail[0] == ROW; }
      }
      RowsRoundTrip(rows[1..], rest);
      assert rows == [rows[0]] + rows[1..];
    }
  }

  // ---------- tables and the whole journal ----------

  function TableStream(t: Table): Bytes {
    Field(Text(t.name)) + Field(Integer(|t.columns|)) + ColumnFields(t.columns) + (RowList(t.rows) + [END])
  }

  function TablesStream(tables: seq<Table>): Bytes {
    if tables == [] then [] else TableStream(tables[0]) + TablesStream(tables[1..])
  }

  function JournalStream(j: Journal): Bytes {
    Field(Integer(j.applicationId)) + Field(Integer(j.userVersion)) + TablesStream(j.tables)
  }

  predicate TableStorable(t: Table) {
    && Storable(Text(t.name)) && Storable(Integer(|t.columns|))
    && ColumnsStorable(t.columns) && RowsStorable(t.rows)
  }

  predicate JournalStorable(j: Journal) {
    && Storable(Integer(j.applicationId)) && Storable(Integer(j.userVersion))
    && forall t :: t in j.tables ==> TableStorable(t)
  }

  function ReadTable(s: Bytes): (r: Option<(Table, Bytes)>)
    ensures r.Some? ==> |r.value.1| < |s|
  {
    match ReadField(s)
    case Some((Text(name), afterName)) =>
      (match ReadField(afterName)
       case Some((Integer(count), afterCount)) =>
         if count < 0 then None
         else
           (match ReadColumns(count, afterCount)
            case None => None
            case Some((columns, afterColumns)) =>
              match ReadRows(afterColumns)
              case None => None
              case Some((rows, rest)) => Some((Table(name, columns, rows), rest)))
       case _ => None)
    case _ => None
  }

  function ReadTables(s: Bytes): Option<seq<Table>>
    decreases |s|
  {
    if s == [] then Some([])
    else
      match ReadTable(s)
      case None => None
      case Some((t, rest)) =>
        match ReadTables(rest)
        case None => None
        case Some(tables) => Some([t] + tables)
  }

  function ReadJournal(s: Bytes): Option<Journal> {
    match ReadField(s)
    case Some((Integer(applicationId), rest)) =>
      (match ReadField(rest)
       case Some((Integer(userVersion), tail)) =>
         (match ReadTables(tail)
          case None => None
          case Some(tables) => Some(Journal(applicationId, userVersion, tables)))
       case _ => None)
    case _ => None
  }

  lemma Reassociate(a: Bytes, b: Bytes, c: Bytes, d: Bytes, rest: Bytes)
    ensures (a + b + c + d) + rest == a + (b + (c + (d + rest)))
    ensures rest + a + b + c + d == rest + (a + b + c + d)
  {
  }

  lemma TableRoundTrip(t: Table, rest: Bytes)
    requires TableStorable(t)
    ensures ReadTable(TableStream(t) + rest) == Some((t, rest))
  {
    hide Field, ReadField;
    var name, count, columns, rows :=
      Field(Text(t.name)), Field(Integer(|t.columns|)), ColumnFields(t.columns), RowList(t.rows) + [END];
    Reassociate(name, count, columns, rows, rest);
    FieldRoundTrip(Text(t.name), count + (columns + (rows + rest)));
    FieldRoundTrip(Integer(|t.columns|), columns + (rows + rest));
    ColumnsRoundTrip(t.columns, rows + rest);
    RowsRoundTrip(t.rows, rest);
  }

  lemma {:induction false} TablesRoundTrip(tables: seq<Table>)
    requires forall t :: t in tables ==> TableStorable(t)
    ensures ReadTables(TablesStream(tables)) == Some(tables)
  {
    hide TableStream, ReadTable;
    if tables != [] {
      TableRoundTrip(tables[0], TablesStream(tables[1..]));
      TablesRoundTrip(tables[1..]);
      assert tables == [tables[0]] + tables[1..];
    }
  }

  /** A decoder inverts the stream, so nothing that is written into it can be mistaken. */
  lemma JournalRoundTrip(j: Journal)
    requires JournalStorable(j)
    ensures ReadJournal(JournalStream(j)) == Some(j)
  {
    hide Field;
    var tail := TablesStream(j.tables);
    var rest := Field(Integer(j.userVersion)) + tail;
    assert JournalStream(j) == Field(Integer(j.applicationId)) + rest;
    FieldRoundTrip(Integer(j.applicationId), rest);
    FieldRoundTrip(Integer(j.userVersion), tail);
    TablesRoundTrip(j.tables);
  }

  /** Equal streams come from equal journals: ids, table names, columns, row order and value kinds. */
  lemma EqualStreamsEqualJournals(a: Journal, b: Journal)
    requires JournalStorable(a) && JournalStorable(b)
    requires JournalStream(a) == JournalStream(b)
    ensures a == b
  {
    JournalRoundTrip(a);
    JournalRoundTrip(b);
  }

  // ---------- the source's loops ----------

  predicate HasTable(tables: seq<Table>, name: string) {
    exists i :: 0 <= i < |tables| && tables[i].name == Ascii(name)
  }

  predicate IsCellJournal(j: Journal) {
    HasTable(j.tables, "revisions") && HasTable(j.tables, "cell_versions") && HasTable(j.tables, "current_cells")
  }

  lemma {:induction false} FieldsAppend(vs: seq<Value>, v: Value)
    ensures Fields(vs + [v]) == Fields(vs) + Field(v)
  {
    hide Field;
    if vs == [] {
      assert Fields([v]) == Field(v) + Fields([]);
    } else {
      FieldsAppend(vs[1..], v);
      assert (vs + [v])[1..] == vs[1..] + [v];
    }
  }

  lemma {:induction false} ColumnFieldsAppend(cs: seq<Column>, c: Column)
    ensures ColumnFields(cs + [c]) == ColumnFields(cs) + Field(Text(c.name)) + Field(Text(c.kind))
  {
    hide Field;
    if cs == [] {
      assert ColumnFields([c]) == Field(Text(c.name)) + Field(Text(c.kind)) + ColumnFields([]);
    } else {
      ColumnFieldsAppend(cs[1..], c);
      assert (cs + [c])[1..] == cs[1..] + [c];
    }
  }

  lemma {:induction false} RowListAppend(rows: seq<seq<Value>>, row: seq<Value>)
    ensures RowList(rows + [row]) == RowList(rows) + MarkedRow(row)
  {
    hide MarkedRow;
    if rows == [] {
      assert RowList([row]) == MarkedRow(row) + RowList([]);
    } else {
      RowListAppend(rows[1..], row);
      assert (rows + [row])[1..] == rows[1..] + [row];
    }
  }

  lemma {:induction false} TablesAppend(tables: seq<Table>, t: Table)
    ensures TablesStream(tables + [t]) == TablesStream(tables) + TableStream(t)
  {
    hide TableStream;
    if tables == [] {
      assert TablesStream([t]) == TableStream(t) + TablesStream([]);
    } else {
      TablesAppend(tables[1..], t);
      assert (tables + [t])[1..] == tables[1..] + [t];
    }
  }

  /** Everything the digest is fed, in order, or None for a database that is no cell journal. */
  method ClosedJournalIdentity(j: Journal) returns (digest: Option<Bytes>)
    ensures digest == if IsCellJournal(j) then Some(JournalStream(j)) else None
  {
    hide Field, TableStream;
    if !IsCellJournal(j) {
      return None;
    }
    var fed := Field(Integer(j.applicationId));
    fed := fed + Field(Integer(j.userVersion));
    ghost var header := fed;
    for i := 0 to |j.tables|
      invariant fed == header + TablesStream(j.tables[..i])
    {
      var t := j.tables[i];
      fed := FeedTable(fed, t);
      TablesAppend(j.tables[..i], t);
      assert j.tables[..i + 1] == j.tables[..i] + [t];
    }
    assert j.tables[..|j.tables|] == j.tables;
    digest := Some(fed);
  }

  method FeedTable(before: Bytes, t: Table) returns (fed: Bytes)
    ensures fed == before + TableStream(t)
  {
    hide Field;
    fed := before + Field(Text(t.name));
    fed := fed + Field(Integer(|t.columns|));
    fed := FeedColumns(fed, t.columns);
    fed := FeedRows(fed, t.rows);
    fed := fed + [END];
    Reassociate(Field(Text(t.name)), Field(Integer(|t.columns|)), ColumnFields(t.columns),
                RowList(t.rows) + [END], before);
  }

  method FeedColumns(before: Bytes, columns: seq<Column>) returns (fed: Bytes)
    ensures fed == before + ColumnFields(columns)
  {
    hide Field;
    fed := before;
    for c := 0 to |columns|
      invariant fed == before + ColumnFields(columns[..c])
    {
      ColumnFieldsAppend(columns[..c], columns[c]);
      assert columns[..c + 1] == columns[..c] + [columns[c]];
      fed := fed + Field(Text(columns[c].name));
      fed := fed + Field(Text(columns[c].kind));
    }
    assert columns[..|columns|] == columns;
  }

  method FeedRows(before: Bytes, rows: seq<seq<Value>>) returns (fed: Bytes)
    ensures fed == before + RowList(rows)
  {
    hide MarkedRow;
    fed := before;
    for r := 0 to |rows|
      invariant fed == before + RowList(rows[..r])
    {
      RowListAppend(rows[..r], rows[r]);
      assert rows[..r + 1] == rows[..r] + [rows[r]];
      fed := FeedRow(fed, rows[r]);
    }
    assert rows[..|rows|] == rows;
  }

  method FeedRow(before: Bytes, row: seq<Value>) returns (fed: Bytes)
    ensures fed == before + MarkedRow(row)
  {
    hide Field;
    fed := before + [ROW];
    for k := 0 to |row|
      invariant fed == before + [ROW] + Fields(row[..k])
    {
      FieldsAppend(row[..k], row[k]);
      assert row[..k + 1] == row[..k] + [row[k]];
      fed := fed + Field(row[k]);
    }
    assert row[..|row|] == row;
  }
}
