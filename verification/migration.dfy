/** The statement synthesis of both migration generators. For every table
    the generated procedure skips an existing table, declares the table,
    adds one column per field except `id`, adds one index per non-primary
    index row, saves, and (in the Phinx generator only) widens the `id`
    column. A dispatcher calls the procedures in table order. The
    database's answers are inputs; statements are values rather than text. */
module Migration {
  import opened Common
  import opened OrderedMap
  import opened ArrayLiteral
  import opened PhinxTypes
  import opened LegacyTypes
  import opened TableConfig
  import opened VersionName

  /** A row of `show index`: the table it reports, the key name and the
      indexed column. */
  datatype IndexRow = IndexRow(table: string, keyName: string, column: string)

  /** What the database reports about one table: its comment (if any),
      its fields and its index rows, in order. */
  datatype TableMeta = TableMeta(comment: Option<string>, fields: seq<Field>, indexes: seq<IndexRow>)

  /** A database connection: its driver type, the names of its tables in
      order, and the metadata of every table it can describe. */
  datatype Connection = Connection(kind: string, tables: seq<string>, meta: map<string, TableMeta>)

  /** The two generators: the Phinx one and the older tools one. */
  datatype Generator = Phinx | Legacy

  datatype Stmt =
    | SkipIfExists(table: string)              // if ($this->hasTable($table)) return;
    | CreateTable(table: string, options: Options)
    | AddColumn(column: Column)
    | AddIndex(indexed: string, options: Options)
    | Save
    | WidenId                                   // changeColumn('id', 'integer', limit 20, identity)

  /** A generated private procedure creating one table. */
  datatype Procedure = Procedure(name: string, table: string, body: seq<Stmt>)

  /** A generated migration: the dispatcher's calls and the procedures. */
  datatype Document = Document(calls: seq<string>, procedures: seq<Procedure>)

  /** A generated script and the name it is saved under. */
  datatype Script = Script(file: string, className: string, document: Document)

  const Driver := "mysql"
  const Engine := "InnoDB"
  const Collation := "utf8mb4_general_ci"
  const PrimaryKey := "PRIMARY"
  const IdField := "id"

  function ColumnOf(g: Generator, f: Field): Column {
    match g
    case Phinx => MapColumn(f)
    case Legacy => LegacyColumn(f)
  }

  /** The procedure name the dispatcher calls for a table. */
  function ProcName(g: Generator, table: string): string {
    match g
    case Phinx => "_create_" + table
    case Legacy => "_" + table + "_change"
  }

  function TableOptions(comment: string): Options {
    [("engine", SStr(Engine)), ("collation", SStr(Collation)), ("comment", SStr(comment))]
  }

  /** The generated index name: `idx_<table>_<column>`, using the table the
      index row reports. */
  function IndexName(row: IndexRow): string {
    "idx_" + row.table + "_" + row.column
  }

  function IndexStmt(row: IndexRow): Stmt {
    AddIndex(row.column, [("name", SStr(IndexName(row)))])
  }

  /** One column statement per field, skipping the `id` field. */
  function ColumnStmts(g: Generator, fields: seq<Field>): (r: seq<Stmt>)
    ensures |r| <= |fields|
    ensures forall i :: 0 <= i < |r| ==> r[i].AddColumn?
  {
    var kept := Kept(fields);
    seq(|kept|, i requires 0 <= i < |kept| => AddColumn(ColumnOf(g, kept[i])))
  }

  /** The fields that get a column: all but those named `id`, in order. */
  function Kept(fields: seq<Field>): (r: seq<Field>)
    decreases |fields|
    ensures |r| <= |fields|
  {
    if |fields| == 0 then []
    else (if fields[0].name == IdField then [] else [fields[0]]) + Kept(fields[1..])
  }

  /** One index statement per index row, skipping the primary key. */
  function IndexStmts(rows: seq<IndexRow>): (r: seq<Stmt>)
    decreases |rows|
    ensures |r| <= |rows|
    ensures forall i :: 0 <= i < |r| ==> r[i].AddIndex?
  {
    if |rows| == 0 then []
    else
      (if rows[0].keyName == PrimaryKey then [] else [IndexStmt(rows[0])])
      + IndexStmts(rows[1..])
  }

  /** The body of one table's procedure. */
  function Body(g: Generator, table: string, meta: TableMeta): seq<Stmt> {
    Opening(table, meta) + ColumnStmts(g, meta.fields) + IndexStmts(meta.indexes) + Closing(g)
  }

  /** The statements that open a body: the guard and the declaration. */
  function Opening(table: string, meta: TableMeta): seq<Stmt> {
    [SkipIfExists(table), CreateTable(table, TableOptions(meta.comment.GetOr("")))]
  }

  /** The statements that end a body. */
  function Closing(g: Generator): seq<Stmt> {
    match g
    case Phinx => [Save, WidenId]
    case Legacy => [Save]
  }

  /** The first table the connection cannot describe, if any. */
  function FirstMissing(tables: seq<string>, meta: map<string, TableMeta>): (r: Option<string>)
    decreases |tables|
    ensures r.None? <==> forall t :: t in tables ==> t in meta
    ensures r.Some? ==> r.value in tables && r.value !in meta
  {
    if |tables| == 0 then None
    else if tables[0] !in meta then Some(tables[0])
    else
      assert forall t :: t in tables <==> t == tables[0] || t in tables[1..];
      FirstMissing(tables[1..], meta)
  }

  /** The document for the given tables: an error for a non-MySQL
      connection or a table the connection cannot describe. */
  function Build(g: Generator, tables: seq<string>, conn: Connection): Result<Document> {
    if conn.kind != Driver then Err(UnsupportedEngine(conn.kind))
    else match FirstMissing(tables, conn.meta)
      case Some(t) => Err(MetadataUnavailable(t))
      case None =>
        Ok(Document(
          seq(|tables|, i requires 0 <= i < |tables| => ProcName(g, tables[i])),
          seq(|tables|, i requires 0 <= i < |tables| =>
            Procedure(ProcName(g, tables[i]), tables[i], Body(g, tables[i], conn.meta[tables[i]])))))
  }

  /** The Phinx generator: the tables are resolved against the connection's
      table list and the configured ignore and backup lists. */
  function Build2Phinx(requested: seq<string>, conn: Connection, ignore: seq<string>,
                       configuredBackup: seq<string>): Result<Document>
  {
    if conn.kind != Driver then Err(UnsupportedEngine(conn.kind))
    else Build(Phinx, Resolve(requested, conn.tables, ignore, [], configuredBackup).tables, conn)
  }

  /** The older generator: a missing or empty table list means every table
      of the connection, used as is. */
  function Mysql2Phinx(requested: Option<seq<string>>, conn: Connection): Result<Document> {
    var tables := match requested
      case Some(ts) => if |ts| == 0 then conn.tables else ts
      case None => conn.tables;
    Build(Legacy, tables, conn)
  }

  /** The Phinx script: the document and its versioned file name. */
  function Create2Phinx(requested: seq<string>, className: string, conn: Connection,
                        ignore: seq<string>, configuredBackup: seq<string>,
                        existing: seq<string>, date: string, snakeClass: string): Result<Script>
  {
    match Build2Phinx(requested, conn, ignore, configuredBackup)
    case Err(e) => Err(e)
    case Ok(doc) => Ok(Script(FileName(existing, date, snakeClass), className, doc))
  }

  /** The text after the first line feed (PHP's `strpos` giving false
      counts as 0, so without a line feed the first character is dropped). */
  function DropFirstLine(s: string): string {
    match IndexFrom(s, "\n", 0)
    case Some(k) => s[k + 1..]
    case None => if |s| == 0 then "" else s[1..]
  }

  /** The class wrapper around the generated text: the text's own opening
      line is replaced by a header declaring the class. */
  function Wrap(className: string, content: string): string {
    "<?php\r\n\r\nuse think\\migration\\Migrator;\r\n\r\nclass " + className + " extends Migrator {\r\n"
    + DropFirstLine(content) + "\r\n}\r\n"
  }

  /** The options text of a generated `addColumn` or `addIndex` call. */
  function Params(es: Options): string {
    Array2StringFixed(es)
  }

  // ---------------------------------------------------------------------
  // Properties of the statement lists

  /** Column statements of a concatenation are the concatenation of the
      column statements: input order is kept. */
  lemma {:induction false} ColumnStmtsAppend(g: Generator, a: seq<Field>, b: seq<Field>)
    ensures ColumnStmts(g, a + b) == ColumnStmts(g, a) + ColumnStmts(g, b)
  {
    KeptAppend(a, b);
    var ka, kb := Kept(a), Kept(b);
    var ca, cb := ColumnStmts(g, a), ColumnStmts(g, b);
    var l := ColumnStmts(g, a + b);
    var r := ca + cb;
    assert |l| == |ka| + |kb| == |r|;
    forall i | 0 <= i < |l| ensures l[i] == r[i] {
      if i < |ka| {
        assert Kept(a + b)[i] == ka[i];
        assert r[i] == ca[i];
      } else {
        assert Kept(a + b)[i] == kb[i - |ka|];
        assert r[i] == cb[i - |ka|];
      }
    }
  }

  lemma {:induction false} KeptAppend(a: seq<Field>, b: seq<Field>)
    ensures Kept(a + b) == Kept(a) + Kept(b)
    decreases |a|
  {
    if |a| > 0 {
      assert (a + b)[0] == a[0];
      assert (a + b)[1..] == a[1..] + b;
      KeptAppend(a[1..], b);
      var h := if a[0].name == IdField then [] else [a[0]];
      assert Kept(a + b) == h + (Kept(a[1..]) + Kept(b));
      assert h + (Kept(a[1..]) + Kept(b)) == (h + Kept(a[1..])) + Kept(b);
    } else {
      assert a + b == b;
    }
  }

  lemma {:induction false} KeptExact(fields: seq<Field>, f: Field)
    ensures f in Kept(fields) <==> f in fields && f.name != IdField
    decreases |fields|
  {
    if |fields| > 0 {
      KeptExact(fields[1..], f);
      assert f in fields <==> f == fields[0] || f in fields[1..];
    }
  }

  /** A column statement is emitted exactly for each field not named `id`,
      as the generator maps it. */
  lemma ColumnStmtsExact(g: Generator, fields: seq<Field>, c: Column)
    ensures AddColumn(c) in ColumnStmts(g, fields)
        <==> exists f :: f in fields && f.name != IdField && c == ColumnOf(g, f)
  {
    var kept := Kept(fields);
    var cs := ColumnStmts(g, fields);
    if AddColumn(c) in cs {
      var i :| 0 <= i < |cs| && cs[i] == AddColumn(c);
      KeptExact(fields, kept[i]);
    }
    if exists f :: f in fields && f.name != IdField && c == ColumnOf(g, f) {
      var f :| f in fields && f.name != IdField && c == ColumnOf(g, f);
      KeptExact(fields, f);
      var i :| 0 <= i < |kept| && kept[i] == f;
      assert cs[i] == AddColumn(c);
    }
  }

  /** The `id` field is never emitted. */
  lemma NoIdColumn(g: Generator, fields: seq<Field>)
    ensures forall s :: s in ColumnStmts(g, fields) ==> s.AddColumn? && s.column.name != IdField
  {
    var kept := Kept(fields);
    var cs := ColumnStmts(g, fields);
    forall s | s in cs ensures s.AddColumn? && s.column.name != IdField {
      var i :| 0 <= i < |cs| && cs[i] == s;
      KeptExact(fields, kept[i]);
      NameKept(g, kept[i]);
    }
  }

  /** Both mappings keep the field's name. */
  lemma NameKept(g: Generator, f: Field)
    ensures ColumnOf(g, f).name == f.name
  {
  }

  /** One column statement per non-`id` field. */
  lemma {:induction false} ColumnCount(g: Generator, fields: seq<Field>)
    ensures |ColumnStmts(g, fields)| == |fields| - CountIds(fields)
    decreases |fields|
  {
    if |fields| > 0 {
      ColumnCount(g, fields[1..]);
    }
  }

  /** The number of fields named `id`. */
  function CountIds(fields: seq<Field>): (n: nat)
    decreases |fields|
    ensures n <= |fields|
  {
    if |fields| == 0 then 0 else (if fields[0].name == IdField then 1 else 0) + CountIds(fields[1..])
  }

  /** An index statement is emitted exactly for each non-primary index
      row, on that row's column and named `idx_<table>_<column>`. */
  lemma {:induction false} IndexStmtsExact(rows: seq<IndexRow>, column: string, options: Options)
    ensures AddIndex(column, options) in IndexStmts(rows)
        <==> exists r :: r in rows && r.keyName != PrimaryKey && column == r.column
                        && options == [("name", SStr("idx_" + r.table + "_" + r.column))]
    decreases |rows|
  {
    if |rows| > 0 {
      IndexStmtsExact(rows[1..], column, options);
      assert forall r :: r in rows <==> r == rows[0] || r in rows[1..];
    }
  }

  lemma {:induction false} IndexStmtsAppend(a: seq<IndexRow>, b: seq<IndexRow>)
    ensures IndexStmts(a + b) == IndexStmts(a) + IndexStmts(b)
    decreases |a|
  {
    if |a| > 0 {
      assert (a + b)[0] == a[0];
      assert (a + b)[1..] == a[1..] + b;
      IndexStmtsAppend(a[1..], b);
      var h := if a[0].keyName == PrimaryKey then [] else [IndexStmt(a[0])];
      assert IndexStmts(a + b) == h + (IndexStmts(a[1..]) + IndexStmts(b));
      assert h + (IndexStmts(a[1..]) + IndexStmts(b)) == (h + IndexStmts(a[1..])) + IndexStmts(b);
    } else {
      assert a + b == b;
    }
  }

  // ---------------------------------------------------------------------
  // Properties of a procedure body

  /** Where each group of statements sits in a body. */
  lemma BodyAt(g: Generator, table: string, meta: TableMeta, k: nat)
    ensures var cs := ColumnStmts(g, meta.fields);
      var xs := IndexStmts(meta.indexes);
      var b := Body(g, table, meta);
      && |b| == 2 + |cs| + |xs| + |Closing(g)|
      && (k < 2 ==> b[k] == Opening(table, meta)[k])
      && (2 <= k < 2 + |cs| ==> b[k] == cs[k - 2])
      && (2 + |cs| <= k < 2 + |cs| + |xs| ==> b[k] == xs[k - 2 - |cs|])
      && (2 + |cs| + |xs| <= k < |b| ==> b[k] == Closing(g)[k - 2 - |cs| - |xs|])
  {
    var p := Opening(table, meta);
    var cs := ColumnStmts(g, meta.fields);
    var xs := IndexStmts(meta.indexes);
    var b := Body(g, table, meta);
    assert b == ((p + cs) + xs) + Closing(g);
    if k < |p| + |cs| + |xs| {
      assert b[k] == ((p + cs) + xs)[k];
      if k < |p| + |cs| {
        assert ((p + cs) + xs)[k] == (p + cs)[k];
      }
    }
  }

  /** A body opens with the guard and the table declaration (engine InnoDB,
      collation utf8mb4_general_ci, the table comment or ""), and the guard
      appears nowhere else. */
  lemma BodyOpens(g: Generator, table: string, meta: TableMeta)
    ensures var b := Body(g, table, meta);
      && |b| >= 3
      && b[0] == SkipIfExists(table)
      && b[1] == CreateTable(table, [("engine", SStr("InnoDB")), ("collation", SStr("utf8mb4_general_ci")),
                                     ("comment", SStr(meta.comment.GetOr("")))])
      && forall i :: 1 <= i < |b| ==> !b[i].SkipIfExists?
  {
    var b := Body(g, table, meta);
    BodyAt(g, table, meta, 0);
    BodyAt(g, table, meta, 1);
    assert b[1] == CreateTable(table, TableOptions(meta.comment.GetOr("")));
    forall i | 1 <= i < |b| ensures !b[i].SkipIfExists? {
      BodyAt(g, table, meta, i);
    }
  }

  /** A Phinx body ends by saving and then widening `id`; a legacy body ends
      by saving and never widens `id`. */
  lemma BodyCloses(g: Generator, table: string, meta: TableMeta)
    ensures var b := Body(g, table, meta);
      match g
      case Phinx => |b| >= 4 && b[|b| - 2] == Save && b[|b| - 1] == WidenId
      case Legacy => |b| >= 3 && b[|b| - 1] == Save && WidenId !in b
  {
    var b := Body(g, table, meta);
    var n := 2 + |ColumnStmts(g, meta.fields)| + |IndexStmts(meta.indexes)|;
    BodyAt(g, table, meta, |b| - 1);
    BodyAt(g, table, meta, |b| - 2);
    match g
    case Phinx =>
      assert Closing(g) == [Save, WidenId] && |b| == n + 2;
    case Legacy =>
      assert Closing(g) == [Save] && |b| == n + 1;
      forall i | 0 <= i < |b| ensures b[i] != WidenId {
        BodyAt(g, table, meta, i);
      }
  }

  /** The statement groups appear in order: every column statement comes
      before every index statement, and both come before `save`. */
  lemma BodyOrder(g: Generator, table: string, meta: TableMeta, i: nat, j: nat)
    requires var b := Body(g, table, meta); i < |b| && j < |b|
    requires Body(g, table, meta)[i].AddIndex? && !Body(g, table, meta)[j].AddIndex?
    ensures Body(g, table, meta)[j].AddColumn? ==> j < i
    ensures Body(g, table, meta)[j] == Save ==> i < j
  {
    BodyAt(g, table, meta, i);
    BodyAt(g, table, meta, j);
  }

  // ---------------------------------------------------------------------
  // Properties of documents

  /** A connection that is not MySQL fails before anything is generated. */
  lemma NotMysql(g: Generator, tables: seq<string>, conn: Connection)
    requires conn.kind != "mysql"
    ensures Build(g, tables, conn) == Err(UnsupportedEngine(conn.kind))
  {
  }

  /** A document has one dispatcher call and one procedure per table, in
      table order, the call naming the procedure; every procedure's body is
      the table's body. A table the connection cannot describe is an error
      naming that table. */
  lemma BuildShape(g: Generator, tables: seq<string>, conn: Connection)
    requires conn.kind == "mysql"
    ensures (forall t :: t in tables ==> t in conn.meta) <==> Build(g, tables, conn).Ok?
    ensures Build(g, tables, conn).Err? ==>
      exists t :: t in tables && t !in conn.meta && Build(g, tables, conn).error == MetadataUnavailable(t)
    ensures Build(g, tables, conn).Ok? ==>
      var d := Build(g, tables, conn).value;
      && |d.calls| == |tables| && |d.procedures| == |tables|
      && forall i :: 0 <= i < |tables| ==>
           && d.calls[i] == d.procedures[i].name
           && d.procedures[i].table == tables[i]
           && d.procedures[i].body == Body(g, tables[i], conn.meta[tables[i]])
  {
  }

  /** The Phinx dispatcher calls `_create_<table>`; the legacy one calls
      `_<table>_change`. */
  lemma DispatcherNames(g: Generator, tables: seq<string>, conn: Connection, i: nat)
    requires Build(g, tables, conn).Ok? && i < |tables|
    ensures Build(g, tables, conn).value.calls[i]
         == match g case Phinx => "_create_" + tables[i] case Legacy => "_" + tables[i] + "_change"
  {
  }

  /** The Phinx generator covers exactly the resolved tables. */
  lemma PhinxTables(requested: seq<string>, conn: Connection, ignore: seq<string>,
                    configuredBackup: seq<string>)
    requires Build2Phinx(requested, conn, ignore, configuredBackup).Ok?
    ensures var d := Build2Phinx(requested, conn, ignore, configuredBackup).value;
      forall t :: (exists i :: 0 <= i < |d.procedures| && d.procedures[i].table == t) <==>
        t in (if |requested| == 0 then conn.tables else requested) && t !in ignore && t != "migrations"
  {
    var ts := Resolve(requested, conn.tables, ignore, [], configuredBackup).tables;
    ResolvedTables(requested, conn.tables, ignore, [], configuredBackup);
    var d := Build2Phinx(requested, conn, ignore, configuredBackup).value;
    forall t ensures (exists i :: 0 <= i < |d.procedures| && d.procedures[i].table == t) <==> t in ts {
      if t in ts {
        var i :| 0 <= i < |ts| && ts[i] == t;
        assert d.procedures[i].table == t;
      }
    }
  }

  /** The older generator with no table list, or an empty one, covers every
      table of the connection. */
  lemma LegacyAllTables(conn: Connection)
    ensures Mysql2Phinx(None, conn) == Build(Legacy, conn.tables, conn)
    ensures Mysql2Phinx(Some([]), conn) == Build(Legacy, conn.tables, conn)
  {
  }

  /** The file name of a Phinx script is the next versioned name. */
  lemma CreateNamesFile(requested: seq<string>, className: string, conn: Connection,
                        ignore: seq<string>, configuredBackup: seq<string>,
                        existing: seq<string>, date: string, snakeClass: string)
    requires |date| == 8
    requires |existing| > 0 ==> 0 <= SequenceOf(existing[|existing| - 1]) + 1 < 1000000
    ensures var r := Create2Phinx(requested, className, conn, ignore, configuredBackup, existing, date, snakeClass);
      && (r.Ok? <==> Build2Phinx(requested, conn, ignore, configuredBackup).Ok?)
      && (r.Ok? ==>
            && r.value.document == Build2Phinx(requested, conn, ignore, configuredBackup).value
            && r.value.file[..8] == date
            && SequenceOf(r.value.file) == (if |existing| == 0 then 1 else SequenceOf(existing[|existing| - 1]) + 1))
  {
    var name := FileName(existing, date, snakeClass);
    assert name[..8] == date;
    assert Numeric.Pow10(6) == 1000000;
    SequenceIncrements(existing, date, snakeClass);
  }

  // ---------------------------------------------------------------------
  // Properties of the text pieces

  /** The wrapper drops exactly the generated opening line `<?php`. */
  lemma WrapReplacesOpening(className: string, rest: string)
    ensures Wrap(className, "<?php\r\n" + rest)
         == "<?php\r\n\r\nuse think\\migration\\Migrator;\r\n\r\nclass " + className + " extends Migrator {\r\n"
            + rest + "\r\n}\r\n"
  {
    var s := "<?php\r\n" + rest;
    assert OccursAt(s, 6, "\n");
    forall k: nat | k < 6 ensures !OccursAt(s, k, "\n") {
      assert s[k..k + 1] == [s[k]];
    }
    assert IndexFrom(s, "\n", 0) == Some(6);
    assert s[7..] == rest;
  }

  /** Every option list the generators emit is non-empty, so its rendering
      is the short array form and agrees with the renderer as written. */
  lemma ColumnParams(g: Generator, f: Field)
    ensures Params(ColumnOf(g, f).options) == ShortArray(ColumnOf(g, f).options)
    ensures Params(ColumnOf(g, f).options) == Array2String(ColumnOf(g, f).options)
  {
    OptionsNonEmpty(g, f);
    Array2StringFixedShort(ColumnOf(g, f).options);
  }

  lemma OptionsNonEmpty(g: Generator, f: Field)
    ensures |ColumnOf(g, f).options| > 0
  {
    match g
    case Phinx => NullFlag(f);
    case Legacy => LegacyNoNull(f);
  }

  lemma IndexParams(row: IndexRow)
    ensures Params(IndexStmt(row).options) == ShortArray(IndexStmt(row).options)
    ensures Params(IndexStmt(row).options) == Array2String(IndexStmt(row).options)
  {
    Array2StringFixedShort(IndexStmt(row).options);
  }
}
