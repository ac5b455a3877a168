/** The CREATE TABLE builder's base, src/Migrations/Schema.php: the builder's fields
    as one value, pushColumn() and build() as functions on it. The dialect's column
    methods are in MysqlSchema, which also holds the class with the fields. */
module Schema {
  import opened Strings

  /** PHP_EOL. */
  const EOL: string := "\n"

  /** The end of the statement; the two sentinels are substituted elsewhere. */
  const Trailer: string := ") CHARACTER SET #$CHARSET$# COLLATE #$COLLATION$#;"

  /** The builder's fields: the table being built, the last rendered statement, the
      pending column and its constraints, the last integer column name, the finished
      column entries, the table-level primary key, the foreign-key fragments and the
      index statements. */
  datatype Table = Table(
    table: string,
    query: string,
    column: string,
    columnName: string,
    columns: seq<string>,
    constraints: seq<string>,
    primaryKey: string,
    foreignKeys: seq<string>,
    indexes: seq<string>)

  /** The fields' initial values. */
  function Initial(): Table
  {
    Table("", "", "", "", [], [], "", [], [])
  }

  /** PHP's empty() on a string: true for "" and for "0". */
  predicate PhpEmpty(s: string)
  {
    s == "" || s == "0"
  }

  /** A finished column entry: the column definition, one space, and the constraints
      joined by spaces. */
  function ColumnEntry(column: string, constraints: seq<string>): string
  {
    column + " " + Implode(" ", constraints)
  }

  /** setTable(). */
  function SetTable(t: Table, table: string): Table
  {
    t.(table := table)
  }

  /** pushColumn(): a non-empty pending column becomes a finished entry; the
      constraints are cleared either way and the pending column is kept. */
  function PushColumn(t: Table): Table
  {
    t.(columns := if PhpEmpty(t.column) then t.columns else t.columns + [ColumnEntry(t.column, t.constraints)],
       constraints := [])
  }

  /** "CREATE TABLE `$table` (" followed by PHP_EOL. */
  function Header(table: string): string
  {
    "CREATE TABLE `" + table + "` (" + EOL
  }

  /** The column entries joined by "," and PHP_EOL, the primary key, the foreign-key
      fragments and PHP_EOL. */
  function Definitions(t: Table): string
  {
    Implode("," + EOL, t.columns) + t.primaryKey + Implode("", t.foreignKeys) + EOL
  }

  /** The statement build() assembles from fields whose pending column has been pushed. */
  function Statement(t: Table): string
  {
    Header(t.table) + Definitions(t) + (Trailer + Implode("", t.indexes))
  }

  /** The parts build() appends one after the other make up the statement. */
  lemma Regroup(header: string, cols: string, pk: string, fks: string, eol: string, trailer: string, idx: string)
    ensures header + cols + pk + fks + eol + trailer + idx == header + (cols + pk + fks + eol) + (trailer + idx)
  {
    var d := cols + pk + fks + eol;
    assert header + cols + pk + fks + eol == header + d;
  }

  /** build(): push the pending column, then store the statement in query. */
  function Build(t: Table): Table
  {
    var p := PushColumn(t);
    p.(query := Statement(p))
  }

  /** pushColumn() appends exactly one entry, the pending column with its constraints,
      when the pending column is not empty, and nothing otherwise; it leaves the
      constraints empty and changes no other field. */
  lemma PushColumnEffect(t: Table)
    ensures var p := PushColumn(t);
            && |p.columns| == |t.columns| + (if PhpEmpty(t.column) then 0 else 1)
            && p.columns[..|t.columns|] == t.columns
            && (!PhpEmpty(t.column) ==> p.columns[|t.columns|] == ColumnEntry(t.column, t.constraints))
            && p.constraints == []
            && p.column == t.column && p.columnName == t.columnName && p.table == t.table
            && p.query == t.query && p.primaryKey == t.primaryKey
            && p.foreignKeys == t.foreignKeys && p.indexes == t.indexes
  {
    assert PushColumn(t).columns[..|t.columns|] == t.columns;
  }

  /** setTable() changes the table name and nothing else. */
  lemma SetTableEffect(t: Table, table: string)
    ensures SetTable(t, table).table == table
    ensures SetTable(t, table).(table := t.table) == t
  {
  }

  lemma ConcatParts(a: string, b: string, c: string)
    ensures |a| <= |a + b + c| && (a + b + c)[..|a|] == a
    ensures |c| <= |a + b + c| && (a + b + c)[|a + b + c| - |c|..] == c
  {
    assert a + b + c == a + (b + c);
  }

  /** The statement starts with the CREATE TABLE header of the table. */
  lemma BuildHeader(t: Table)
    ensures var q := Build(t).query;
            |Header(t.table)| <= |q| && q[..|Header(t.table)|] == Header(t.table)
  {
    var p := PushColumn(t);
    ConcatParts(Header(p.table), Definitions(p), Trailer + Implode("", p.indexes));
  }

  /** The statement ends with the trailer followed by the index statements in order. */
  lemma BuildTrailer(t: Table)
    ensures var q := Build(t).query;
            var suffix := Trailer + Implode("", t.indexes);
            |suffix| <= |q| && q[|q| - |suffix|..] == suffix
  {
    var p := PushColumn(t);
    ConcatParts(Header(p.table), Definitions(p), Trailer + Implode("", p.indexes));
  }

  /** The entries build() renders after the header are the finished ones in push
      order, separated by "," and PHP_EOL, with the pending column last. */
  lemma BuildColumns(t: Table)
    requires !PhpEmpty(t.column)
    ensures var entry := ColumnEntry(t.column, t.constraints);
            Implode("," + EOL, Build(t).columns)
            == if |t.columns| == 0 then entry else Implode("," + EOL, t.columns) + "," + EOL + entry
  {
    ImplodeSnoc("," + EOL, t.columns, ColumnEntry(t.column, t.constraints));
  }

  lemma {:induction false} ImplodeSnocLonger(glue: string, pieces: seq<string>, x: string)
    ensures |Implode(glue, pieces + [x])| >= |Implode(glue, pieces)| + |x|
  {
    ImplodeSnoc(glue, pieces, x);
  }

  /** build() is not idempotent: the pending column is not cleared, so a second build()
      pushes it once more, without constraints, and renders a longer statement. */
  lemma BuildNotIdempotent(t: Table)
    requires !PhpEmpty(t.column)
    ensures Build(Build(t)).columns == Build(t).columns + [ColumnEntry(t.column, [])]
    ensures |Build(Build(t)).query| > |Build(t).query|
    ensures Build(Build(t)) != Build(t)
  {
    var b := Build(t);
    ImplodeSnocLonger("," + EOL, b.columns, ColumnEntry(t.column, []));
  }
}
