/** The MySQL dialect of the CREATE TABLE builder, src/Migrations/MysqlSchema.php:
    its column methods as functions on Schema.Table, the sequences of calls a
    migration makes, and the builder class whose methods update the fields in place. */
module MysqlSchema {
  import opened Strings
  import opened Schema

  /** The text nullable() removes. */
  const NotNull: string := " NOT NULL"

  /** "`$column`" */
  function Quoted(column: string): string
  {
    "`" + column + "`"
  }

  /** "VARCHAR($length)" */
  function VarcharType(length: int): string
  {
    "VARCHAR(" + IntToString(length) + ")"
  }

  /** "INT($size)" */
  function IntType(size: int): string
  {
    "INT(" + IntToString(size) + ")"
  }

  /** "`$column` VARCHAR($length) NOT NULL" */
  function VarcharDefinition(column: string, length: int): string
  {
    Quoted(column) + " " + VarcharType(length) + NotNull
  }

  /** "`$column` INT($size) NOT NULL" */
  function IntDefinition(column: string, size: int): string
  {
    Quoted(column) + " " + IntType(size) + NotNull
  }

  /** "DEFAULT '$value'", the value inserted as it is. */
  function DefaultConstraint(value: string): string
  {
    "DEFAULT '" + value + "'"
  }

  /** "," PHP_EOL "FOREIGN KEY ($columnName) REFERENCES $refTable($refColumn)" */
  function ForeignFragment(columnName: string, refTable: string, refColumn: string): string
  {
    "," + EOL + "FOREIGN KEY (" + columnName + ") REFERENCES " + refTable + "(" + refColumn + ")"
  }

  /** One call of the dialect's public column methods. */
  datatype Op =
    | StringOp(name: string, length: int)
    | IntegerOp(name: string, size: int)
    | NullableOp
    | UniqueOp
    | PrimaryOp
    | ForeignOp(refTable: string, refColumn: string)
    | CheckOp
    | DefaultOp(value: string)
    | IndexOp
    | UnsignedOp
    | AutoIncrementOp

  /** What one call does to the fields. string() and integer() push the pending column
      first; nullable() str_replaces " NOT NULL" away; check() and index() have empty
      bodies. */
  function Apply(t: Table, op: Op): Table
  {
    match op
    case StringOp(c, len) => PushColumn(t).(column := VarcharDefinition(c, len))
    case IntegerOp(c, size) => PushColumn(t).(column := IntDefinition(c, size), columnName := c)
    case NullableOp => t.(column := ReplaceAll(t.column, NotNull, ""))
    case UniqueOp => t.(constraints := t.constraints + ["UNIQUE"])
    case PrimaryOp => t.(constraints := t.constraints + ["PRIMARY KEY"])
    case ForeignOp(rt, rc) => t.(foreignKeys := t.foreignKeys + [ForeignFragment(t.columnName, rt, rc)])
    case CheckOp => t
    case DefaultOp(v) => t.(constraints := t.constraints + [DefaultConstraint(v)])
    case IndexOp => t
    case UnsignedOp => t.(constraints := t.constraints + ["UNSIGNED"])
    case AutoIncrementOp => t.(constraints := t.constraints + ["AUTO INCREMENT"])
  }

  /** A migration's calls, in order. */
  function Run(t: Table, ops: seq<Op>): Table
    decreases |ops|
  {
    if |ops| == 0 then t else Run(Apply(t, ops[0]), ops[1..])
  }

  /** The name of the last integer() call, or the given name when there is none. */
  function LastIntegerName(ops: seq<Op>, before: string): string
    decreases |ops|
  {
    if |ops| == 0 then before
    else if ops[|ops| - 1].IntegerOp? then ops[|ops| - 1].name
    else LastIntegerName(ops[..|ops| - 1], before)
  }

  /** string() and integer() push the previous pending column, start the new column
      definition with no constraints, and leave the table, the primary key, the
      foreign keys and the indexes alone; only integer() records the column name. */
  lemma ColumnTypeEffect(t: Table, op: Op)
    requires op.StringOp? || op.IntegerOp?
    ensures var r := Apply(t, op);
            && r.columns == PushColumn(t).columns
            && r.constraints == []
            && r.column == (if op.StringOp? then VarcharDefinition(op.name, op.length) else IntDefinition(op.name, op.size))
            && r.columnName == (if op.IntegerOp? then op.name else t.columnName)
            && r.table == t.table && r.query == t.query && r.primaryKey == t.primaryKey
            && r.foreignKeys == t.foreignKeys && r.indexes == t.indexes
  {
  }

  /** unique(), primary(), default(), unsigned() and autoIncrement() each append their
      own fragment after the earlier constraints and change nothing else. */
  lemma ConstraintEffect(t: Table, value: string)
    ensures Apply(t, UniqueOp) == t.(constraints := t.constraints + ["UNIQUE"])
    ensures Apply(t, PrimaryOp) == t.(constraints := t.constraints + ["PRIMARY KEY"])
    ensures Apply(t, DefaultOp(value)) == t.(constraints := t.constraints + ["DEFAULT '" + value + "'"])
    ensures Apply(t, UnsignedOp) == t.(constraints := t.constraints + ["UNSIGNED"])
    ensures Apply(t, AutoIncrementOp) == t.(constraints := t.constraints + ["AUTO INCREMENT"])
  {
  }

  /** foreign() appends one fragment naming the last integer column and the referenced
      table and column; the constraints and the entries stay as they were. */
  lemma ForeignEffect(t: Table, refTable: string, refColumn: string)
    ensures var r := Apply(t, ForeignOp(refTable, refColumn));
            && r.foreignKeys == t.foreignKeys + [ForeignFragment(t.columnName, refTable, refColumn)]
            && r == t.(foreignKeys := r.foreignKeys)
  {
  }

  /** check() and index() change no field. */
  lemma CheckIndexEffect(t: Table)
    ensures Apply(t, CheckOp) == t && Apply(t, IndexOp) == t
  {
  }

  lemma {:induction false} RunSnoc(t: Table, ops: seq<Op>, op: Op)
    ensures Run(t, ops + [op]) == Apply(Run(t, ops), op)
    decreases |ops|
  {
    if |ops| == 0 {
      assert [op][1..] == [];
    } else {
      assert (ops + [op])[1..] == ops[1..] + [op];
      RunSnoc(Apply(t, ops[0]), ops[1..], op);
    }
  }

  /** After any calls, the recorded column name is that of the last integer() call, or
      the one recorded before when there was none: string() does not record its name. */
  lemma {:induction false} RunColumnName(t: Table, ops: seq<Op>)
    ensures Run(t, ops).columnName == LastIntegerName(ops, t.columnName)
    decreases |ops|
  {
    if |ops| > 0 {
      var n := |ops| - 1;
      assert ops == ops[..n] + [ops[n]];
      RunSnoc(t, ops[..n], ops[n]);
      RunColumnName(t, ops[..n]);
    }
  }

  /** A foreign() call references the most recent integer column of the migration, or
      the empty name when no integer() came before it. */
  lemma ForeignReferencesLastInteger(ops: seq<Op>, refTable: string, refColumn: string)
    ensures Run(Initial(), ops + [ForeignOp(refTable, refColumn)]).foreignKeys
            == Run(Initial(), ops).foreignKeys + [ForeignFragment(LastIntegerName(ops, ""), refTable, refColumn)]
  {
    RunSnoc(Initial(), ops, ForeignOp(refTable, refColumn));
    RunColumnName(Initial(), ops);
  }

  /** No call touches the table name, the stored statement, the primary key or the
      indexes; in particular primary() is inline only and never sets the primary key. */
  lemma {:induction false} RunKeepsTableFields(t: Table, ops: seq<Op>)
    ensures var r := Run(t, ops);
            r.table == t.table && r.query == t.query && r.primaryKey == t.primaryKey && r.indexes == t.indexes
    decreases |ops|
  {
    if |ops| > 0 {
      RunKeepsTableFields(Apply(t, ops[0]), ops[1..]);
    }
  }

  /** So a migration built from scratch renders no table-level primary key: the
      entries are followed directly by the foreign keys. */
  lemma PrimaryKeyStaysEmpty(ops: seq<Op>)
    ensures Build(Run(Initial(), ops)).primaryKey == ""
  {
    RunKeepsTableFields(Initial(), ops);
  }

  /** The whole search string is replaced. */
  lemma ReplaceAllSelf(search: string, replace: string)
    requires |search| > 0
    ensures ReplaceAll(search, search, replace) == replace
  {
    assert search[..|search|] == search && search[|search|..] == "";
    assert replace + "" == replace;
  }

  /** Text that differs from the search string at some index does not start an
      occurrence, so its first character is copied. */
  lemma ReplaceAllMismatch(s: string, search: string, replace: string, k: nat)
    requires |s| > 0 && k < |search|
    requires k < |s| ==> s[k] != search[k]
    ensures ReplaceAll(s, search, replace) == [s[0]] + ReplaceAll(s[1..], search, replace)
  {
    if |s| < |search| {
      assert ReplaceAll(s[1..], search, replace) == s[1..];
      assert [s[0]] + s[1..] == s;
    } else {
      assert s[..|search|][k] == s[k];
    }
  }

  /** Removing a search string " S..." from "x y" followed by it, where neither x nor y
      holds a space and y does not start with S, leaves "x y". */
  lemma StripSuffix(x: string, y: string, search: string)
    requires |search| >= 2 && search[0] == ' ' && ' ' !in x && ' ' !in y && |y| > 0 && y[0] != search[1]
    ensures ReplaceAll(x + " " + y + search, search, "") == x + " " + y
  {
    var rest := " " + y + search;
    var whole := x + " " + y + search;
    assert whole == x + rest;
    assert ReplaceAll(x + rest, search, "") == x + (" " + y) by {
      StripSpaceSuffix(y, search);
      ReplaceAllSkipsSpaceless(x, rest, search, "");
    }
    assert x + (" " + y) == x + " " + y;
  }

  /** The step of StripSuffix after x. */
  lemma StripSpaceSuffix(y: string, search: string)
    requires |search| >= 2 && search[0] == ' ' && ' ' !in y && |y| > 0 && y[0] != search[1]
    ensures ReplaceAll(" " + y + search, search, "") == " " + y
  {
    var rest := " " + y + search;
    assert rest[1..] == y + search && rest[1] == y[0];
    ReplaceAllMismatch(rest, search, "", 1);
    StripWordSuffix(y, search);
  }

  /** The step of StripSuffix after the space. */
  lemma StripWordSuffix(y: string, search: string)
    requires |search| > 0 && search[0] == ' ' && ' ' !in y
    ensures ReplaceAll(y + search, search, "") == y
  {
    ReplaceAllSelf(search, "");
    ReplaceAllSkipsSpaceless(y, search, search, "");
    assert y + "" == y;
  }

  /** Without the search string at its end, "x y" is left as it is. */
  lemma StripNothing(x: string, y: string, search: string)
    requires |search| >= 2 && search[0] == ' ' && ' ' !in x && ' ' !in y && |y| > 0 && y[0] != search[1]
    ensures ReplaceAll(x + " " + y, search, "") == x + " " + y
  {
    var rest := " " + y;
    assert x + " " + y == x + rest;
    ReplaceAllSkipsSpaceless(x, rest, search, "");
    assert rest[1..] == y;
    ReplaceAllMismatch(rest, search, "", 1);
    ReplaceAllSkipsSpaceless(y, "", search, "");
    assert ReplaceAll("", search, "") == "";
    assert y + "" == y;
  }

  /** The type text string() or integer() renders. */
  function TypeText(op: Op): string
    requires op.StringOp? || op.IntegerOp?
  {
    if op.StringOp? then VarcharType(op.length) else IntType(op.size)
  }

  /** nullable() on a column just defined by string() or integer() with a name without
      spaces drops exactly the trailing " NOT NULL" and keeps the constraints. */
  lemma NullableEffect(t: Table, op: Op)
    requires op.StringOp? || op.IntegerOp?
    requires ' ' !in op.name
    ensures var defined := Apply(t, op);
            var r := Apply(defined, NullableOp);
            r.column == Quoted(op.name) + " " + TypeText(op) && r.constraints == defined.constraints
  {
    var y := TypeText(op);
    assert y[0] != 'N' && ' ' !in y;
    assert NotNull[0] == ' ' && NotNull[1] == 'N';
    StripSuffix(Quoted(op.name), y, NotNull);
  }

  /** On such a column, a second nullable() changes nothing. */
  lemma NullableIdempotent(t: Table, op: Op)
    requires op.StringOp? || op.IntegerOp?
    requires ' ' !in op.name
    ensures var r := Apply(Apply(t, op), NullableOp);
            Apply(r, NullableOp) == r
  {
    NullableEffect(t, op);
    var y := TypeText(op);
    assert y[0] != 'N' && ' ' !in y;
    assert NotNull[0] == ' ' && NotNull[1] == 'N';
    StripNothing(Quoted(op.name), y, NotNull);
  }

  /** For a name that holds spaces a second nullable() can remove more: str_replace
      does not rescan its own output, so " NOT N NOT NULLULL" loses its inner
      " NOT NULL" and becomes " NOT NULL", which the next call removes in turn. */
  lemma NullableNotIdempotentInGeneral()
    ensures ReplaceAll(" NOT N" + NotNull + "ULL", NotNull, "") == NotNull
    ensures ReplaceAll(NotNull, NotNull, "") == ""
  {
    ReplaceAllSelf(NotNull, "");
    var u := NotNull + "ULL";
    assert ReplaceAll(u, NotNull, "") == "ULL" by {
      assert u[..|NotNull|] == NotNull && u[|NotNull|..] == "ULL";
      assert ReplaceAll("ULL", NotNull, "") == "ULL";
    }
    var v := "N" + u;
    assert ReplaceAll(v, NotNull, "") == "NULL" by {
      ReplaceAllSkipsSpaceless("N", u, NotNull, "");
    }
    var w := " " + v;
    assert ReplaceAll(w, NotNull, "") == " NULL" by {
      assert w[1..] == v && w[2] != NotNull[2];
      ReplaceAllMismatch(w, NotNull, "", 2);
    }
    var x := "NOT" + w;
    assert ReplaceAll(x, NotNull, "") == "NOT NULL" by {
      ReplaceAllSkipsSpaceless("NOT", w, NotNull, "");
    }
    var s := " " + x;
    assert s == " NOT N" + NotNull + "ULL" by {
      Regroup4(" ", "NOT", " ", "N", u);
      assert " " + "NOT" + " " + "N" == " NOT N";
      assert " NOT N" + NotNull + "ULL" == " NOT N" + u;
    }
    assert ReplaceAll(s, NotNull, "") == NotNull by {
      assert s[1..] == x && s[6] != NotNull[6];
      ReplaceAllMismatch(s, NotNull, "", 6);
    }
  }

  lemma Regroup4(a: string, b: string, c: string, d: string, e: string)
    ensures a + (b + (c + (d + e))) == a + b + c + d + e
  {
  }

  /** The builder's fields (the base class and the MySQL dialect flattened into one
      class) and its methods. */
  class Builder {
    var table: string
    var query: string
    var column: string
    var columnName: string
    var columns: seq<string>
    var constraints: seq<string>
    var primaryKey: string
    var foreignKeys: seq<string>
    var indexes: seq<string>

    ghost function State(): Table
      reads this
    {
      Table(table, query, column, columnName, columns, constraints, primaryKey, foreignKeys, indexes)
    }

    constructor()
      ensures State() == Initial()
    {
      table, query, column, columnName := "", "", "", "";
      columns, constraints, primaryKey, foreignKeys, indexes := [], [], "", [], [];
    }

    method SetTable(table: string)
      modifies this
      ensures State() == Schema.SetTable(old(State()), table)
    {
      this.table := table;
    }

    method PushColumn()
      modifies this
      ensures State() == Schema.PushColumn(old(State()))
    {
      if !PhpEmpty(column) {
        columns := columns + [ColumnEntry(column, constraints)];
      }
      constraints := [];
    }

    /** Pushes the pending column and appends the statement's parts to query one
        after the other. */
    method Build() returns (q: string)
      modifies this
      ensures State() == Schema.Build(old(State()))
      ensures q == query
    {
      PushColumn();
      ghost var p := State();
      query := Header(table);
      query := query + Implode("," + EOL, columns);
      query := query + primaryKey;
      query := query + Implode("", foreignKeys) + EOL;
      query := query + Trailer;
      query := query + Implode("", indexes);
      Schema.Regroup(Header(p.table), Implode("," + EOL, p.columns), p.primaryKey, Implode("", p.foreignKeys), EOL,
                     Trailer, Implode("", p.indexes));
      q := query;
    }

    method String(column: string, length: int := 255)
      modifies this
      ensures State() == Apply(old(State()), StringOp(column, length))
    {
      PushColumn();
      this.column := VarcharDefinition(column, length);
    }

    method Integer(column: string, size: int := 4)
      modifies this
      ensures State() == Apply(old(State()), IntegerOp(column, size))
    {
      PushColumn();
      this.column := IntDefinition(column, size);
      columnName := column;
    }

    method Nullable()
      modifies this
      ensures State() == Apply(old(State()), NullableOp)
    {
      column := ReplaceAll(column, NotNull, "");
    }

    method Unique()
      modifies this
      ensures State() == Apply(old(State()), UniqueOp)
    {
      constraints := constraints + ["UNIQUE"];
    }

    method Primary()
      modifies this
      ensures State() == Apply(old(State()), PrimaryOp)
    {
      constraints := constraints + ["PRIMARY KEY"];
    }

    method Foreign(refTable: string, refColumn: string)
      modifies this
      ensures State() == Apply(old(State()), ForeignOp(refTable, refColumn))
    {
      foreignKeys := foreignKeys + [ForeignFragment(columnName, refTable, refColumn)];
    }

    method Check()
      ensures State() == Apply(State(), CheckOp)
    {
    }

    method Default(value: string)
      modifies this
      ensures State() == Apply(old(State()), DefaultOp(value))
    {
      constraints := constraints + [DefaultConstraint(value)];
    }

    method Index()
      ensures State() == Apply(State(), IndexOp)
    {
    }

    method Unsigned()
      modifies this
      ensures State() == Apply(old(State()), UnsignedOp)
    {
      constraints := constraints + ["UNSIGNED"];
    }

    method AutoIncrement()
      modifies this
      ensures State() == Apply(old(State()), AutoIncrementOp)
    {
      constraints := constraints + ["AUTO INCREMENT"];
    }
  }
}
