/** The statements of src/CrudOperations.php: the SQL text and the parameters that
    insert, select, update and delete hand to the driver, as functions. The
    QueryBuilder class computes the same values with the source's loops. */
module CrudOperations {
  import opened Strings
  import opened OrderedMap

  /** A key of a PHP array: an integer or a string. */
  datatype Key = IntKey(index: int) | StrKey(name: string)

  /** select()'s $columns: a string is used as it is, an array is joined with ",". */
  datatype Columns = Text(text: string) | List(names: seq<string>)

  function ColumnsText(columns: Columns): string
  {
    match columns
    case Text(t) => t
    case List(names) => Implode(",", names)
  }

  /** The name of the last string-keyed entry of insert()'s data, if there is one. */
  function LastStringKey<V>(data: seq<(Key, V)>): (r: Option<string>)
    ensures r.None? <==> forall i :: 0 <= i < |data| ==> data[i].0.IntKey?
    ensures r.Some? ==> exists i :: 0 <= i < |data| && data[i].0 == StrKey(r.value)
                                    && forall j :: i < j < |data| ==> data[j].0.IntKey?
    decreases |data|
  {
    if |data| == 0 then None
    else if data[|data| - 1].0.StrKey? then Some(data[|data| - 1].0.name)
    else
      var r := LastStringKey(data[..|data| - 1]);
      LastStringKeyStep(data, r);
      r
  }

  /** An integer key at the end changes nothing about the last string key. */
  lemma {:induction false} LastStringKeyStep<V>(data: seq<(Key, V)>, r: Option<string>)
    requires |data| > 0 && data[|data| - 1].0.IntKey?
    requires var init := data[..|data| - 1];
             && (r.None? <==> forall i :: 0 <= i < |init| ==> init[i].0.IntKey?)
             && (r.Some? ==> exists i :: 0 <= i < |init| && init[i].0 == StrKey(r.value)
                                         && forall j :: i < j < |init| ==> init[j].0.IntKey?)
    ensures r.None? <==> forall i :: 0 <= i < |data| ==> data[i].0.IntKey?
    ensures r.Some? ==> exists i :: 0 <= i < |data| && data[i].0 == StrKey(r.value)
                                    && forall j :: i < j < |data| ==> data[j].0.IntKey?
  {
    var n := |data| - 1;
    var init := data[..n];
    assert forall i :: 0 <= i < n ==> init[i] == data[i];
    if r.Some? {
      var i :| 0 <= i < n && init[i].0 == StrKey(r.value) && forall j :: i < j < n ==> init[j].0.IntKey?;
      assert forall j :: i < j < |data| ==> data[j].0.IntKey?;
    }
  }

  /** The column part of the INSERT: nothing when no key is a string, otherwise the
      last string key alone in parentheses, because $columns is re-initialised on
      every string key. */
  function ColumnPart<V>(data: seq<(Key, V)>): string
  {
    match LastStringKey(data)
    case None => ""
    case Some(k) => "(" + k + ")"
  }

  /** One '?' per entry, joined by ",". */
  function InsertPlaceholders(n: nat): string
  {
    Implode(",", Repeat("?", n))
  }

  /** "INSERT INTO $table $columns VALUES ($placeholders)" */
  function InsertSql<V>(table: string, data: seq<(Key, V)>): string
  {
    "INSERT INTO " + table + " " + ColumnPart(data) + " VALUES (" + InsertPlaceholders(|data|) + ")"
  }

  /** The VALUES list of n entries has exactly n '?'. */
  lemma {:induction false} InsertPlaceholderCount(n: nat)
    ensures CountChar(InsertPlaceholders(n), '?') == n
    decreases n
  {
    if n > 1 {
      InsertPlaceholderCount(n - 1);
      assert Repeat("?", n)[1..] == Repeat("?", n - 1);
      CountCharConcat("?" + ",", InsertPlaceholders(n - 1), '?');
    } else if n == 1 {
      assert InsertPlaceholders(1) == "?";
    }
  }

  /** When neither the table name nor any string key contains '?', the whole INSERT
      statement has exactly one '?' per entry of data, as many as the positional
      parameter list has values. */
  lemma InsertStatementPlaceholderCount<V>(table: string, data: seq<(Key, V)>)
    requires '?' !in table
    requires forall i :: 0 <= i < |data| && data[i].0.StrKey? ==> '?' !in data[i].0.name
    ensures CountChar(InsertSql(table, data), '?') == |data|
  {
    var cols := ColumnPart(data);
    assert '?' !in cols by {
      match LastStringKey(data)
      case None =>
      case Some(k) =>
        var i :| 0 <= i < |data| && data[i].0 == StrKey(k) && forall j :: i < j < |data| ==> data[j].0.IntKey?;
        assert cols == "(" + k + ")";
    }
    var head := "INSERT INTO " + table + " " + cols + " VALUES (";
    var list := InsertPlaceholders(|data|);
    assert InsertSql(table, data) == head + list + ")";
    CountCharAbsent(head, '?');
    CountCharAbsent(")", '?');
    InsertPlaceholderCount(|data|);
    CountCharConcat(head, list, '?');
    CountCharConcat(head + list, ")", '?');
  }

  /** The column part is empty exactly when no key of data is a string. */
  lemma ColumnPartEmpty<V>(data: seq<(Key, V)>)
    ensures ColumnPart(data) == "" <==> forall i :: 0 <= i < |data| ==> data[i].0.IntKey?
  {
  }

  /** An entry with a string key replaces the whole column part by its own key; an
      entry with an integer key leaves the column part as it was. */
  lemma ColumnPartSnoc<V>(data: seq<(Key, V)>, k: Key, v: V)
    ensures ColumnPart(data + [(k, v)]) == if k.StrKey? then "(" + k.name + ")" else ColumnPart(data)
  {
    assert (data + [(k, v)])[..|data|] == data;
  }

  /** insert('users', ['name' => ..., 'email' => ...]) names only the email column. */
  lemma InsertColumnsCollapse<V>(name: V, email: V)
    ensures ColumnPart([(StrKey("name"), name), (StrKey("email"), email)]) == "(email)"
  {
    ColumnPartSnoc([(StrKey("name"), name)], StrKey("email"), email);
    assert [(StrKey("name"), name)] + [(StrKey("email"), email)] == [(StrKey("name"), name), (StrKey("email"), email)];
  }

  /** The number of true outcomes: how many inserts insertMany counts as successes. */
  function CountTrue(outcomes: seq<bool>): nat
    decreases |outcomes|
  {
    if |outcomes| == 0 then 0 else (if outcomes[0] then 1 else 0) + CountTrue(outcomes[1..])
  }

  /** The success count never exceeds the number of records; it is the number of
      records exactly when every insert succeeded and zero exactly when none did. */
  lemma {:induction false} CountTrueBounds(outcomes: seq<bool>)
    ensures CountTrue(outcomes) <= |outcomes|
    ensures CountTrue(outcomes) == |outcomes| <==> forall i :: 0 <= i < |outcomes| ==> outcomes[i]
    ensures CountTrue(outcomes) == 0 <==> forall i :: 0 <= i < |outcomes| ==> !outcomes[i]
    decreases |outcomes|
  {
    if |outcomes| > 0 {
      CountTrueBounds(outcomes[1..]);
      assert forall i :: 0 < i < |outcomes| ==> outcomes[i] == outcomes[1..][i - 1];
    }
  }

  /** One more record adds one success exactly when its insert succeeded. */
  lemma {:induction false} CountTrueSnoc(outcomes: seq<bool>, b: bool)
    ensures CountTrue(outcomes + [b]) == CountTrue(outcomes) + (if b then 1 else 0)
    decreases |outcomes|
  {
    if |outcomes| > 0 {
      assert (outcomes + [b])[1..] == outcomes[1..] + [b];
      CountTrueSnoc(outcomes[1..], b);
    }
  }

  /** "SELECT $columns FROM $table $this->where" */
  function SelectSql(table: string, columns: Columns, where: string): string
  {
    "SELECT " + ColumnsText(columns) + " FROM " + table + " " + where
  }

  /** An array of column names without commas can be read back from the statement's
      column list. */
  lemma SelectColumnsRoundTrip(names: seq<string>)
    requires |names| > 0 && forall k :: 0 <= k < |names| ==> ',' !in names[k]
    ensures SplitOn(ColumnsText(List(names)), ',') == names
  {
    SplitImplode(names, ',');
  }

  /** "$column=:$column" */
  function SetClause(column: string): string
  {
    column + "=:" + column
  }

  function SetClauses<V>(data: seq<(string, V)>): (clauses: seq<string>)
    ensures |clauses| == |data| && forall i :: 0 <= i < |data| ==> clauses[i] == SetClause(data[i].0)
  {
    seq(|data|, i requires 0 <= i < |data| => SetClause(data[i].0))
  }

  /** "UPDATE $table SET $set $this->where" */
  function UpdateSql<V>(table: string, data: seq<(string, V)>, where: string): string
  {
    "UPDATE " + table + " SET " + Implode(",", SetClauses(data)) + " " + where
  }

  /** The $params array of update(): each value keyed by its bare column name. */
  function SetParams<V>(data: seq<(string, V)>): seq<(string, V)>
  {
    PutAll([], Keys(data), Values(data))
  }

  /** array_merge($params, $this->whereParams) */
  function UpdateParams<V>(data: seq<(string, V)>, whereParams: seq<(string, V)>): seq<(string, V)>
  {
    Merge(SetParams(data), whereParams)
  }

  /** The SET clauses of columns without commas can be read back from the statement,
      one per entry of data, in order: the text between "UPDATE table SET " and the
      space before the WHERE text splits at its commas into exactly those clauses. */
  lemma UpdateSetRoundTrip<V>(table: string, data: seq<(string, V)>, where: string)
    requires |data| > 0 && forall i :: 0 <= i < |data| ==> ',' !in data[i].0
    ensures var sql := UpdateSql(table, data, where);
            var h := |"UPDATE " + table + " SET "|;
            h <= |sql| - |where| - 1 && SplitOn(sql[h..|sql| - |where| - 1], ',') == SetClauses(data)
  {
    var head := "UPDATE " + table + " SET ";
    var list := Implode(",", SetClauses(data));
    assert UpdateSql(table, data, where) == head + list + (" " + where);
    assert (head + list + (" " + where))[|head|..|head| + |list|] == list;
    SetListRoundTrip(data);
  }

  /** The SET list of columns without commas splits back into its clauses. */
  lemma SetListRoundTrip<V>(data: seq<(string, V)>)
    requires |data| > 0 && forall i :: 0 <= i < |data| ==> ',' !in data[i].0
    ensures SplitOn(Implode(",", SetClauses(data)), ',') == SetClauses(data)
  {
    var clauses := SetClauses(data);
    forall k | 0 <= k < |clauses|
      ensures ',' !in clauses[k]
    {
      assert clauses[k] == data[k].0 + "=:" + data[k].0;
    }
    SplitImplode(clauses, ',');
  }

  /** The parameters of an update: the keys of data come first, in their order; a key
      is bound exactly when it is a column of data or a WHERE placeholder; on a clash
      the WHERE value wins, and every other column keeps its own value. */
  lemma UpdateParamsLookup<V>(data: seq<(string, V)>, whereParams: seq<(string, V)>, k: string)
    requires Distinct(Keys(data)) && Distinct(Keys(whereParams))
    ensures Keys(data) <= Keys(UpdateParams(data, whereParams))
    ensures k in Keys(UpdateParams(data, whereParams)) <==> k in Keys(data) || k in Keys(whereParams)
    ensures Lookup(UpdateParams(data, whereParams), k)
            == if k in Keys(whereParams) then Lookup(whereParams, k) else Lookup(data, k)
  {
    PutAllRebuilds(data);
    PutAllKeys(data, Keys(whereParams), Values(whereParams), k);
    MergeLookup(data, whereParams, k);
  }

  /** "DELETE FROM $table $this->where" */
  function DeleteSql(table: string, where: string): string
  {
    "DELETE FROM " + table + " " + where
  }

  /** select, update and delete all end in the session's WHERE text, after one space,
      and differ only in what comes before it. */
  lemma StatementsShareWhere<V>(table: string, columns: Columns, data: seq<(string, V)>, where: string)
    ensures var n := |where| + 1;
            && |SelectSql(table, columns, where)| >= n && SelectSql(table, columns, where)[|SelectSql(table, columns, where)| - n..] == " " + where
            && |UpdateSql(table, data, where)| >= n && UpdateSql(table, data, where)[|UpdateSql(table, data, where)| - n..] == " " + where
            && |DeleteSql(table, where)| >= n && DeleteSql(table, where)[|DeleteSql(table, where)| - n..] == " " + where
  {
  }
}
