/** The host object of the WhereConditions, Joins and CrudOperations traits: one
    class holding the session fields. Every state-changing method is proved to move
    the fields exactly as the session functions of WhereConditions and Joins say,
    and every statement method to return what CrudOperations specifies. */
module QueryBuilder {
  import opened Strings
  import opened OrderedMap
  import opened WhereConditions
  import opened Joins
  import opened CrudOperations

  class Builder<V> {
    /** Per-column placeholder counters. */
    var increments: map<string, nat>
    /** The WHERE text, one condition appended per call. */
    var where: string
    /** Placeholder => value, in insertion order. */
    var whereParams: seq<(string, V)>
    /** Scratch string of addJoin. */
    var join: string
    /** The join fragments, in insertion order. */
    var joins: seq<string>

    ghost function State(): Session<V>
      reads this
    {
      Session(increments, where, whereParams, join, joins)
    }

    /** Both halves of the session invariant on the fields: the bound keys are exactly
        the placeholders handed out so far, each occurring as a substring of the WHERE
        text. */
    ghost predicate Valid()
      reads this
    {
      Consistent(State())
    }

    constructor ()
      ensures State() == Empty() && Valid()
    {
      increments := map[];
      where := "";
      whereParams := [];
      join := "";
      joins := [];
      new;
      EmptyConsistent<V>();
    }

    /** where(): allocate the column's next placeholder, append the condition and
        bind the value under the placeholder. */
    method Where(column: string, value: V, table: string := MainTable, comparator: string := "=", concat: string := "WHERE")
      modifies this
      ensures State() == WhereConditions.Where(old(State()), column, value, table, comparator, concat)
      ensures old(Valid()) ==> Valid()
    {
      ghost var s0 := State();
      if column !in increments {
        increments := increments[column := 1];
      }
      assert increments[column] == Next(s0, column);
      var placeholder := Placeholder(column, increments[column]);
      increments := increments[column := increments[column] + 1];
      where := where + Condition(concat, table, column, comparator, placeholder);
      whereParams := Put(whereParams, placeholder, value);
      WhereConsistent(s0, column, value, table, comparator, concat);
    }

    method And(column: string, value: V, table: string := MainTable, comparator: string := "=")
      modifies this
      ensures State() == WhereConditions.Where(old(State()), column, value, table, comparator, "AND")
      ensures old(Valid()) ==> Valid()
    {
      Where(column, value, table, comparator, "AND");
    }

    method Or(column: string, value: V, table: string := MainTable, comparator: string := "=")
      modifies this
      ensures State() == WhereConditions.Where(old(State()), column, value, table, comparator, "OR")
      ensures old(Valid()) ==> Valid()
    {
      Where(column, value, table, comparator, "OR");
    }

    method WhereGreaterThan(column: string, value: V, table: string := MainTable)
      modifies this
      ensures State() == WhereConditions.Where(old(State()), column, value, table, ">", "WHERE")
      ensures old(Valid()) ==> Valid()
    {
      Where(column, value, table, ">");
    }

    method AndGreaterThan(column: string, value: V, table: string := MainTable)
      modifies this
      ensures State() == WhereConditions.Where(old(State()), column, value, table, ">", "AND")
      ensures old(Valid()) ==> Valid()
    {
      And(column, value, table, ">");
    }

    method OrGreaterThan(column: string, value: V, table: string := MainTable)
      modifies this
      ensures State() == WhereConditions.Where(old(State()), column, value, table, ">", "OR")
      ensures old(Valid()) ==> Valid()
    {
      Or(column, value, table, ">");
    }

    method WhereLessThan(column: string, value: V, table: string := MainTable)
      modifies this
      ensures State() == WhereConditions.Where(old(State()), column, value, table, "<", "WHERE")
      ensures old(Valid()) ==> Valid()
    {
      Where(column, value, table, "<");
    }

    method AndLessThan(column: string, value: V, table: string := MainTable)
      modifies this
      ensures State() == WhereConditions.Where(old(State()), column, value, table, "<", "AND")
      ensures old(Valid()) ==> Valid()
    {
      And(column, value, table, "<");
    }

    method OrLessThan(column: string, value: V, table: string := MainTable)
      modifies this
      ensures State() == WhereConditions.Where(old(State()), column, value, table, "<", "OR")
      ensures old(Valid()) ==> Valid()
    {
      Or(column, value, table, "<");
    }

    method WhereGreaterOrEquals(column: string, value: V, table: string := MainTable)
      modifies this
      ensures State() == WhereConditions.Where(old(State()), column, value, table, ">=", "WHERE")
      ensures old(Valid()) ==> Valid()
    {
      Where(column, value, table, ">=");
    }

    method AndGreaterOrEquals(column: string, value: V, table: string := MainTable)
      modifies this
      ensures State() == WhereConditions.Where(old(State()), column, value, table, ">=", "AND")
      ensures old(Valid()) ==> Valid()
    {
      And(column, value, table, ">=");
    }

    method OrGreaterOrEquals(column: string, value: V, table: string := MainTable)
      modifies this
      ensures State() == WhereConditions.Where(old(State()), column, value, table, ">=", "OR")
      ensures old(Valid()) ==> Valid()
    {
      Or(column, value, table, ">=");
    }

    method WhereLessOrEquals(column: string, value: V, table: string := MainTable)
      modifies this
      ensures State() == WhereConditions.Where(old(State()), column, value, table, "<=", "WHERE")
      ensures old(Valid()) ==> Valid()
    {
      Where(column, value, table, "<=");
    }

    method AndLessOrEquals(column: string, value: V, table: string := MainTable)
      modifies this
      ensures State() == WhereConditions.Where(old(State()), column, value, table, "<=", "AND")
      ensures old(Valid()) ==> Valid()
    {
      And(column, value, table, "<=");
    }

    method OrLessOrEquals(column: string, value: V, table: string := MainTable)
      modifies this
      ensures State() == WhereConditions.Where(old(State()), column, value, table, "<=", "OR")
      ensures old(Valid()) ==> Valid()
    {
      Or(column, value, table, "<=");
    }

    method WhereLike(column: string, value: V, table: string := MainTable)
      modifies this
      ensures State() == WhereConditions.Where(old(State()), column, value, table, "LIKE", "WHERE")
      ensures old(Valid()) ==> Valid()
    {
      Where(column, value, table, "LIKE");
    }

    method AndLike(column: string, value: V, table: string := MainTable)
      modifies this
      ensures State() == WhereConditions.Where(old(State()), column, value, table, "LIKE", "AND")
      ensures old(Valid()) ==> Valid()
    {
      And(column, value, table, "LIKE");
    }

    method OrLike(column: string, value: V, table: string := MainTable)
      modifies this
      ensures State() == WhereConditions.Where(old(State()), column, value, table, "LIKE", "OR")
      ensures old(Valid()) ==> Valid()
    {
      Or(column, value, table, "LIKE");
    }

    /** whereIn(): the foreach loop allocates one placeholder per value and binds the
        value under it; the condition lists the placeholders afterwards. */
    method WhereIn(column: string, values: seq<V>, table: string := MainTable, concat: string := "WHERE")
      modifies this
      ensures State() == WhereConditions.WhereIn(old(State()), column, values, table, concat)
      ensures old(Valid()) ==> Valid()
    {
      ghost var s0 := State();
      ghost var start := Next(s0, column);
      ghost var counters0, params0 := increments, whereParams;
      var placeholders: seq<string> := [];
      for i := 0 to |values|
        invariant placeholders == Placeholders(column, start, i)
        invariant increments == CountersAfter(counters0, column, start, i)
        invariant whereParams == PutAll(params0, placeholders, values[..i])
        modifies this`increments, this`whereParams
      {
        CounterStep(counters0, increments, column, start, i);
        if column !in increments {
          increments := increments[column := 1];
        }
        WhereInStep(params0, column, start, values, i, whereParams, placeholders);
        var placeholder := Placeholder(column, increments[column]);
        increments := increments[column := increments[column] + 1];
        placeholders := placeholders + [placeholder];
        whereParams := Put(whereParams, placeholder, values[i]);
      }
      assert values[..|values|] == values;
      where := where + InCondition(concat, table, column, placeholders);
      WhereInConsistent(s0, column, values, table, concat);
    }

    method AndIn(column: string, values: seq<V>, table: string := MainTable)
      modifies this
      ensures State() == WhereConditions.WhereIn(old(State()), column, values, table, "AND")
      ensures old(Valid()) ==> Valid()
    {
      WhereIn(column, values, table, "AND");
    }

    method OrIn(column: string, values: seq<V>, table: string := MainTable)
      modifies this
      ensures State() == WhereConditions.WhereIn(old(State()), column, values, table, "OR")
      ensures old(Valid()) ==> Valid()
    {
      WhereIn(column, values, table, "OR");
    }

    /** whereBetween(): two consecutive placeholders, the first bound to value1 and the
        second to value2. */
    method WhereBetween(column: string, value1: V, value2: V, table: string := MainTable, concat: string := "WHERE")
      modifies this
      ensures State() == WhereConditions.WhereBetween(old(State()), column, value1, value2, table, concat)
      ensures old(Valid()) ==> Valid()
    {
      ghost var s0 := State();
      if column !in increments {
        increments := increments[column := 1];
      }
      ghost var n := Next(s0, column);
      assert increments[column] == n;
      var placeholder1 := Placeholder(column, increments[column]);
      increments := increments[column := increments[column] + 1];
      var placeholder2 := Placeholder(column, increments[column]);
      increments := increments[column := increments[column] + 1];
      assert increments == s0.increments[column := n + 2];
      where := where + BetweenCondition(concat, column, placeholder1, placeholder2);
      whereParams := Put(whereParams, placeholder1, value1);
      whereParams := Put(whereParams, placeholder2, value2);
      WhereBetweenConsistent(s0, column, value1, value2, table, concat);
    }

    method AndBetween(column: string, value1: V, value2: V, table: string := MainTable)
      modifies this
      ensures State() == WhereConditions.WhereBetween(old(State()), column, value1, value2, table, "AND")
      ensures old(Valid()) ==> Valid()
    {
      WhereBetween(column, value1, value2, table, "AND");
    }

    method OrBetween(column: string, value1: V, value2: V, table: string := MainTable)
      modifies this
      ensures State() == WhereConditions.WhereBetween(old(State()), column, value1, value2, table, "OR")
      ensures old(Valid()) ==> Valid()
    {
      WhereBetween(column, value1, value2, table, "OR");
    }

    /** addJoin(): builds the fragment in the scratch string, appends it and clears
        the scratch string. */
    method AddJoin(table: string, leftColumn: string, rightColumn: Option<string> := None, joinType: string := "INNER")
      modifies this
      ensures State() == Joins.AddJoin(old(State()), table, leftColumn, rightColumn, joinType)
      ensures old(Valid()) ==> Valid()
    {
      ghost var s0 := State();
      join := JoinFragment(joinType, table, leftColumn, rightColumn);
      joins := joins + [join];
      join := "";
      AddJoinEffect(s0, table, leftColumn, rightColumn, joinType);
    }

    method InnerJoin(table: string, leftColumn: string, rightColumn: Option<string> := None)
      modifies this
      ensures State() == Joins.AddJoin(old(State()), table, leftColumn, rightColumn, TypeText(Inner))
      ensures old(Valid()) ==> Valid()
    {
      AddJoin(table, leftColumn, rightColumn);
    }

    method Join(table: string, leftColumn: string, rightColumn: Option<string> := None)
      modifies this
      ensures State() == Joins.AddJoin(old(State()), table, leftColumn, rightColumn, TypeText(Inner))
      ensures old(Valid()) ==> Valid()
    {
      InnerJoin(table, leftColumn, rightColumn);
    }

    method LeftJoin(table: string, leftColumn: string, rightColumn: Option<string> := None)
      modifies this
      ensures State() == Joins.AddJoin(old(State()), table, leftColumn, rightColumn, TypeText(Left))
      ensures old(Valid()) ==> Valid()
    {
      AddJoin(table, leftColumn, rightColumn, "LEFT");
    }

    method RightJoin(table: string, leftColumn: string, rightColumn: Option<string> := None)
      modifies this
      ensures State() == Joins.AddJoin(old(State()), table, leftColumn, rightColumn, TypeText(Right))
      ensures old(Valid()) ==> Valid()
    {
      AddJoin(table, leftColumn, rightColumn, "RIGHT");
    }

    method FullJoin(table: string, leftColumn: string, rightColumn: Option<string> := None)
      modifies this
      ensures State() == Joins.AddJoin(old(State()), table, leftColumn, rightColumn, TypeText(FullOuter))
      ensures old(Valid()) ==> Valid()
    {
      AddJoin(table, leftColumn, rightColumn, "FULL OUTER");
    }

    /** insert(): the statement and the positional parameters it would execute. The
        loop resets $columns on every string key, so only the last one is kept. */
    method Insert(table: string, data: seq<(Key, V)>) returns (sql: string, params: seq<V>)
      ensures sql == InsertSql(table, data)
      ensures params == Values(data)
    {
      var columns: Option<seq<string>> := None;
      var placeholders: seq<string> := [];
      params := [];
      for i := 0 to |data|
        invariant columns.None? <==> LastStringKey(data[..i]).None?
        invariant columns.Some? ==> columns.value == [LastStringKey(data[..i]).value]
        invariant placeholders == Repeat("?", i)
        invariant params == Values(data[..i])
      {
        assert data[..i + 1][..i] == data[..i];
        if data[i].0.StrKey? {
          columns := Some([]);
          columns := Some(columns.value + [data[i].0.name]);
        }
        placeholders := placeholders + ["?"];
        params := params + [data[i].1];
      }
      assert data[..|data|] == data;
      var columnText := "";
      if columns.Some? && |columns.value| > 0 {
        columnText := "(" + Implode(",", columns.value) + ")";
      }
      sql := "INSERT INTO " + table + " " + columnText + " VALUES (" + Implode(",", placeholders) + ")";
    }

    /** insertMany(): every record is attempted whatever happened to the earlier ones;
        outcomes[i] is the driver's answer to the i-th insert. */
    method InsertMany(table: string, data: seq<seq<(Key, V)>>, outcomes: seq<bool>) returns (success: nat, statements: seq<(string, seq<V>)>)
      requires |outcomes| == |data|
      ensures success == CountTrue(outcomes) && success <= |data|
      ensures |statements| == |data|
      ensures forall i :: 0 <= i < |data| ==> statements[i] == (InsertSql(table, data[i]), Values(data[i]))
    {
      success := 0;
      statements := [];
      for i := 0 to |data|
        invariant success == CountTrue(outcomes[..i])
        invariant |statements| == i
        invariant forall j :: 0 <= j < i ==> statements[j] == (InsertSql(table, data[j]), Values(data[j]))
      {
        var sql, params := Insert(table, data[i]);
        ghost var earlier := statements;
        statements := statements + [(sql, params)];
        assert forall j :: 0 <= j < i ==> statements[j] == earlier[j];
        CountTrueSnoc(outcomes[..i], outcomes[i]);
        assert outcomes[..i + 1] == outcomes[..i] + [outcomes[i]];
        if outcomes[i] {
          success := success + 1;
        }
      }
      assert outcomes[..|outcomes|] == outcomes;
      CountTrueBounds(outcomes);
    }

    /** select(): the statement and the WHERE bindings it would execute. */
    method Select(table: string, columns: Columns := Text("*")) returns (sql: string, params: seq<(string, V)>)
      ensures sql == SelectSql(table, columns, where)
      ensures params == whereParams
    {
      var columnText := if columns.List? then Implode(",", columns.names) else columns.text;
      sql := "SELECT " + columnText + " FROM " + table + " " + where;
      params := whereParams;
    }

    /** update(): one "column=:column" per entry and the bindings keyed by the bare
        column names, merged with the WHERE bindings. */
    method Update(table: string, data: seq<(string, V)>) returns (sql: string, params: seq<(string, V)>)
      ensures sql == UpdateSql(table, data, where)
      ensures params == UpdateParams(data, whereParams)
    {
      var clauses: seq<string> := [];
      var setParams: seq<(string, V)> := [];
      for i := 0 to |data|
        invariant clauses == SetClauses(data[..i])
        invariant setParams == PutAll([], Keys(data[..i]), Values(data[..i]))
      {
        assert Keys(data[..i + 1]) == Keys(data[..i]) + [data[i].0];
        assert Values(data[..i + 1]) == Values(data[..i]) + [data[i].1];
        PutAllSnoc([], Keys(data[..i]), Values(data[..i]), data[i].0, data[i].1);
        clauses := clauses + [data[i].0 + "=:" + data[i].0];
        setParams := Put(setParams, data[i].0, data[i].1);
      }
      assert data[..|data|] == data;
      sql := "UPDATE " + table + " SET " + Implode(",", clauses) + " " + where;
      params := Merge(setParams, whereParams);
    }

    /** delete(): the statement and the WHERE bindings it would execute. */
    method Delete(table: string) returns (sql: string, params: seq<(string, V)>)
      ensures sql == DeleteSql(table, where)
      ensures params == whereParams
    {
      sql := "DELETE FROM " + table + " " + where;
      params := whereParams;
    }
  }
}
