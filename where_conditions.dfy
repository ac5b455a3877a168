/** The WHERE part of the query session, src/WhereConditions.php, as functions on
    the value of the session's fields. The class QueryBuilder.Builder holds the
    fields themselves and its methods are proved to follow these functions. */
module WhereConditions {
  import opened Strings
  import opened OrderedMap

  /** The default $table argument; substituting the real table name for it happens
      outside the shown code. */
  const MainTable: string := "#$MAINTABLE$#"

  /** The fields the WhereConditions, Joins and CrudOperations traits share on their
      host object: the per-column placeholder counters, the WHERE text, the bound
      parameters (placeholder => value, in insertion order), the scratch join
      string and the join fragments. */
  datatype Session<V> = Session(
    increments: map<string, nat>,
    where: string,
    whereParams: seq<(string, V)>,
    join: string,
    joins: seq<string>)

  function Empty<V>(): Session<V>
  {
    Session(map[], "", [], "", [])
  }

  /** The counter the next allocation for column reads: the stored one, or the 1
      that the first-allocation guard stores. */
  function Next<V>(s: Session<V>, column: string): nat
  {
    if column in s.increments then s.increments[column] else 1
  }

  /** ':' . $column . $this->increments[$column] */
  function Placeholder(column: string, n: nat): string
  {
    ":" + column + NatToString(n)
  }

  /** n placeholders for column with consecutive counters from start. */
  function Placeholders(column: string, start: nat, n: nat): (ps: seq<string>)
    ensures |ps| == n && forall i :: 0 <= i < n ==> ps[i] == Placeholder(column, start + i)
  {
    seq(n, i requires 0 <= i < n => Placeholder(column, start + i))
  }

  /** " $concat `$table`.`$column` $comparator $placeholder" */
  function Condition(concat: string, table: string, column: string, comparator: string, placeholder: string): string
  {
    " " + concat + " `" + table + "`.`" + column + "` " + comparator + " " + placeholder
  }

  /** where(): one placeholder, one condition, one bound value. */
  function Where<V>(s: Session<V>, column: string, value: V, table: string, comparator: string, concat: string): Session<V>
  {
    var p := Placeholder(column, Next(s, column));
    s.(increments := s.increments[column := Next(s, column) + 1],
       where := s.where + Condition(concat, table, column, comparator, p),
       whereParams := Put(s.whereParams, p, value))
  }

  /** " $concat `$table`.`$column` IN (p1, p2, ...)" */
  function InCondition(concat: string, table: string, column: string, placeholders: seq<string>): string
  {
    " " + concat + " `" + table + "`.`" + column + "` IN (" + Implode(", ", placeholders) + ")"
  }

  /** whereIn(): one placeholder per value, in the order of the values. */
  function WhereIn<V>(s: Session<V>, column: string, values: seq<V>, table: string, concat: string): Session<V>
  {
    var ps := Placeholders(column, Next(s, column), |values|);
    s.(increments := if |values| == 0 then s.increments
                     else s.increments[column := Next(s, column) + |values|],
       where := s.where + InCondition(concat, table, column, ps),
       whereParams := PutAll(s.whereParams, ps, values))
  }

  /** " $concat `$column` BETWEEN p1 AND p2": the table is not rendered. */
  function BetweenCondition(concat: string, column: string, p1: string, p2: string): string
  {
    " " + concat + " `" + column + "` BETWEEN " + p1 + " AND " + p2
  }

  /** whereBetween(): two consecutive placeholders for the two bounds. */
  function WhereBetween<V>(s: Session<V>, column: string, value1: V, value2: V, table: string, concat: string): Session<V>
  {
    var n := Next(s, column);
    var p1 := Placeholder(column, n);
    var p2 := Placeholder(column, n + 1);
    s.(increments := s.increments[column := n + 2],
       where := s.where + BetweenCondition(concat, column, p1, p2),
       whereParams := Put(Put(s.whereParams, p1, value1), p2, value2))
  }

  /** The counters after i allocations for column from a counter that stood at start
      (1 when the column had none). */
  function CountersAfter(increments: map<string, nat>, column: string, start: nat, i: nat): map<string, nat>
  {
    if i == 0 then increments else increments[column := start + i]
  }

  /** The counter step shared by where(), whereIn() and whereBetween(): a missing
      counter starts at 1; the placeholder takes the counter, which then moves on by
      one. After i allocations from a counter that stood at start, the next one takes
      start + i. */
  lemma CounterStep(increments: map<string, nat>, counters: map<string, nat>, column: string, start: nat, i: nat)
    requires start == if column in increments then increments[column] else 1
    requires counters == CountersAfter(increments, column, start, i)
    ensures var c1 := if column !in counters then counters[column := 1] else counters;
            column in c1 && c1[column] == start + i
            && c1[column := c1[column] + 1] == CountersAfter(increments, column, start, i + 1)
  {
    var c1 := if column !in counters then counters[column := 1] else counters;
    assert c1 == increments[column := start + i];
  }

  lemma PlaceholdersSnoc(column: string, start: nat, i: nat)
    ensures Placeholders(column, start, i) + [Placeholder(column, start + i)] == Placeholders(column, start, i + 1)
  {
  }

  /** One pass of whereIn()'s foreach loop, from the bindings after i values to the
      bindings after i + 1: the placeholder list grows by the next placeholder and the
      value is bound under it. */
  lemma {:induction false} WhereInStep<V>(params0: seq<(string, V)>, column: string, start: nat, values: seq<V>,
                                         i: nat, params: seq<(string, V)>, placeholders: seq<string>)
    requires i < |values| && placeholders == Placeholders(column, start, i)
    requires params == PutAll(params0, placeholders, values[..i])
    ensures placeholders + [Placeholder(column, start + i)] == Placeholders(column, start, i + 1)
    ensures Put(params, Placeholder(column, start + i), values[i])
            == PutAll(params0, placeholders + [Placeholder(column, start + i)], values[..i + 1])
  {
    PlaceholdersSnoc(column, start, i);
    PutAllSnoc(params0, placeholders, values[..i], Placeholder(column, start + i), values[i]);
    assert values[..i + 1] == values[..i] + [values[i]];
  }

  /** Placeholders of one column are equal exactly when their counters are. */
  lemma PlaceholderInjective(column: string, n: nat, m: nat)
    ensures Placeholder(column, n) == Placeholder(column, m) <==> n == m
  {
    if Placeholder(column, n) == Placeholder(column, m) {
      var k := 1 + |column|;
      assert Placeholder(column, n)[k..] == NatToString(n);
      assert Placeholder(column, m)[k..] == NatToString(m);
      NatToStringInjective(n, m);
    }
  }

  lemma PlaceholdersDistinct(column: string, start: nat, n: nat)
    ensures Distinct(Placeholders(column, start, n))
  {
    var ps := Placeholders(column, start, n);
    forall i, j | 0 <= i < j < n
      ensures ps[i] != ps[j]
    {
      PlaceholderInjective(column, start + i, start + j);
    }
  }

  /** Placeholders are NOT unique across columns: column age1 at counter 1 and column
      age at counter 11 both give :age11. */
  lemma CrossColumnCollision()
    ensures Placeholder("age1", 1) == Placeholder("age", 11) == ":age11"
  {
    assert NatToString(1) == "1";
    assert NatToString(11) == NatToString(1) + [DigitChar(1)];
  }

  /** So two conditions can share one parameter slot: the later value replaces the
      earlier one in place, and the map grows by at most one entry for both conditions;
      by exactly one when :age11 was not bound before. */
  lemma CrossColumnOverwrite<V>(s: Session<V>, v1: V, v2: V, table: string)
    requires "age1" !in s.increments && Next(s, "age") == 11
    ensures var s2 := Where(Where(s, "age1", v1, table, "=", "WHERE"), "age", v2, table, "=", "AND");
            && s2.where == s.where + Condition("WHERE", table, "age1", "=", ":age11")
                                   + Condition("AND", table, "age", "=", ":age11")
            && Lookup(s2.whereParams, ":age11") == Some(v2)
            && |s2.whereParams| <= |s.whereParams| + 1
            && (":age11" !in Keys(s.whereParams) ==> |s2.whereParams| == |s.whereParams| + 1)
  {
    CrossColumnCollision();
    var s1 := Where(s, "age1", v1, table, "=", "WHERE");
    assert Next(s1, "age") == 11;
    PutLookup(s1.whereParams, ":age11", v2, ":age11");
    PutKeys(s.whereParams, ":age11", v1);
    PutKeys(s1.whereParams, ":age11", v2);
  }

  /** where(): the first allocation for a column uses counter 1; the call raises that
      column's counter by one and no other; it appends exactly one condition and binds
      the value under its placeholder, leaving every other binding and the joins alone. */
  lemma WhereEffect<V>(s: Session<V>, column: string, value: V, table: string, comparator: string, concat: string)
    ensures var s' := Where(s, column, value, table, comparator, concat);
            var p := Placeholder(column, Next(s, column));
            && (column !in s.increments ==> p == ":" + column + "1")
            && Next(s', column) == Next(s, column) + 1
            && (forall c :: c != column ==> Next(s', c) == Next(s, c))
            && s'.increments.Keys == s.increments.Keys + {column}
            && s'.where == s.where + Condition(concat, table, column, comparator, p)
            && Lookup(s'.whereParams, p) == Some(value)
            && (forall k :: k != p ==> Lookup(s'.whereParams, k) == Lookup(s.whereParams, k))
            && s'.join == s.join && s'.joins == s.joins
  {
    var p := Placeholder(column, Next(s, column));
    assert NatToString(1) == "1";
    forall k
      ensures Lookup(Put(s.whereParams, p, value), k) == if k == p then Some(value) else Lookup(s.whereParams, k)
    {
      PutLookup(s.whereParams, p, value, k);
    }
  }

  /** whereIn(): |values| consecutive placeholders of the column, each holding its
      value; with no values the counters and the bindings stay as they were, and
      the text still gains " concat `table`.`column` IN ()". */
  lemma WhereInEffect<V>(s: Session<V>, column: string, values: seq<V>, table: string, concat: string)
    ensures var s' := WhereIn(s, column, values, table, concat);
            var ps := Placeholders(column, Next(s, column), |values|);
            && Next(s', column) == Next(s, column) + |values|
            && (forall c :: c != column ==> Next(s', c) == Next(s, c))
            && s'.where == s.where + InCondition(concat, table, column, ps)
            && (forall i :: 0 <= i < |values| ==> Lookup(s'.whereParams, ps[i]) == Some(values[i]))
            && (forall k :: k !in ps ==> Lookup(s'.whereParams, k) == Lookup(s.whereParams, k))
            && s'.join == s.join && s'.joins == s.joins
            && (|values| == 0 ==>
                  && s'.increments == s.increments
                  && s'.whereParams == s.whereParams
                  && s'.where == s.where + " " + concat + " `" + table + "`.`" + column + "` IN ()")
  {
    var ps := Placeholders(column, Next(s, column), |values|);
    PlaceholdersDistinct(column, Next(s, column), |values|);
    forall k
      ensures (forall i :: 0 <= i < |values| && ps[i] == k ==> Lookup(PutAll(s.whereParams, ps, values), k) == Some(values[i]))
      ensures k !in ps ==> Lookup(PutAll(s.whereParams, ps, values), k) == Lookup(s.whereParams, k)
    {
      PutAllLookup(s.whereParams, ps, values, k);
    }
  }

  /** whereBetween(): two allocations for the column, the low bound under the first
      placeholder and the high bound under the second; the $table argument has no
      effect on the result. */
  lemma WhereBetweenEffect<V>(s: Session<V>, column: string, value1: V, value2: V, table: string, concat: string, otherTable: string)
    ensures var s' := WhereBetween(s, column, value1, value2, table, concat);
            var p1 := Placeholder(column, Next(s, column));
            var p2 := Placeholder(column, Next(s, column) + 1);
            && p1 != p2
            && Next(s', column) == Next(s, column) + 2
            && (forall c :: c != column ==> Next(s', c) == Next(s, c))
            && s'.where == s.where + BetweenCondition(concat, column, p1, p2)
            && Lookup(s'.whereParams, p1) == Some(value1)
            && Lookup(s'.whereParams, p2) == Some(value2)
            && (forall k :: k != p1 && k != p2 ==> Lookup(s'.whereParams, k) == Lookup(s.whereParams, k))
            && s' == WhereBetween(s, column, value1, value2, otherTable, concat)
  {
    var n := Next(s, column);
    var p1 := Placeholder(column, n);
    var p2 := Placeholder(column, n + 1);
    PlaceholderInjective(column, n, n + 1);
    var m1 := Put(s.whereParams, p1, value1);
    forall k
      ensures Lookup(Put(m1, p2, value2), k) ==
              if k == p2 then Some(value2) else if k == p1 then Some(value1) else Lookup(s.whereParams, k)
    {
      PutLookup(m1, p2, value2, k);
      PutLookup(s.whereParams, p1, value1, k);
    }
  }

  /** The bound key was handed out earlier: it is the placeholder of some column
      whose counter has since moved past it. */
  ghost predicate Issued<V>(s: Session<V>, k: string)
  {
    exists c, n :: c in s.increments && 1 <= n < s.increments[c] && k == Placeholder(c, n)
  }

  /** What every sequence of WHERE and join calls keeps true: the bound keys are
      distinct, every stored counter has been used at least once, every bound key is
      an issued placeholder, and the scratch join string is empty. */
  ghost predicate Inv<V>(s: Session<V>)
  {
    && Distinct(Keys(s.whereParams))
    && (forall c :: c in s.increments ==> s.increments[c] >= 2)
    && (forall i :: 0 <= i < |s.whereParams| ==> Issued(s, s.whereParams[i].0))
    && s.join == ""
  }

  lemma EmptyInv<V>()
    ensures Inv(Empty<V>())
  {
  }

  /** Raising counters keeps earlier placeholders issued. */
  lemma IssuedMonotone<V>(s: Session<V>, s': Session<V>, k: string)
    requires Issued(s, k)
    requires forall c :: c in s.increments ==> c in s'.increments && s.increments[c] <= s'.increments[c]
    ensures Issued(s', k)
  {
    var c, n :| c in s.increments && 1 <= n < s.increments[c] && k == Placeholder(c, n);
    assert c in s'.increments && 1 <= n < s'.increments[c];
  }

  lemma WherePreservesInv<V>(s: Session<V>, column: string, value: V, table: string, comparator: string, concat: string)
    requires Inv(s)
    ensures Inv(Where(s, column, value, table, comparator, concat))
  {
    var s' := Where(s, column, value, table, comparator, concat);
    var p := Placeholder(column, Next(s, column));
    PutDistinct(s.whereParams, p, value);
    PutKeys(s.whereParams, p, value);
    assert Issued(s', p) by {
      assert column in s'.increments && 1 <= Next(s, column) < s'.increments[column];
    }
    forall i | 0 <= i < |s'.whereParams|
      ensures Issued(s', s'.whereParams[i].0)
    {
      var k := Keys(s'.whereParams)[i];
      if k != p {
        assert k in Keys(s.whereParams);
        var j :| 0 <= j < |s.whereParams| && Keys(s.whereParams)[j] == k;
        IssuedMonotone(s, s', k);
      }
    }
  }

  lemma WhereInPreservesInv<V>(s: Session<V>, column: string, values: seq<V>, table: string, concat: string)
    requires Inv(s)
    ensures Inv(WhereIn(s, column, values, table, concat))
  {
    var s' := WhereIn(s, column, values, table, concat);
    var ps := Placeholders(column, Next(s, column), |values|);
    PutAllDistinct(s.whereParams, ps, values);
    forall i | 0 <= i < |s'.whereParams|
      ensures Issued(s', s'.whereParams[i].0)
    {
      var k := Keys(s'.whereParams)[i];
      PutAllKeys(s.whereParams, ps, values, k);
      if k in ps {
        var j :| 0 <= j < |ps| && ps[j] == k;
        assert column in s'.increments && 1 <= Next(s, column) + j < s'.increments[column];
      } else {
        var j :| 0 <= j < |s.whereParams| && Keys(s.whereParams)[j] == k;
        IssuedMonotone(s, s', k);
      }
    }
  }

  lemma WhereBetweenPreservesInv<V>(s: Session<V>, column: string, value1: V, value2: V, table: string, concat: string)
    requires Inv(s)
    ensures Inv(WhereBetween(s, column, value1, value2, table, concat))
  {
    var s' := WhereBetween(s, column, value1, value2, table, concat);
    var n := Next(s, column);
    var p1 := Placeholder(column, n);
    var p2 := Placeholder(column, n + 1);
    var m1 := Put(s.whereParams, p1, value1);
    PutDistinct(s.whereParams, p1, value1);
    PutDistinct(m1, p2, value2);
    PutTwiceKeys(s.whereParams, p1, value1, p2, value2);
    forall i | 0 <= i < |s'.whereParams|
      ensures Issued(s', s'.whereParams[i].0)
    {
      var k := Keys(s'.whereParams)[i];
      assert k in Keys(s'.whereParams);
      if k == p1 {
        assert column in s'.increments && 1 <= n < s'.increments[column];
      } else if k == p2 {
        assert column in s'.increments && 1 <= n + 1 < s'.increments[column];
      } else {
        assert k in Keys(s.whereParams);
        var j :| 0 <= j < |s.whereParams| && Keys(s.whereParams)[j] == k;
        IssuedMonotone(s, s', k);
      }
    }
  }


  /** The placeholder is written at the end of its condition. */
  lemma ConditionContains(concat: string, table: string, column: string, comparator: string, p: string)
    ensures Contains(Condition(concat, table, column, comparator, p), p)
  {
    ContainsSelf(p);
    ContainsConcat(" " + concat + " `" + table + "`.`" + column + "` " + comparator + " ", p, p);
  }

  /** Every placeholder of an IN condition occurs in it as a substring. */
  lemma InConditionContains(concat: string, table: string, column: string, ps: seq<string>, k: nat)
    requires k < |ps|
    ensures Contains(InCondition(concat, table, column, ps), ps[k])
  {
    var head := " " + concat + " `" + table + "`.`" + column + "` IN (";
    ImplodeContains(", ", ps, k);
    ContainsConcat(head, Implode(", ", ps), ps[k]);
    ContainsConcat(head + Implode(", ", ps), ")", ps[k]);
  }

  /** Both placeholders of a BETWEEN condition occur in it as substrings. */
  lemma BetweenConditionContains(concat: string, column: string, p1: string, p2: string)
    ensures Contains(BetweenCondition(concat, column, p1, p2), p1)
    ensures Contains(BetweenCondition(concat, column, p1, p2), p2)
  {
    var head := " " + concat + " `" + column + "` BETWEEN ";
    ContainsSelf(p1);
    ContainsSelf(p2);
    ContainsConcat(head, p1, p1);
    ContainsConcat(head + p1, " AND ", p1);
    ContainsConcat(head + p1 + " AND ", p2, p1);
    ContainsConcat(head + p1 + " AND ", p2, p2);
  }

  /** The converse half of the session invariant and the tie to the text: every
      placeholder handed out so far is bound, and every bound key occurs as a
      substring of the WHERE text. */
  ghost predicate InSync<V>(s: Session<V>)
  {
    && (forall c, n :: c in s.increments && 1 <= n < s.increments[c] ==> Placeholder(c, n) in Keys(s.whereParams))
    && (forall i :: 0 <= i < |s.whereParams| ==> Contains(s.where, s.whereParams[i].0))
  }

  lemma EmptyInSync<V>()
    ensures InSync(Empty<V>())
  {
  }

  lemma WhereInSync<V>(s: Session<V>, column: string, value: V, table: string, comparator: string, concat: string)
    requires InSync(s)
    ensures InSync(Where(s, column, value, table, comparator, concat))
  {
    var s' := Where(s, column, value, table, comparator, concat);
    var p := Placeholder(column, Next(s, column));
    var cond := Condition(concat, table, column, comparator, p);
    PutKeys(s.whereParams, p, value);
    forall c, n | c in s'.increments && 1 <= n < s'.increments[c]
      ensures Placeholder(c, n) in Keys(s'.whereParams)
    {
      if c != column || n != Next(s, column) {
        assert c in s.increments && n < s.increments[c];
      }
    }
    ConditionContains(concat, table, column, comparator, p);
    forall i | 0 <= i < |s'.whereParams|
      ensures Contains(s'.where, s'.whereParams[i].0)
    {
      var k := Keys(s'.whereParams)[i];
      ContainsConcat(s.where, cond, k);
      if k != p {
        var j :| 0 <= j < |s.whereParams| && Keys(s.whereParams)[j] == k;
      }
    }
  }

  lemma WhereInInSync<V>(s: Session<V>, column: string, values: seq<V>, table: string, concat: string)
    requires InSync(s)
    ensures InSync(WhereIn(s, column, values, table, concat))
  {
    var s' := WhereIn(s, column, values, table, concat);
    var start := Next(s, column);
    var ps := Placeholders(column, start, |values|);
    var cond := InCondition(concat, table, column, ps);
    forall c, n | c in s'.increments && 1 <= n < s'.increments[c]
      ensures Placeholder(c, n) in Keys(s'.whereParams)
    {
      PutAllKeys(s.whereParams, ps, values, Placeholder(c, n));
      if c == column && |values| > 0 && n >= start {
        assert ps[n - start] == Placeholder(c, n);
      } else {
        assert c in s.increments && n < s.increments[c];
      }
    }
    forall i | 0 <= i < |s'.whereParams|
      ensures Contains(s'.where, s'.whereParams[i].0)
    {
      var k := Keys(s'.whereParams)[i];
      PutAllKeys(s.whereParams, ps, values, k);
      ContainsConcat(s.where, cond, k);
      if k in ps {
        var j :| 0 <= j < |ps| && ps[j] == k;
        InConditionContains(concat, table, column, ps, j);
      } else {
        var j :| 0 <= j < |s.whereParams| && Keys(s.whereParams)[j] == k;
      }
    }
  }

  /** The keys after two assignments: the earlier keys and the two assigned ones. */
  lemma PutTwiceKeys<V>(m: seq<(string, V)>, p1: string, v1: V, p2: string, v2: V)
    ensures forall k :: k in Keys(Put(Put(m, p1, v1), p2, v2)) <==> k in Keys(m) || k == p1 || k == p2
  {
    PutKeys(m, p1, v1);
    PutKeys(Put(m, p1, v1), p2, v2);
  }

  /** whereBetween() binds every placeholder issued so far. */
  lemma WhereBetweenIssuedBound<V>(s: Session<V>, column: string, value1: V, value2: V, table: string, concat: string)
    requires InSync(s)
    ensures var s' := WhereBetween(s, column, value1, value2, table, concat);
            forall c, n :: c in s'.increments && 1 <= n < s'.increments[c] ==> Placeholder(c, n) in Keys(s'.whereParams)
  {
    var s' := WhereBetween(s, column, value1, value2, table, concat);
    var n0 := Next(s, column);
    PutTwiceKeys(s.whereParams, Placeholder(column, n0), value1, Placeholder(column, n0 + 1), value2);
    forall c, n | c in s'.increments && 1 <= n < s'.increments[c]
      ensures Placeholder(c, n) in Keys(s'.whereParams)
    {
      if c != column || n < n0 {
        assert c in s.increments && n < s.increments[c];
      }
    }
  }

  /** whereBetween() writes every bound key in the WHERE text. */
  lemma WhereBetweenBoundWritten<V>(s: Session<V>, column: string, value1: V, value2: V, table: string, concat: string)
    requires InSync(s)
    ensures var s' := WhereBetween(s, column, value1, value2, table, concat);
            forall i :: 0 <= i < |s'.whereParams| ==> Contains(s'.where, s'.whereParams[i].0)
  {
    var s' := WhereBetween(s, column, value1, value2, table, concat);
    var n0 := Next(s, column);
    var p1 := Placeholder(column, n0);
    var p2 := Placeholder(column, n0 + 1);
    var cond := BetweenCondition(concat, column, p1, p2);
    PutTwiceKeys(s.whereParams, p1, value1, p2, value2);
    BetweenConditionContains(concat, column, p1, p2);
    forall i | 0 <= i < |s'.whereParams|
      ensures Contains(s'.where, s'.whereParams[i].0)
    {
      var k := Keys(s'.whereParams)[i];
      ContainsConcat(s.where, cond, k);
      assert k in Keys(s'.whereParams);
      if k != p1 && k != p2 {
        assert k in Keys(s.whereParams);
        var j :| 0 <= j < |s.whereParams| && Keys(s.whereParams)[j] == k;
      }
    }
  }

  lemma WhereBetweenInSync<V>(s: Session<V>, column: string, value1: V, value2: V, table: string, concat: string)
    requires InSync(s)
    ensures InSync(WhereBetween(s, column, value1, value2, table, concat))
  {
    WhereBetweenIssuedBound(s, column, value1, value2, table, concat);
    WhereBetweenBoundWritten(s, column, value1, value2, table, concat);
  }

  /** Both halves of the session invariant. */
  ghost predicate Consistent<V>(s: Session<V>)
  {
    Inv(s) && InSync(s)
  }

  lemma EmptyConsistent<V>()
    ensures Consistent(Empty<V>())
  {
    EmptyInv<V>();
    EmptyInSync<V>();
  }

  lemma WhereConsistent<V>(s: Session<V>, column: string, value: V, table: string, comparator: string, concat: string)
    ensures Consistent(s) ==> Consistent(Where(s, column, value, table, comparator, concat))
  {
    if Consistent(s) {
      WherePreservesInv(s, column, value, table, comparator, concat);
      WhereInSync(s, column, value, table, comparator, concat);
    }
  }

  lemma WhereInConsistent<V>(s: Session<V>, column: string, values: seq<V>, table: string, concat: string)
    ensures Consistent(s) ==> Consistent(WhereIn(s, column, values, table, concat))
  {
    if Consistent(s) {
      WhereInPreservesInv(s, column, values, table, concat);
      WhereInInSync(s, column, values, table, concat);
    }
  }

  lemma WhereBetweenConsistent<V>(s: Session<V>, column: string, value1: V, value2: V, table: string, concat: string)
    ensures Consistent(s) ==> Consistent(WhereBetween(s, column, value1, value2, table, concat))
  {
    if Consistent(s) {
      WhereBetweenPreservesInv(s, column, value1, value2, table, concat);
      WhereBetweenInSync(s, column, value1, value2, table, concat);
    }
  }
}
