/** Sequences of WHERE and join calls on one session object, for the properties that
    hold over the object's whole lifetime rather than for one call. */
module SessionRuns {
  import opened Strings
  import opened OrderedMap
  import opened WhereConditions
  import opened Joins

  /** One state-changing call: where() and every wrapper of it, whereIn() and its
      wrappers, whereBetween() and its wrappers, addJoin() and its aliases. */
  datatype Call<V> =
    | WhereCall(column: string, value: V, table: string, comparator: string, concat: string)
    | InCall(column: string, values: seq<V>, table: string, concat: string)
    | BetweenCall(column: string, low: V, high: V, table: string, concat: string)
    | JoinCall(joinTable: string, leftColumn: string, rightColumn: Option<string>, joinType: string)

  function Apply<V>(s: Session<V>, call: Call<V>): Session<V>
  {
    match call
    case WhereCall(c, v, t, cmp, cc) => Where(s, c, v, t, cmp, cc)
    case InCall(c, vs, t, cc) => WhereIn(s, c, vs, t, cc)
    case BetweenCall(c, lo, hi, t, cc) => WhereBetween(s, c, lo, hi, t, cc)
    case JoinCall(t, l, r, ty) => AddJoin(s, t, l, r, ty)
  }

  function Run<V>(s: Session<V>, calls: seq<Call<V>>): Session<V>
    decreases |calls|
  {
    if |calls| == 0 then s else Run(Apply(s, calls[0]), calls[1..])
  }

  /** The column a call allocates placeholders for, if any. */
  function CallColumn<V>(call: Call<V>): Option<string>
  {
    if call.JoinCall? then None else Some(call.column)
  }

  /** The placeholders one call allocates, in allocation order. */
  function Allocated<V>(s: Session<V>, call: Call<V>): seq<string>
  {
    match call
    case WhereCall(c, _, _, _, _) => [Placeholder(c, Next(s, c))]
    case InCall(c, vs, _, _) => Placeholders(c, Next(s, c), |vs|)
    case BetweenCall(c, _, _, _, _) => Placeholders(c, Next(s, c), 2)
    case JoinCall(_, _, _, _) => []
  }

  /** The values one call binds, in binding order. */
  function Bound<V>(call: Call<V>): seq<V>
  {
    match call
    case WhereCall(_, v, _, _, _) => [v]
    case InCall(_, vs, _, _) => vs
    case BetweenCall(_, lo, hi, _, _) => [lo, hi]
    case JoinCall(_, _, _, _) => []
  }

  /** Every placeholder allocated for one column along a run, in order. */
  function AllocatedFor<V>(s: Session<V>, calls: seq<Call<V>>, column: string): seq<string>
    decreases |calls|
  {
    if |calls| == 0 then []
    else (if CallColumn(calls[0]) == Some(column) then Allocated(s, calls[0]) else [])
         + AllocatedFor(Apply(s, calls[0]), calls[1..], column)
  }

  /** A call binds its values, in order, under exactly the placeholders it allocates. */
  lemma ApplyBinds<V>(s: Session<V>, call: Call<V>)
    ensures |Allocated(s, call)| == |Bound(call)|
    ensures Apply(s, call).whereParams == PutAll(s.whereParams, Allocated(s, call), Bound(call))
  {
    match call
    case WhereCall(c, v, _, _, _) =>
      assert PutAll(s.whereParams, Allocated(s, call), Bound(call))
          == Put(PutAll(s.whereParams, [], []), Placeholder(c, Next(s, c)), v);
    case InCall(_, _, _, _) =>
    case BetweenCall(c, lo, hi, _, _) =>
      var ps := Allocated(s, call);
      assert ps[..1] == [ps[0]] && [lo, hi][..1] == [lo];
      assert PutAll(s.whereParams, ps, [lo, hi]) == Put(PutAll(s.whereParams, [ps[0]], [lo]), ps[1], hi);
      assert PutAll(s.whereParams, [ps[0]], [lo]) == Put(PutAll(s.whereParams, [], []), ps[0], lo);
    case JoinCall(_, _, _, _) =>
  }

  /** A call moves the counter of its own column past what it allocated and leaves
      every other column's counter as it was. */
  lemma ApplyCounters<V>(s: Session<V>, call: Call<V>, column: string)
    ensures CallColumn(call) == Some(column) ==>
              Allocated(s, call) == Placeholders(column, Next(s, column), |Allocated(s, call)|)
              && Next(Apply(s, call), column) == Next(s, column) + |Allocated(s, call)|
    ensures CallColumn(call) != Some(column) ==> Next(Apply(s, call), column) == Next(s, column)
  {
  }

  lemma PlaceholdersConcat(column: string, start: nat, a: nat, b: nat)
    ensures Placeholders(column, start, a) + Placeholders(column, start + a, b) == Placeholders(column, start, a + b)
  {
  }

  /** Over any run, a column's counter never goes down, and the placeholders allocated
      for it are exactly the consecutive counters from where it started. */
  lemma {:induction false} RunAllocations<V>(s: Session<V>, calls: seq<Call<V>>, column: string)
    ensures Next(s, column) <= Next(Run(s, calls), column)
    ensures AllocatedFor(s, calls, column)
            == Placeholders(column, Next(s, column), Next(Run(s, calls), column) - Next(s, column))
    decreases |calls|
  {
    if |calls| > 0 {
      var s1 := Apply(s, calls[0]);
      ApplyCounters(s, calls[0], column);
      RunAllocations(s1, calls[1..], column);
      var mine := if CallColumn(calls[0]) == Some(column) then Allocated(s, calls[0]) else [];
      PlaceholdersConcat(column, Next(s, column), |mine|, Next(Run(s1, calls[1..]), column) - Next(s1, column));
    }
  }

  /** Placeholders allocated for the same column are pairwise distinct over the
      object's whole lifetime. */
  lemma LifetimePlaceholdersDistinct<V>(s: Session<V>, calls: seq<Call<V>>, column: string)
    ensures Distinct(AllocatedFor(s, calls, column))
  {
    RunAllocations(s, calls, column);
    PlaceholdersDistinct(column, Next(s, column), Next(Run(s, calls), column) - Next(s, column));
  }

  /** The session invariant holds after every sequence of calls. */
  lemma {:induction false} RunPreservesInv<V>(s: Session<V>, calls: seq<Call<V>>)
    requires Inv(s)
    ensures Inv(Run(s, calls))
    decreases |calls|
  {
    if |calls| > 0 {
      match calls[0] {
        case WhereCall(c, v, t, cmp, cc) => WherePreservesInv(s, c, v, t, cmp, cc);
        case InCall(c, vs, t, cc) => WhereInPreservesInv(s, c, vs, t, cc);
        case BetweenCall(c, lo, hi, t, cc) => WhereBetweenPreservesInv(s, c, lo, hi, t, cc);
        case JoinCall(t, l, r, ty) => AddJoinEffect(s, t, l, r, ty);
      }
      RunPreservesInv(Apply(s, calls[0]), calls[1..]);
    }
  }

  /** Every sequence of calls keeps every issued placeholder bound and every bound key
      occurring as a substring of the WHERE text. */
  lemma {:induction false} RunInSync<V>(s: Session<V>, calls: seq<Call<V>>)
    requires InSync(s)
    ensures InSync(Run(s, calls))
    decreases |calls|
  {
    if |calls| > 0 {
      match calls[0] {
        case WhereCall(c, v, t, cmp, cc) => WhereInSync(s, c, v, t, cmp, cc);
        case InCall(c, vs, t, cc) => WhereInInSync(s, c, vs, t, cc);
        case BetweenCall(c, lo, hi, t, cc) => WhereBetweenInSync(s, c, lo, hi, t, cc);
        case JoinCall(t, l, r, ty) => AddJoinEffect(s, t, l, r, ty);
      }
      RunInSync(Apply(s, calls[0]), calls[1..]);
    }
  }

  /** In every session reached from a fresh object, the bindings and the WHERE text
      stay in step: a key is bound exactly when it is a placeholder handed out so far,
      and every bound key occurs as a substring of the WHERE text. */
  lemma ReachableBindings<V>(calls: seq<Call<V>>, k: string)
    ensures var s := Run(Empty<V>(), calls);
            && (k in Keys(s.whereParams) <==> Issued(s, k))
            && (k in Keys(s.whereParams) ==> Contains(s.where, k))
  {
    EmptyInv<V>();
    EmptyInSync<V>();
    RunPreservesInv(Empty<V>(), calls);
    RunInSync(Empty<V>(), calls);
    var s := Run(Empty<V>(), calls);
    if k in Keys(s.whereParams) {
      var i :| 0 <= i < |s.whereParams| && Keys(s.whereParams)[i] == k;
    }
    if Issued(s, k) {
      var c, n :| c in s.increments && 1 <= n < s.increments[c] && k == Placeholder(c, n);
    }
  }

  /** The fragments of the join calls of a run, in call order. */
  function JoinFragments<V>(calls: seq<Call<V>>): seq<string>
    decreases |calls|
  {
    if |calls| == 0 then []
    else (match calls[0]
          case JoinCall(t, l, r, ty) => [JoinFragment(ty, t, l, r)]
          case _ => [])
         + JoinFragments(calls[1..])
  }

  /** The joins of a session are its earlier joins followed by one fragment per join
      call, in insertion order; WHERE calls add none. */
  lemma {:induction false} RunJoins<V>(s: Session<V>, calls: seq<Call<V>>)
    ensures Run(s, calls).joins == s.joins + JoinFragments(calls)
    decreases |calls|
  {
    if |calls| > 0 {
      RunJoins(Apply(s, calls[0]), calls[1..]);
    }
  }

  function WithoutJoins<V>(calls: seq<Call<V>>): seq<Call<V>>
    decreases |calls|
  {
    if |calls| == 0 then []
    else (if calls[0].JoinCall? then [] else [calls[0]]) + WithoutJoins(calls[1..])
  }

  ghost predicate SameClauses<V>(a: Session<V>, b: Session<V>)
  {
    a.increments == b.increments && a.where == b.where && a.whereParams == b.whereParams
  }

  /** The same call on two sessions with the same clauses gives sessions with the same
      clauses; a join call does not change them at all. */
  lemma ApplyClauses<V>(s1: Session<V>, s2: Session<V>, call: Call<V>)
    requires SameClauses(s1, s2)
    ensures SameClauses(Apply(s1, call), Apply(s2, call))
    ensures call.JoinCall? ==> SameClauses(Apply(s1, call), s2)
  {
    match call
    case WhereCall(c, v, t, cmp, cc) =>
      assert Where(s1, c, v, t, cmp, cc).whereParams == Where(s2, c, v, t, cmp, cc).whereParams;
    case InCall(c, vs, t, cc) =>
      assert WhereIn(s1, c, vs, t, cc).whereParams == WhereIn(s2, c, vs, t, cc).whereParams;
    case BetweenCall(c, lo, hi, t, cc) =>
      assert WhereBetween(s1, c, lo, hi, t, cc).whereParams == WhereBetween(s2, c, lo, hi, t, cc).whereParams;
    case JoinCall(_, _, _, _) =>
  }

  /** No join call touches the WHERE text, the bindings or the counters: dropping every
      join call from a run leaves those three exactly as they were. */
  lemma {:induction false} JoinsDoNotTouchClauses<V>(s1: Session<V>, s2: Session<V>, calls: seq<Call<V>>)
    requires SameClauses(s1, s2)
    ensures SameClauses(Run(s1, calls), Run(s2, WithoutJoins(calls)))
    decreases |calls|
  {
    if |calls| > 0 {
      var rest := calls[1..];
      ApplyClauses(s1, s2, calls[0]);
      if calls[0].JoinCall? {
        assert WithoutJoins(calls) == WithoutJoins(rest);
        JoinsDoNotTouchClauses(Apply(s1, calls[0]), s2, rest);
      } else {
        var kept := WithoutJoins(rest);
        assert WithoutJoins(calls) == [calls[0]] + kept;
        assert ([calls[0]] + kept)[1..] == kept;
        JoinsDoNotTouchClauses(Apply(s1, calls[0]), Apply(s2, calls[0]), rest);
      }
    }
  }
}
