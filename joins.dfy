/** The join composer, src/Joins.php, as functions on the session's value. */
module Joins {
  import opened OrderedMap
  import opened WhereConditions

  datatype JoinType = Inner | Left | Right | FullOuter

  /** The $type text each public alias passes to addJoin(). */
  function TypeText(t: JoinType): string
  {
    match t
    case Inner => "INNER"
    case Left => "LEFT"
    case Right => "RIGHT"
    case FullOuter => "FULL OUTER"
  }

  /** "{type} JOIN `{table}` ON `#$MAINTABLE$#`.`{left}` = `{table}`.`{right}`",
      where a null right column stands for the left one. */
  function JoinFragment(joinType: string, table: string, leftColumn: string, rightColumn: Option<string>): string
  {
    joinType + " JOIN `" + table + "` ON `" + MainTable + "`.`" + leftColumn + "` = "
    + "`" + table + "`.`" + (if rightColumn.Some? then rightColumn.value else leftColumn) + "`"
  }

  /** addJoin(): one more fragment at the end; the scratch string is cleared. */
  function AddJoin<V>(s: Session<V>, table: string, leftColumn: string, rightColumn: Option<string>, joinType: string): Session<V>
  {
    s.(joins := s.joins + [JoinFragment(joinType, table, leftColumn, rightColumn)], join := "")
  }

  /** Omitting the right column joins on the same column name in both tables. */
  lemma DefaultRightColumn(joinType: string, table: string, leftColumn: string)
    ensures JoinFragment(joinType, table, leftColumn, None) == JoinFragment(joinType, table, leftColumn, Some(leftColumn))
  {
  }

  /** addJoin() appends exactly one fragment after the earlier ones, empties the
      scratch string, and leaves the WHERE text, the bindings and the counters alone;
      so it keeps both halves of the session invariant. */
  lemma AddJoinEffect<V>(s: Session<V>, table: string, leftColumn: string, rightColumn: Option<string>, joinType: string)
    ensures var s' := AddJoin(s, table, leftColumn, rightColumn, joinType);
            && |s'.joins| == |s.joins| + 1
            && s'.joins[..|s.joins|] == s.joins
            && s'.joins[|s.joins|] == JoinFragment(joinType, table, leftColumn, rightColumn)
            && s'.join == ""
            && s'.where == s.where && s'.whereParams == s.whereParams && s'.increments == s.increments
            && (Inv(s) ==> Inv(s'))
            && (InSync(s) ==> InSync(s'))
  {
    var s' := AddJoin(s, table, leftColumn, rightColumn, joinType);
    assert s'.joins[..|s.joins|] == s.joins;
    if Inv(s) {
      forall i | 0 <= i < |s'.whereParams|
        ensures Issued(s', s'.whereParams[i].0)
      {
        IssuedMonotone(s, s', s.whereParams[i].0);
      }
    }
  }
}
