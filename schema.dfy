/** The data model: the two ordered enumerations that drive inference,
    the assembled column and table, and the kinds of error a run can end in. */
module Schema {

  /** Column types in declaration order; Rust derives `PartialOrd` from that
      order, so later variants are wider. */
  datatype ColumnType = Unknown | Boolean | Integer | Numeric | Date | Timestamp | Text

  /** `Nullable < NotNull`, again by declaration order. */
  datatype ColumnConstraint = Nullable | NotNull

  /** The declaration-order rank that the derived comparison uses. */
  function TypeRank(t: ColumnType): (r: nat)
    ensures r <= 6
    ensures r == 0 <==> t == Unknown
    ensures r == 6 <==> t == Text
  {
    match t
    case Unknown => 0
    case Boolean => 1
    case Integer => 2
    case Numeric => 3
    case Date => 4
    case Timestamp => 5
    case Text => 6
  }

  function ConstraintRank(c: ColumnConstraint): (r: nat)
    ensures r <= 1
    ensures r == 0 <==> c == Nullable
  {
    match c
    case Nullable => 0
    case NotNull => 1
  }

  /** Ranks tell variants apart, so comparing ranks is a total order on each
      enumeration, and they follow declaration order: `Unknown` least, then
      `Boolean`, `Integer`, `Numeric`, `Date`, `Timestamp`, and `Text`
      greatest. */
  lemma RanksAreTotalOrders(s: ColumnType, t: ColumnType, a: ColumnConstraint, b: ColumnConstraint)
    ensures TypeRank(s) == TypeRank(t) ==> s == t
    ensures TypeRank(Unknown) <= TypeRank(t) <= TypeRank(Text)
    ensures ConstraintRank(a) == ConstraintRank(b) ==> a == b
    ensures TypeRank(Unknown) < TypeRank(Boolean) < TypeRank(Integer) < TypeRank(Numeric)
      < TypeRank(Date) < TypeRank(Timestamp) < TypeRank(Text)
    ensures ConstraintRank(Nullable) < ConstraintRank(NotNull)
  {
  }

  datatype Column = Column(name: string, ctype: ColumnType, constraint: ColumnConstraint)

  datatype Table = Table(name: string, columns: seq<Column>)

  /** Why a run produces no statement. */
  datatype Error =
    | NoRecords                                  // no data record to read
    | ColumnsMismatch                            // the `--columns` length check
    | UnequalLengths(expected: nat, len: nat)    // the csv reader's arity error
    | Panic                                      // `unwrap` on a path without a file stem
}
