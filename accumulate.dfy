/** The column accumulator of `run`: one type slot and one constraint slot
    per column, widened field by field over the records, then finalised.
    `InferColumns` is the in-place loop; `FoldType`, `FoldConstraint` and
    `Infer` are its specification, and the lemmas say what they compute. */
module Accumulate {
  import opened Wrappers
  import opened Schema
  import opened Classify

  /** One step of the type slot: replace it when the field's type is
      strictly greater. */
  function JoinType(acc: ColumnType, t: ColumnType): (r: ColumnType)
    ensures r == acc || r == t
    ensures TypeRank(r) >= TypeRank(acc) && TypeRank(r) >= TypeRank(t)
  {
    if TypeRank(t) > TypeRank(acc) then t else acc
  }

  /** One step of the constraint slot, in the same way. */
  function JoinConstraint(acc: ColumnConstraint, c: ColumnConstraint): (r: ColumnConstraint)
    ensures r == acc || r == c
    ensures ConstraintRank(r) >= ConstraintRank(acc) && ConstraintRank(r) >= ConstraintRank(c)
  {
    if ConstraintRank(c) > ConstraintRank(acc) then c else acc
  }

  /** The fields of column `j`, in record order (a record too short to
      have one, which the accumulator never folds, contributes `""`). */
  function ColumnOf(rows: seq<seq<string>>, j: nat): (fields: seq<string>)
  {
    seq(|rows|, k requires 0 <= k < |rows| => if j < |rows[k]| then rows[k][j] else "")
  }

  /** The type slot after folding `fields` in order, starting from Unknown. */
  function FoldType(fields: seq<string>, o: Oracles): ColumnType
    decreases |fields|
  {
    if fields == [] then Unknown
    else JoinType(FoldType(fields[..|fields| - 1], o), FindType(fields[|fields| - 1], o))
  }

  /** The constraint slot after folding `fields` in order, starting from Nullable. */
  function FoldConstraint(fields: seq<string>, nullAs: string): ColumnConstraint
    decreases |fields|
  {
    if fields == [] then Nullable
    else JoinConstraint(FoldConstraint(fields[..|fields| - 1], nullAs), FindConstraint(fields[|fields| - 1], nullAs))
  }

  /** Finalisation: a column that never saw a typed value becomes Text. */
  function FinalType(t: ColumnType): (r: ColumnType)
    ensures r != Unknown
    ensures t != Unknown ==> r == t
  {
    if t == Unknown then Text else t
  }

  /** The index of the first record whose length is not `n`, if any. */
  function FirstUnequal(rows: seq<seq<string>>, n: nat): (r: Option<nat>)
    ensures r.None? <==> forall k :: 0 <= k < |rows| ==> |rows[k]| == n
    ensures r.Some? ==> r.value < |rows| && |rows[r.value]| != n
    ensures r.Some? ==> forall k :: 0 <= k < r.value ==> |rows[k]| == n
  {
    if rows == [] then None
    else if |rows[0]| != n then Some(0)
    else match FirstUnequal(rows[1..], n)
      case None => None
      case Some(k) => Some(k + 1)
  }

  /** The `n` type slots after folding `rows`. */
  function TypeSlots(rows: seq<seq<string>>, n: nat, o: Oracles): seq<ColumnType>
  {
    seq(n, j requires 0 <= j < n => FoldType(ColumnOf(rows, j), o))
  }

  /** The `n` constraint slots after folding `rows`. */
  function ConstraintSlots(rows: seq<seq<string>>, n: nat, nullAs: string): seq<ColumnConstraint>
  {
    seq(n, j requires 0 <= j < n => FoldConstraint(ColumnOf(rows, j), nullAs))
  }

  /** The final `map` over the type vector. */
  function Finalize(types: seq<ColumnType>): (r: seq<ColumnType>)
    ensures |r| == |types|
    ensures forall j :: 0 <= j < |r| ==> r[j] != Unknown && (types[j] != Unknown ==> r[j] == types[j])
  {
    seq(|types|, j requires 0 <= j < |types| => FinalType(types[j]))
  }

  datatype Inference = Inference(types: seq<ColumnType>, constraints: seq<ColumnConstraint>)

  /** What the accumulator yields for the records it folds: the csv reader's
      arity error at the first record of the wrong length, otherwise each
      column's finalised type and its constraint. */
  function Infer(rows: seq<seq<string>>, n: nat, nullAs: string, o: Oracles): (res: Result<Inference, Error>)
    ensures res.Success? <==> forall k :: 0 <= k < |rows| ==> |rows[k]| == n
    ensures res.Success? ==> |res.value.types| == n && |res.value.constraints| == n
    ensures res.Success? ==> forall j :: 0 <= j < n ==> res.value.types[j] != Unknown
  {
    match FirstUnequal(rows, n)
    case Some(k) => Failure(UnequalLengths(n, |rows[k]|))
    case None => Success(Inference(Finalize(TypeSlots(rows, n, o)), ConstraintSlots(rows, n, nullAs)))
  }

  /** The inference loop of `run`: two vectors of `n` slots, updated in
      place record by record and field by field. */
  method InferColumns(rows: seq<seq<string>>, n: nat, nullAs: string, o: Oracles)
    returns (res: Result<Inference, Error>)
    ensures res == Infer(rows, n, nullAs, o)
  {
    var types := new ColumnType[n](_ => Unknown);
    var constraints := new ColumnConstraint[n](_ => Nullable);
    var r := 0;
    while r < |rows|
      invariant 0 <= r <= |rows|
      invariant forall k :: 0 <= k < r ==> |rows[k]| == n
      invariant types[..] == TypeSlots(rows[..r], n, o)
      invariant constraints[..] == ConstraintSlots(rows[..r], n, nullAs)
    {
      var record := rows[r];
      if |record| != n {
        res := Failure(UnequalLengths(n, |record|));
        assert FirstUnequal(rows, n) == Some(r);
        return;
      }
      ExtendRecords(rows, r, n, nullAs, o);
      FoldRecord(types, constraints, record, nullAs, o);
      r := r + 1;
    }
    assert rows[..r] == rows;
    res := Success(Inference(Finalize(types[..]), constraints[..]));
    assert FirstUnequal(rows, n) == None;
  }

  /** The type slots after the first `i` fields of `record` have each
      widened their own slot. */
  function WidenTypes(slots: seq<ColumnType>, record: seq<string>, i: nat, o: Oracles): (r: seq<ColumnType>)
    requires |slots| == |record|
    ensures |r| == |slots|
  {
    seq(|slots|, j requires 0 <= j < |slots| => if j < i then JoinType(slots[j], FindType(record[j], o)) else slots[j])
  }

  /** The constraint slots after the first `i` fields of `record`. */
  function WidenConstraints(slots: seq<ColumnConstraint>, record: seq<string>, i: nat, nullAs: string): (r: seq<ColumnConstraint>)
    requires |slots| == |record|
    ensures |r| == |slots|
  {
    seq(|slots|, j requires 0 <= j < |slots| => if j < i then JoinConstraint(slots[j], FindConstraint(record[j], nullAs)) else slots[j])
  }

  /** The inner loop of `run`: every field of one record widens its
      column's two slots in place. */
  method FoldRecord(types: array<ColumnType>, constraints: array<ColumnConstraint>,
                    record: seq<string>, nullAs: string, o: Oracles)
    requires types.Length == constraints.Length == |record|
    modifies types, constraints
    ensures types[..] == WidenTypes(old(types[..]), record, |record|, o)
    ensures constraints[..] == WidenConstraints(old(constraints[..]), record, |record|, nullAs)
  {
    ghost var types0, constraints0 := types[..], constraints[..];
    var i := 0;
    while i < |record|
      invariant 0 <= i <= |record|
      invariant types[..] == WidenTypes(types0, record, i, o)
      invariant constraints[..] == WidenConstraints(constraints0, record, i, nullAs)
    {
      var field := record[i];
      var fieldType := FindType(field, o);
      if TypeRank(fieldType) > TypeRank(types[i]) {
        types[i] := fieldType;
      }
      var fieldConstraint := FindConstraint(field, nullAs);
      if ConstraintRank(fieldConstraint) > ConstraintRank(constraints[i]) {
        constraints[i] := fieldConstraint;
      }
      i := i + 1;
    }
  }

  /** Folding one more record widens every slot by one join step. */
  lemma ExtendRecords(rows: seq<seq<string>>, r: nat, n: nat, nullAs: string, o: Oracles)
    requires r < |rows| && |rows[r]| == n
    ensures TypeSlots(rows[..r + 1], n, o) == WidenTypes(TypeSlots(rows[..r], n, o), rows[r], n, o)
    ensures ConstraintSlots(rows[..r + 1], n, nullAs) == WidenConstraints(ConstraintSlots(rows[..r], n, nullAs), rows[r], n, nullAs)
  {
    forall j | 0 <= j < n
      ensures TypeSlots(rows[..r + 1], n, o)[j] == JoinType(TypeSlots(rows[..r], n, o)[j], FindType(rows[r][j], o))
      ensures ConstraintSlots(rows[..r + 1], n, nullAs)[j] == JoinConstraint(ConstraintSlots(rows[..r], n, nullAs)[j], FindConstraint(rows[r][j], nullAs))
    {
      var col := ColumnOf(rows[..r + 1], j);
      assert col[..r] == ColumnOf(rows[..r], j);
      assert col[r] == rows[r][j];
    }
  }

  // ----- The type slot is the maximum of the classified fields -----

  /** The folded type is an upper bound of every field's type and is either
      Unknown or one of them: it is their maximum. */
  lemma {:induction false} FoldTypeIsMax(fields: seq<string>, o: Oracles)
    ensures forall k :: 0 <= k < |fields| ==> TypeRank(FindType(fields[k], o)) <= TypeRank(FoldType(fields, o))
    ensures FoldType(fields, o) == Unknown || exists k :: 0 <= k < |fields| && FoldType(fields, o) == FindType(fields[k], o)
    decreases |fields|
  {
    if fields != [] {
      var init := fields[..|fields| - 1];
      FoldTypeIsMax(init, o);
      assert forall k :: 0 <= k < |init| ==> init[k] == fields[k];
      if FoldType(fields, o) != Unknown && FoldType(fields, o) == FoldType(init, o) {
        var k :| 0 <= k < |init| && FoldType(init, o) == FindType(init[k], o);
        assert FoldType(fields, o) == FindType(fields[k], o);
      }
    }
  }

  /** The type slot never decreases: each prefix folds to a type no wider
      than the whole. */
  lemma {:induction false} FoldTypeMonotone(fields: seq<string>, m: nat, o: Oracles)
    requires m <= |fields|
    ensures TypeRank(FoldType(fields[..m], o)) <= TypeRank(FoldType(fields, o))
    decreases |fields|
  {
    if m < |fields| {
      var init := fields[..|fields| - 1];
      assert init[..m] == fields[..m];
      FoldTypeMonotone(init, m, o);
    } else {
      assert fields[..m] == fields;
    }
  }

  /** The folded type depends only on which values occur, not on their
      order or how often they occur. */
  lemma FoldTypeSameValues(fields: seq<string>, others: seq<string>, o: Oracles)
    requires forall f :: f in fields <==> f in others
    ensures FoldType(fields, o) == FoldType(others, o)
  {
    FoldTypeIsMax(fields, o);
    FoldTypeIsMax(others, o);
    var a, b := FoldType(fields, o), FoldType(others, o);
    if a != Unknown {
      var k :| 0 <= k < |fields| && a == FindType(fields[k], o);
      assert fields[k] in others;
    }
    if b != Unknown {
      var k :| 0 <= k < |others| && b == FindType(others[k], o);
      assert others[k] in fields;
    }
    RanksAreTotalOrders(a, b, Nullable, Nullable);
  }

  /** In particular the folded type does not depend on the order of the
      records. */
  lemma FoldTypeOrderIndependent(fields: seq<string>, others: seq<string>, o: Oracles)
    requires multiset(fields) == multiset(others)
    ensures FoldType(fields, o) == FoldType(others, o)
  {
    assert forall f :: f in fields <==> f in multiset(others);
    FoldTypeSameValues(fields, others, o);
  }

  /** After finalisation no column is Unknown; it is Text exactly when every
      field was empty or some field classified as Text, and any other type is
      the maximum of the fields' types unchanged. */
  lemma FinalTypeOfColumn(fields: seq<string>, o: Oracles)
    ensures FinalType(FoldType(fields, o)) != Unknown
    ensures FinalType(FoldType(fields, o)) == Text <==>
      (forall k :: 0 <= k < |fields| ==> fields[k] == "") || (exists k :: 0 <= k < |fields| && FindType(fields[k], o) == Text)
    ensures FinalType(FoldType(fields, o)) != Text ==> FinalType(FoldType(fields, o)) == FoldType(fields, o)
  {
    FoldTypeIsMax(fields, o);
  }

  // ----- The constraint slot -----

  /** A column stays Nullable exactly when every field equals the sentinel:
      a single other field makes it NotNull. */
  lemma {:induction false} FoldConstraintNullable(fields: seq<string>, nullAs: string)
    ensures FoldConstraint(fields, nullAs) == Nullable <==> forall k :: 0 <= k < |fields| ==> fields[k] == nullAs
    decreases |fields|
  {
    if fields != [] {
      var init := fields[..|fields| - 1];
      FoldConstraintNullable(init, nullAs);
      assert forall k :: 0 <= k < |init| ==> init[k] == fields[k];
    }
  }

  /** Like the type, the folded constraint depends only on which values occur. */
  lemma FoldConstraintSameValues(fields: seq<string>, others: seq<string>, nullAs: string)
    requires forall f :: f in fields <==> f in others
    ensures FoldConstraint(fields, nullAs) == FoldConstraint(others, nullAs)
  {
    FoldConstraintNullable(fields, nullAs);
    FoldConstraintNullable(others, nullAs);
    if FoldConstraint(fields, nullAs) == Nullable {
      forall k | 0 <= k < |others| ensures others[k] == nullAs {
        assert others[k] in fields;
      }
    }
    if FoldConstraint(others, nullAs) == Nullable {
      forall k | 0 <= k < |fields| ensures fields[k] == nullAs {
        assert fields[k] in others;
      }
    }
  }

  /** Once NotNull, the constraint slot never returns to Nullable. */
  lemma FoldConstraintSticky(fields: seq<string>, m: nat, nullAs: string)
    requires m <= |fields|
    requires FoldConstraint(fields[..m], nullAs) == NotNull
    ensures FoldConstraint(fields, nullAs) == NotNull
  {
    FoldConstraintNullable(fields[..m], nullAs);
    FoldConstraintNullable(fields, nullAs);
    var k :| 0 <= k < m && fields[..m][k] != nullAs;
  }

  /** The sentinel examples: `["1", "", "3"]` is NotNull, `["", "", ""]` is
      Nullable, with the default sentinel `""`. */
  lemma FoldConstraintExamples()
    ensures FoldConstraint(["1", "", "3"], "") == NotNull
    ensures FoldConstraint(["", "", ""], "") == Nullable
  {
    FoldConstraintNullable(["1", "", "3"], "");
    FoldConstraintNullable(["", "", ""], "");
  }

  // ----- The accumulator as a whole -----

  /** Records with the same members give columns with the same members. */
  lemma ColumnValuesAgree(rows: seq<seq<string>>, others: seq<seq<string>>, j: nat)
    requires forall r :: r in rows <==> r in others
    ensures forall f :: f in ColumnOf(rows, j) <==> f in ColumnOf(others, j)
  {
    var a, b := ColumnOf(rows, j), ColumnOf(others, j);
    forall f | f in a ensures f in b {
      var k :| 0 <= k < |a| && a[k] == f;
      assert rows[k] in others;
      var k' :| 0 <= k' < |others| && others[k'] == rows[k];
      assert b[k'] == f;
    }
    forall f | f in b ensures f in a {
      var k :| 0 <= k < |b| && b[k] == f;
      assert others[k] in rows;
      var k' :| 0 <= k' < |rows| && rows[k'] == others[k];
      assert a[k'] == f;
    }
  }

  /** Records with the same members either all have length `n` or not. */
  lemma SameArity(rows: seq<seq<string>>, others: seq<seq<string>>, n: nat)
    requires forall r :: r in rows <==> r in others
    ensures FirstUnequal(rows, n).None? <==> FirstUnequal(others, n).None?
  {
    if FirstUnequal(rows, n).None? {
      forall k | 0 <= k < |others| ensures |others[k]| == n {
        assert others[k] in rows;
      }
    }
    if FirstUnequal(others, n).None? {
      forall k | 0 <= k < |rows| ensures |rows[k]| == n {
        assert rows[k] in others;
      }
    }
  }

  /** Reordering the folded records changes neither whether inference
      succeeds nor, when it does, any column's type or constraint. */
  lemma InferOrderIndependent(rows: seq<seq<string>>, others: seq<seq<string>>, n: nat, nullAs: string, o: Oracles)
    requires multiset(rows) == multiset(others)
    ensures Infer(rows, n, nullAs, o).Success? <==> Infer(others, n, nullAs, o).Success?
    ensures Infer(rows, n, nullAs, o).Success? ==> Infer(rows, n, nullAs, o) == Infer(others, n, nullAs, o)
  {
    assert forall r :: r in rows <==> r in multiset(others);
    SameArity(rows, others, n);
    forall j | 0 <= j < n
      ensures FoldType(ColumnOf(rows, j), o) == FoldType(ColumnOf(others, j), o)
      ensures FoldConstraint(ColumnOf(rows, j), nullAs) == FoldConstraint(ColumnOf(others, j), nullAs)
    {
      ColumnValuesAgree(rows, others, j);
      FoldTypeSameValues(ColumnOf(rows, j), ColumnOf(others, j), o);
      FoldConstraintSameValues(ColumnOf(rows, j), ColumnOf(others, j), nullAs);
    }
    assert TypeSlots(rows, n, o) == TypeSlots(others, n, o);
    assert ConstraintSlots(rows, n, nullAs) == ConstraintSlots(others, n, nullAs);
  }

  /** What the accumulator makes of a column with these fields: a type that
      is never Unknown, bounds every field's type, is Text exactly when the
      fields are all empty or one is Text, and otherwise is the type of one
      of the fields, so the widest of them. */
  predicate IsColumnType(fields: seq<string>, t: ColumnType, o: Oracles)
  {
    && t != Unknown
    && (forall k :: 0 <= k < |fields| ==> TypeRank(FindType(fields[k], o)) <= TypeRank(t))
    && (t == Text <==>
          (forall k :: 0 <= k < |fields| ==> fields[k] == "") || (exists k :: 0 <= k < |fields| && FindType(fields[k], o) == Text))
    && (t == Text || exists k :: 0 <= k < |fields| && FindType(fields[k], o) == t)
  }

  /** A column's constraint: Nullable exactly when every field is the sentinel. */
  predicate IsColumnConstraint(fields: seq<string>, c: ColumnConstraint, nullAs: string)
  {
    c == Nullable <==> forall k :: 0 <= k < |fields| ==> fields[k] == nullAs
  }

  /** The accumulator fails exactly when a folded record has the wrong
      length; otherwise it has `n` slots, and the `j`-th type and constraint
      are what `IsColumnType` and `IsColumnConstraint` say of column `j`,
      whose `k`-th field is `rows[k][j]`. */
  lemma InferOutcome(rows: seq<seq<string>>, n: nat, nullAs: string, o: Oracles)
    ensures Infer(rows, n, nullAs, o).Failure? <==> exists k :: 0 <= k < |rows| && |rows[k]| != n
    ensures Infer(rows, n, nullAs, o).Success? ==>
      var inf := Infer(rows, n, nullAs, o).value;
      && |inf.types| == n && |inf.constraints| == n
      && forall j :: 0 <= j < n ==>
        && (forall k :: 0 <= k < |rows| ==> ColumnOf(rows, j)[k] == rows[k][j])
        && IsColumnType(ColumnOf(rows, j), inf.types[j], o)
        && IsColumnConstraint(ColumnOf(rows, j), inf.constraints[j], nullAs)
  {
    if Infer(rows, n, nullAs, o).Success? {
      var inf := Infer(rows, n, nullAs, o).value;
      forall j | 0 <= j < n
        ensures IsColumnType(ColumnOf(rows, j), inf.types[j], o)
        ensures IsColumnConstraint(ColumnOf(rows, j), inf.constraints[j], nullAs)
      {
        var col := ColumnOf(rows, j);
        FoldTypeIsMax(col, o);
        FinalTypeOfColumn(col, o);
        FoldConstraintNullable(col, nullAs);
      }
    }
  }
}
