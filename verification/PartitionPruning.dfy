/**
 Scanning a partitioned in-memory table: only the batches of the partitions that the
 filters mention are read, and the query engine applies all filters again afterwards.
 */
module PartitionPruning {
  import opened Base
  import opened Sequences

  datatype IntType = I8 | I16 | I32 | I64 | U8 | U16 | U32 | U64

  /** A literal; integers may be NULL. */
  datatype Scalar = Int(kind: IntType, value: Option<int>) | Text(text: string)

  datatype Operator = Eq | OtherOperator(symbol: string)

  datatype Expr =
    | Column(name: string)
    | Literal(scalar: Scalar)
    | Binary(left: Expr, op: Operator, right: Expr)
    | InList(expr: Expr, list: seq<Expr>, negated: bool)
    | OtherExpr(description: string)

  const PARTITION := Column("_partition")

  /** The low 32 bits as a signed number, which is what `as i32` keeps. */
  function WrapI32(v: int): (r: int)
    ensures MIN_I32 <= r <= MAX_I32
    ensures MIN_I32 <= v <= MAX_I32 ==> r == v
  {
    (v + 0x8000_0000) % 0x1_0000_0000 - 0x8000_0000
  }

  function ScalarToI32(s: Scalar): Option<int> {
    match s
    case Int(kind, Some(v)) =>
      (match kind
       case I32 => Some(v)
       case I64 => Some(WrapI32(v))
       case U32 => Some(WrapI32(v))
       case I16 => Some(v)
       case I8 => Some(v)
       case _ => None)
    case _ => None
  }

  /** What one value of an IN list contributes. */
  function ElementTargets(e: Expr): seq<int> {
    if e.Literal? && ScalarToI32(e.scalar).Some? then [ScalarToI32(e.scalar).value] else []
  }

  function ListTargets(list: seq<Expr>): seq<int> {
    if list == [] then [] else ListTargets(list[..|list| - 1]) + ElementTargets(list[|list| - 1])
  }

  function FilterTargets(f: Expr): seq<int> {
    match f
    case Binary(left, op, right) =>
      if op == Eq && left == PARTITION then ElementTargets(right)
      else if op == Eq && right == PARTITION then ElementTargets(left)
      else []
    case InList(expr, list, negated) => if expr == PARTITION && !negated then ListTargets(list) else []
    case _ => []
  }

  function Targets(filters: seq<Expr>): seq<int> {
    if filters == [] then [] else Targets(filters[..|filters| - 1]) + FilterTargets(filters[|filters| - 1])
  }

  /** `extract_partition_filters`, with its two mirrored equality tests. */
  method ExtractPartitionFilters(filters: seq<Expr>) returns (partitions: seq<int>)
    ensures partitions == Targets(filters)
  {
    partitions := [];
    for i := 0 to |filters|
      invariant partitions == Targets(filters[..i])
    {
      assert filters[..i + 1][..i] == filters[..i];
      match filters[i] {
        case Binary(left, op, right) =>
          if left.Column? && right.Literal? && left.name == "_partition" && op == Eq && ScalarToI32(right.scalar).Some? {
            partitions := partitions + [ScalarToI32(right.scalar).value];
          }
          if left.Literal? && right.Column? && right.name == "_partition" && op == Eq && ScalarToI32(left.scalar).Some? {
            partitions := partitions + [ScalarToI32(left.scalar).value];
          }
        case InList(expr, list, negated) =>
          if expr.Column? && expr.name == "_partition" && !negated {
            var found := ExtractList(list);
            partitions := partitions + found;
          }
        case Column(_) =>
        case Literal(_) =>
        case OtherExpr(_) =>
      }
      assert Targets(filters[..i + 1]) == Targets(filters[..i]) + FilterTargets(filters[i]);
    }
    assert filters[..|filters|] == filters;
  }

  method ExtractList(list: seq<Expr>) returns (found: seq<int>)
    ensures found == ListTargets(list)
  {
    found := [];
    for i := 0 to |list|
      invariant found == ListTargets(list[..i])
    {
      assert list[..i + 1][..i] == list[..i];
      if list[i].Literal? && ScalarToI32(list[i].scalar).Some? {
        found := found + [ScalarToI32(list[i].scalar).value];
      }
    }
    assert list[..|list|] == list;
  }

  // ---- What the query means ----

  datatype Row = Row(partition: int, payload: string)

  /** Row batches by partition; every row carries its partition's number. */
  type Table = map<int, seq<Row>>

  predicate Consistent(t: Table) {
    forall p :: p in t ==> MIN_I32 <= p <= MAX_I32 && forall i :: 0 <= i < |t[p]| ==> t[p][i].partition == p
  }

  /** Truth of everything that is not a comparison of `_partition` with an integer. */
  type Semantics = (Expr, Row) -> bool

  /** `_partition = e`: numeric equality for integer literals, NULL never equal. */
  predicate Matches(sem: Semantics, e: Expr, row: Row) {
    if e.Literal? && e.scalar.Int? then e.scalar.value == Some(row.partition) else sem(e, row)
  }

  predicate Holds(sem: Semantics, f: Expr, row: Row) {
    match f
    case Binary(left, op, right) =>
      if op == Eq && left == PARTITION then Matches(sem, right, row)
      else if op == Eq && right == PARTITION then Matches(sem, left, row)
      else sem(f, row)
    case InList(expr, list, negated) =>
      if expr == PARTITION && !negated then exists i :: 0 <= i < |list| && Matches(sem, list[i], row)
      else sem(f, row)
    case _ => sem(f, row)
  }

  predicate Passes(sem: Semantics, filters: seq<Expr>, row: Row) {
    forall i :: 0 <= i < |filters| ==> Holds(sem, filters[i], row)
  }

  function Passing(sem: Semantics, filters: seq<Expr>, rows: seq<Row>): seq<Row> {
    if rows == [] then []
    else
      var front := Passing(sem, filters, rows[..|rows| - 1]);
      if Passes(sem, filters, rows[|rows| - 1]) then front + [rows[|rows| - 1]] else front
  }

  function BatchOf(t: Table, p: int): seq<Row> {
    if p in t then t[p] else []
  }

  /** The batches of the listed partitions, in list order, repeated if listed repeatedly. */
  function Scanned(t: Table, partitions: seq<int>): seq<Row> {
    if partitions == [] then [] else Scanned(t, partitions[..|partitions| - 1]) + BatchOf(t, partitions[|partitions| - 1])
  }

  /** `scan`: everything, in the map's own order, if the filters name no partition. */
  function Scan(t: Table, order: seq<int>, filters: seq<Expr>): seq<Row> {
    var targets := Targets(filters);
    if targets == [] then Scanned(t, order) else Scanned(t, targets)
  }

  predicate Enumerates(t: Table, order: seq<int>) {
    Distinct(order) && Elements(order) == t.Keys
  }

  /** The query's result with and without pruning. */
  function Answer(sem: Semantics, t: Table, order: seq<int>, filters: seq<Expr>): seq<Row> {
    Passing(sem, filters, Scan(t, order, filters))
  }

  function FullAnswer(sem: Semantics, t: Table, order: seq<int>, filters: seq<Expr>): seq<Row> {
    Passing(sem, filters, Scanned(t, order))
  }

  // ---- Which rows ----

  /** Some row of partition `p` could satisfy the filter. */
  predicate Possible(f: Expr, p: int) {
    match f
    case Binary(left, op, right) =>
      if op == Eq && left == PARTITION then PossibleMatch(right, p)
      else if op == Eq && right == PARTITION then PossibleMatch(left, p)
      else true
    case InList(expr, list, negated) =>
      expr == PARTITION && !negated ==> exists i :: 0 <= i < |list| && PossibleMatch(list[i], p)
    case _ => true
  }

  predicate PossibleMatch(e: Expr, p: int) {
    e.Literal? && e.scalar.Int? ==> e.scalar.value == Some(p)
  }

  /** Every partition that could satisfy all the filters is one that the scan will read. */
  ghost predicate Covered(filters: seq<Expr>) {
    Targets(filters) == [] ||
    forall p :: MIN_I32 <= p <= MAX_I32 && (forall i :: 0 <= i < |filters| ==> Possible(filters[i], p)) ==> p in Targets(filters)
  }

  lemma {:induction false} HoldsIsPossible(sem: Semantics, f: Expr, row: Row)
    requires Holds(sem, f, row)
    ensures Possible(f, row.partition)
  {
    if f.InList? && f.expr == PARTITION && !f.negated {
      var i :| 0 <= i < |f.list| && Matches(sem, f.list[i], row);
      assert PossibleMatch(f.list[i], row.partition);
    }
  }

  lemma {:induction false} PassingContains(sem: Semantics, filters: seq<Expr>, rows: seq<Row>, row: Row)
    ensures row in Passing(sem, filters, rows) <==> row in rows && Passes(sem, filters, row)
    ensures multiset(Passing(sem, filters, rows))[row] == if Passes(sem, filters, row) then multiset(rows)[row] else 0
  {
    if rows != [] {
      var n := |rows| - 1;
      PassingContains(sem, filters, rows[..n], row);
      assert rows == rows[..n] + [rows[n]];
    }
  }

  /** `x` taken `count` times. */
  function Repeated(count: nat, x: nat): nat {
    if count == 0 then 0 else Repeated(count - 1, x) + x
  }

  lemma {:induction false} RepeatedGrows(count: nat, x: nat)
    ensures count == 1 ==> Repeated(count, x) == x
    ensures x == 0 ==> Repeated(count, x) == 0
    ensures count > 0 ==> Repeated(count, x) >= x
    ensures count > 1 && x > 0 ==> Repeated(count, x) > x
  {
    if count > 0 {
      RepeatedGrows(count - 1, x);
    }
  }

  /** A row is scanned as often as its partition is listed. */
  lemma {:induction false} ScannedCount(t: Table, partitions: seq<int>, row: Row)
    requires Consistent(t)
    ensures multiset(Scanned(t, partitions))[row] ==
            Repeated(multiset(partitions)[row.partition], multiset(BatchOf(t, row.partition))[row])
  {
    hide Consistent, BatchOf;
    if partitions != [] {
      var n := |partitions| - 1;
      var p := partitions[n];
      ScannedCount(t, partitions[..n], row);
      assert partitions == partitions[..n] + [p];
      assert multiset(Scanned(t, partitions))[row] == multiset(Scanned(t, partitions[..n]))[row] + multiset(BatchOf(t, p))[row];
      if p != row.partition {
        NotInOtherBatch(t, p, row);
        assert multiset(partitions)[row.partition] == multiset(partitions[..n])[row.partition];
      } else {
        assert multiset(partitions)[row.partition] == multiset(partitions[..n])[row.partition] + 1;
      }
    }
  }

  lemma {:induction false} NotInOtherBatch(t: Table, p: int, row: Row)
    requires Consistent(t) && p != row.partition
    ensures multiset(BatchOf(t, p))[row] == 0
  {
  }

  lemma {:induction false} EnumeratedOnce(t: Table, order: seq<int>, p: int)
    requires Enumerates(t, order)
    ensures multiset(order)[p] == if p in t then 1 else 0
  {
    DistinctMultiset(order);
    assert p in Elements(order) <==> p in order;
    assert p in order <==> multiset(order)[p] > 0;
  }

  /** How often a row appears in the pruned and in the full result. */
  lemma {:induction false} AnswerCounts(sem: Semantics, t: Table, order: seq<int>, filters: seq<Expr>, row: Row)
    requires Consistent(t) && Enumerates(t, order)
    ensures var batch := multiset(BatchOf(t, row.partition))[row];
            && multiset(FullAnswer(sem, t, order, filters))[row] == (if Passes(sem, filters, row) then batch else 0)
            && multiset(Answer(sem, t, order, filters))[row] ==
               (if !Passes(sem, filters, row) then 0
                else if Targets(filters) == [] then batch
                else Repeated(multiset(Targets(filters))[row.partition], batch))
  {
    hide Passes, Targets, Consistent, Enumerates, Passing, Scanned, Repeated;
    PassingContains(sem, filters, Scanned(t, order), row);
    PassingContains(sem, filters, Scan(t, order, filters), row);
    ScannedCount(t, order, row);
    ScannedCount(t, Targets(filters), row);
    EnumeratedOnce(t, order, row.partition);
    RepeatedGrows(1, multiset(BatchOf(t, row.partition))[row]);
    RepeatedGrows(0, multiset(BatchOf(t, row.partition))[row]);
  }

  ghost predicate SameRows(sem: Semantics, t: Table, order: seq<int>, filters: seq<Expr>) {
    forall row :: row in Answer(sem, t, order, filters) <==> row in FullAnswer(sem, t, order, filters)
  }

  lemma {:induction false} CoveredKeepsRows(sem: Semantics, t: Table, order: seq<int>, filters: seq<Expr>)
    requires Consistent(t) && Enumerates(t, order) && Covered(filters)
    ensures SameRows(sem, t, order, filters)
  {
    forall row
      ensures row in Answer(sem, t, order, filters) <==> row in FullAnswer(sem, t, order, filters)
    {
      RowKept(sem, t, order, filters, row);
    }
  }

  lemma {:induction false} RowKept(sem: Semantics, t: Table, order: seq<int>, filters: seq<Expr>, row: Row)
    requires Consistent(t) && Enumerates(t, order) && Covered(filters)
    ensures row in Answer(sem, t, order, filters) <==> row in FullAnswer(sem, t, order, filters)
  {
    hide *;
    AnswerCounts(sem, t, order, filters, row);
    PassingHasCovered(sem, t, filters, row);
    RepeatedGrows(multiset(Targets(filters))[row.partition], multiset(BatchOf(t, row.partition))[row]);
    assert row in Answer(sem, t, order, filters) <==> multiset(Answer(sem, t, order, filters))[row] > 0;
    assert row in FullAnswer(sem, t, order, filters) <==> multiset(FullAnswer(sem, t, order, filters))[row] > 0;
    assert row in BatchOf(t, row.partition) <==> multiset(BatchOf(t, row.partition))[row] > 0;
  }

  lemma {:induction false} PassingHasCovered(sem: Semantics, t: Table, filters: seq<Expr>, row: Row)
    requires Consistent(t) && Covered(filters)
    ensures Passes(sem, filters, row) && row in BatchOf(t, row.partition) && Targets(filters) != []
            ==> multiset(Targets(filters))[row.partition] > 0
  {
    if Passes(sem, filters, row) && row in BatchOf(t, row.partition) && Targets(filters) != [] {
      forall i | 0 <= i < |filters|
        ensures Possible(filters[i], row.partition)
      {
        HoldsIsPossible(sem, filters[i], row);
      }
      assert row.partition in t;
      assert row.partition in Targets(filters);
    }
  }

  /**
   Pruning never changes which rows a query returns, on any table, exactly when the
   partitions it extracts cover all that the filters allow.
   */
  lemma {:induction false} PruningIsSafeIff(filters: seq<Expr>)
    ensures (forall sem, t, order :: Consistent(t) && Enumerates(t, order) ==> SameRows(sem, t, order, filters))
       <==> Covered(filters)
  {
    hide Covered, SameRows, Consistent, Enumerates;
    if Covered(filters) {
      forall sem, t, order | Consistent(t) && Enumerates(t, order)
        ensures SameRows(sem, t, order, filters)
      {
        CoveredKeepsRows(sem, t, order, filters);
      }
    } else {
      var p := UncoveredPartition(filters);
      UncoveredLosesRow(filters, p);
    }
  }

  lemma {:induction false} UncoveredPartition(filters: seq<Expr>) returns (p: int)
    requires !Covered(filters)
    ensures MIN_I32 <= p <= MAX_I32 && Targets(filters) != [] && p !in Targets(filters)
    ensures forall i :: 0 <= i < |filters| ==> Possible(filters[i], p)
  {
    hide Targets, Possible;
    p :| MIN_I32 <= p <= MAX_I32 && (forall i :: 0 <= i < |filters| ==> Possible(filters[i], p)) && p !in Targets(filters);
  }

  lemma {:induction false} UncoveredLosesRow(filters: seq<Expr>, p: int)
    requires MIN_I32 <= p <= MAX_I32 && Targets(filters) != [] && p !in Targets(filters)
    requires forall i :: 0 <= i < |filters| ==> Possible(filters[i], p)
    ensures Consistent(map[p := [Row(p, "")]]) && Enumerates(map[p := [Row(p, "")]], [p])
    ensures !SameRows((e, r) => true, map[p := [Row(p, "")]], [p], filters)
  {
    hide Targets, Possible, Answer, FullAnswer, Holds;
    var sem: Semantics := (e, r) => true;
    var row := Row(p, "");
    var t: Table := map[p := [row]];
    forall i | 0 <= i < |filters|
      ensures Holds(sem, filters[i], row)
    {
      PossibleHolds(filters[i], row);
    }
    assert Elements([p]) == t.Keys;
    RowLost(sem, t, [p], filters, row);
  }

  lemma {:induction false} RowLost(sem: Semantics, t: Table, order: seq<int>, filters: seq<Expr>, row: Row)
    requires Consistent(t) && Enumerates(t, order)
    requires Passes(sem, filters, row) && row in BatchOf(t, row.partition)
    requires Targets(filters) != [] && row.partition !in Targets(filters)
    ensures row in FullAnswer(sem, t, order, filters) && row !in Answer(sem, t, order, filters)
  {
    hide Passes, Targets, Consistent, Enumerates, Answer, FullAnswer;
    AnswerCounts(sem, t, order, filters, row);
    assert multiset(Targets(filters))[row.partition] == 0;
    assert row in FullAnswer(sem, t, order, filters) <==> multiset(FullAnswer(sem, t, order, filters))[row] > 0;
    assert row in Answer(sem, t, order, filters) <==> multiset(Answer(sem, t, order, filters))[row] > 0;
  }

  lemma {:induction false} PossibleHolds(f: Expr, row: Row)
    requires Possible(f, row.partition)
    ensures Holds((e, r) => true, f, row)
  {
    if f.InList? && f.expr == PARTITION && !f.negated {
      var i :| 0 <= i < |f.list| && PossibleMatch(f.list[i], row.partition);
      assert Matches((e, r) => true, f.list[i], row);
    }
  }

  // ---- The filters that are safe in practice ----

  /** Every integer fits its type. */
  predicate InType(s: Scalar) {
    s.Int? && s.value.Some? ==>
      var v := s.value.value;
      match s.kind
      case I8 => -0x80 <= v < 0x80
      case I16 => -0x8000 <= v < 0x8000
      case I32 => MIN_I32 <= v <= MAX_I32
      case I64 => MIN_I64 <= v <= MAX_I64
      case U8 => 0 <= v < 0x100
      case U16 => 0 <= v < 0x1_0000
      case U32 => 0 <= v < 0x1_0000_0000
      case U64 => 0 <= v < 0x1_0000_0000_0000_0000
  }

  predicate Convertible(e: Expr) {
    e.Literal? && InType(e.scalar) && ScalarToI32(e.scalar).Some?
  }

  /** Non-negated IN lists over `_partition` hold only literals that convert, and literals fit their types. */
  predicate PlainFilter(f: Expr) {
    match f
    case InList(expr, list, negated) => expr == PARTITION && !negated ==> forall i :: 0 <= i < |list| ==> Convertible(list[i])
    case Binary(left, op, right) => (left.Literal? ==> InType(left.scalar)) && (right.Literal? ==> InType(right.scalar))
    case _ => true
  }

  lemma {:induction false} ListTargetsContains(list: seq<Expr>, i: nat)
    requires i < |list| && Convertible(list[i])
    ensures ScalarToI32(list[i].scalar).value in ListTargets(list)
  {
    var n := |list| - 1;
    if i < n {
      assert list[..n][i] == list[i];
      ListTargetsContains(list[..n], i);
    }
  }

  /** Converted are exactly the non-null literals of the five types that the conversion knows, to their low 32 bits. */
  lemma {:induction false} ConvertsIff(s: Scalar)
    requires InType(s)
    ensures ScalarToI32(s).Some? <==> s.Int? && s.value.Some? && s.kind in {I8, I16, I32, I64, U32}
    ensures ScalarToI32(s).Some? ==>
              MIN_I32 <= ScalarToI32(s).value <= MAX_I32 && (s.value.value - ScalarToI32(s).value) % 0x1_0000_0000 == 0
  {
    if ScalarToI32(s).Some? {
      WrapIsCongruent(s.value.value);
    }
  }

  lemma {:induction false} WrapIsCongruent(v: int)
    ensures (v - WrapI32(v)) % 0x1_0000_0000 == 0
  {
    var q := (v + 0x8000_0000) / 0x1_0000_0000;
    assert v - WrapI32(v) == 0x1_0000_0000 * q;
  }

  /** A matching literal converts to the partition it matches, even where 64 bits are truncated. */
  lemma {:induction false} MatchConverts(e: Expr, p: int)
    requires MIN_I32 <= p <= MAX_I32 && Convertible(e) && PossibleMatch(e, p)
    ensures ScalarToI32(e.scalar) == Some(p)
  {
  }

  /** An equality with a literal that converts, either way round, names just that partition. */
  lemma {:induction false} EqualityNamesPartition(filters: seq<Expr>, s: Scalar)
    requires ScalarToI32(s).Some?
    ensures Targets(filters + [Binary(PARTITION, Eq, Literal(s))]) == Targets(filters) + [ScalarToI32(s).value]
    ensures Targets(filters + [Binary(Literal(s), Eq, PARTITION)]) == Targets(filters) + [ScalarToI32(s).value]
  {
    hide ScalarToI32;
    assert (filters + [Binary(PARTITION, Eq, Literal(s))])[..|filters|] == filters;
    assert (filters + [Binary(Literal(s), Eq, PARTITION)])[..|filters|] == filters;
  }

  lemma {:induction false} PossibleIsTarget(f: Expr, p: int)
    requires MIN_I32 <= p <= MAX_I32 && PlainFilter(f) && Possible(f, p) && FilterTargets(f) != []
    ensures p in FilterTargets(f)
  {
    if f.InList? {
      var i :| 0 <= i < |f.list| && PossibleMatch(f.list[i], p);
      MatchConverts(f.list[i], p);
      ListTargetsContains(f.list, i);
    }
  }

  lemma {:induction false} SomeFilterContributes(filters: seq<Expr>) returns (i: nat)
    requires Targets(filters) != []
    ensures i < |filters| && FilterTargets(filters[i]) != []
  {
    var n := |filters| - 1;
    if FilterTargets(filters[n]) != [] {
      i := n;
    } else {
      i := SomeFilterContributes(filters[..n]);
    }
  }

  lemma {:induction false} TargetsContain(filters: seq<Expr>, i: nat, p: int)
    requires i < |filters| && p in FilterTargets(filters[i])
    ensures p in Targets(filters)
  {
    hide FilterTargets;
    var n := |filters| - 1;
    if i < n {
      assert filters[..n][i] == filters[i];
      TargetsContain(filters[..n], i, p);
    }
  }

  /** Reversed equality, negated IN, contradictory filters and wide literals are all covered. */
  lemma {:induction false} PlainFiltersAreCovered(filters: seq<Expr>)
    requires forall i :: 0 <= i < |filters| ==> PlainFilter(filters[i])
    ensures Covered(filters)
  {
    if Targets(filters) != [] {
      var i := SomeFilterContributes(filters);
      forall p | MIN_I32 <= p <= MAX_I32 && (forall j :: 0 <= j < |filters| ==> Possible(filters[j], p))
        ensures p in Targets(filters)
      {
        PossibleIsTarget(filters[i], p);
        TargetsContain(filters, i, p);
      }
    }
  }

  /** An IN list that mixes a convertible and an unsigned 64-bit literal loses the second partition. */
  lemma {:induction false} MixedListIsNotCovered()
    ensures !Covered([InList(PARTITION, [Literal(Int(I32, Some(1))), Literal(Int(U64, Some(3)))], false)])
  {
    var one, three := Literal(Int(I32, Some(1))), Literal(Int(U64, Some(3)));
    var list := [one, three];
    var f := InList(PARTITION, list, false);
    assert list[..1] == [one] && [one][..0] == [];
    assert ListTargets([one]) == ListTargets([]) + ElementTargets(one) == [1];
    assert ListTargets(list) == ListTargets([one]) + ElementTargets(three) == [1];
    assert [f][..0] == [];
    assert Targets([f]) == Targets([]) + FilterTargets(f) == [1];
    assert PossibleMatch(list[1], 3);
    assert Possible(f, 3) && 3 !in [1];
  }

  /** So does a list that mixes a literal and another column, which may well hold that partition's number. */
  lemma {:induction false} ColumnInListIsNotCovered(column: string)
    ensures !Covered([InList(PARTITION, [Literal(Int(I32, Some(1))), Column(column)], false)])
  {
    var one, other := Literal(Int(I32, Some(1))), Column(column);
    var list := [one, other];
    var f := InList(PARTITION, list, false);
    assert list[..1] == [one] && [one][..0] == [];
    assert ListTargets([one]) == ListTargets([]) + ElementTargets(one) == [1];
    assert ListTargets(list) == ListTargets([one]) + ElementTargets(other) == [1];
    assert [f][..0] == [];
    assert Targets([f]) == Targets([]) + FilterTargets(f) == [1];
    assert PossibleMatch(list[1], 3);
    assert Possible(f, 3) && 3 !in [1];
  }

  // ---- How many rows ----

  /**
   Pruning keeps the number of each row exactly when no partition that was extracted more
   than once has a row that passes: such a batch is scanned once per mention.
   */
  lemma {:induction false} PruningKeepsCountsIff(sem: Semantics, t: Table, order: seq<int>, filters: seq<Expr>)
    requires Consistent(t) && Enumerates(t, order) && Covered(filters)
    ensures multiset(Answer(sem, t, order, filters)) == multiset(FullAnswer(sem, t, order, filters))
       <==> forall p :: p in t && multiset(Targets(filters))[p] > 1 ==> Passing(sem, filters, t[p]) == []
  {
    hide Answer, FullAnswer, Targets, Consistent, Enumerates, Covered, Passing;
    var a, b := multiset(Answer(sem, t, order, filters)), multiset(FullAnswer(sem, t, order, filters));
    if forall p :: p in t && multiset(Targets(filters))[p] > 1 ==> Passing(sem, filters, t[p]) == [] {
      forall row
        ensures a[row] == b[row]
      {
        CountsAgree(sem, t, order, filters, row);
      }
    } else {
      var p :| p in t && multiset(Targets(filters))[p] > 1 && Passing(sem, filters, t[p]) != [];
      var row := Passing(sem, filters, t[p])[0];
      RepeatedBatchDiffers(sem, t, order, filters, p, row);
    }
  }

  lemma {:induction false} CountsAgree(sem: Semantics, t: Table, order: seq<int>, filters: seq<Expr>, row: Row)
    requires Consistent(t) && Enumerates(t, order) && Covered(filters)
    requires forall p :: p in t && multiset(Targets(filters))[p] > 1 ==> Passing(sem, filters, t[p]) == []
    ensures multiset(Answer(sem, t, order, filters))[row] == multiset(FullAnswer(sem, t, order, filters))[row]
  {
    hide Passes, Targets, Consistent, Enumerates, Passing, Scanned, Repeated, Answer, FullAnswer, Covered;
    var p := row.partition;
    RepeatedGrows(multiset(Targets(filters))[p], multiset(BatchOf(t, p))[row]);
    AnswerCounts(sem, t, order, filters, row);
    PassingHasCovered(sem, t, filters, row);
    PassingContains(sem, filters, BatchOf(t, p), row);
    assert row in BatchOf(t, p) <==> multiset(BatchOf(t, p))[row] > 0;
    if multiset(Targets(filters))[p] > 1 && p in t {
      assert Passing(sem, filters, t[p]) == [];
    }
  }

  lemma {:induction false} RepeatedBatchDiffers(sem: Semantics, t: Table, order: seq<int>, filters: seq<Expr>, p: int, row: Row)
    requires Consistent(t) && Enumerates(t, order)
    requires p in t && multiset(Targets(filters))[p] > 1 && row in Passing(sem, filters, t[p])
    ensures multiset(Answer(sem, t, order, filters))[row] > multiset(FullAnswer(sem, t, order, filters))[row]
  {
    hide Passes, Targets, Enumerates, Passing, Scanned, Repeated, Answer, FullAnswer;
    PassingContains(sem, filters, t[p], row);
    var i :| 0 <= i < |t[p]| && t[p][i] == row;
    AnswerCounts(sem, t, order, filters, row);
    RepeatedGrows(multiset(Targets(filters))[p], multiset(t[p])[row]);
  }

  /** Some filter rules the partition out. */
  predicate RuledOut(filters: seq<Expr>, p: int) {
    exists i :: 0 <= i < |filters| && !Possible(filters[i], p)
  }

  /** Every partition that is extracted more than once is ruled out by some filter. */
  ghost predicate RepeatsRuledOut(filters: seq<Expr>) {
    forall p :: MIN_I32 <= p <= MAX_I32 && multiset(Targets(filters))[p] > 1 ==> RuledOut(filters, p)
  }

  predicate SameCounts(sem: Semantics, t: Table, order: seq<int>, filters: seq<Expr>) {
    multiset(Answer(sem, t, order, filters)) == multiset(FullAnswer(sem, t, order, filters))
  }

  lemma {:induction false} RuledOutHasNoRows(sem: Semantics, t: Table, filters: seq<Expr>, p: int)
    requires Consistent(t) && p in t && RuledOut(filters, p)
    ensures Passing(sem, filters, t[p]) == []
  {
    hide Passing, Possible, Holds;
    var i :| 0 <= i < |filters| && !Possible(filters[i], p);
    if Passing(sem, filters, t[p]) != [] {
      var row := Passing(sem, filters, t[p])[0];
      PassingContains(sem, filters, t[p], row);
      HoldsIsPossible(sem, filters[i], row);
    }
  }

  lemma {:induction false} RepeatedPossibleDiffers(filters: seq<Expr>, p: int)
    requires MIN_I32 <= p <= MAX_I32 && multiset(Targets(filters))[p] > 1 && !RuledOut(filters, p)
    ensures Consistent(map[p := [Row(p, "")]]) && Enumerates(map[p := [Row(p, "")]], [p])
    ensures !SameCounts((e, r) => true, map[p := [Row(p, "")]], [p], filters)
  {
    hide Targets, Possible, Answer, FullAnswer, Holds, Passing;
    var sem: Semantics := (e, r) => true;
    var row := Row(p, "");
    var t: Table := map[p := [row]];
    forall i | 0 <= i < |filters|
      ensures Holds(sem, filters[i], row)
    {
      PossibleHolds(filters[i], row);
    }
    assert Elements([p]) == t.Keys;
    PassingContains(sem, filters, [row], row);
    RepeatedBatchDiffers(sem, t, [p], filters, p, row);
  }

  lemma {:induction false} SameCountsSameRows(sem: Semantics, t: Table, order: seq<int>, filters: seq<Expr>)
    requires SameCounts(sem, t, order, filters)
    ensures SameRows(sem, t, order, filters)
  {
    hide Answer, FullAnswer;
    var a, b := Answer(sem, t, order, filters), FullAnswer(sem, t, order, filters);
    forall row ensures row in a <==> row in b {
      assert row in a <==> row in multiset(a);
      assert row in b <==> row in multiset(b);
    }
  }

  /**
   Pruning never changes how often a query returns a row, on any table, exactly when the filters
   are covered and rule out every partition they mention more than once.
   */
  lemma {:induction false} PruningKeepsAllCountsIff(filters: seq<Expr>)
    ensures (forall sem, t, order :: Consistent(t) && Enumerates(t, order) ==> SameCounts(sem, t, order, filters))
       <==> Covered(filters) && RepeatsRuledOut(filters)
  {
    hide Answer, FullAnswer, Targets, Possible, SameRows, RuledOut, Consistent, Enumerates;
    PruningIsSafeIff(filters);
    if Covered(filters) && RepeatsRuledOut(filters) {
      forall sem, t, order | Consistent(t) && Enumerates(t, order)
        ensures SameCounts(sem, t, order, filters)
      {
        CoveredKeepsCounts(sem, t, order, filters);
      }
    } else if !RepeatsRuledOut(filters) {
      var p :| MIN_I32 <= p <= MAX_I32 && multiset(Targets(filters))[p] > 1 && !RuledOut(filters, p);
      RepeatedPossibleDiffers(filters, p);
    } else {
      var sem, t, order :| Consistent(t) && Enumerates(t, order) && !SameRows(sem, t, order, filters);
      if SameCounts(sem, t, order, filters) {
        SameCountsSameRows(sem, t, order, filters);
      }
    }
  }

  lemma {:induction false} CoveredKeepsCounts(sem: Semantics, t: Table, order: seq<int>, filters: seq<Expr>)
    requires Consistent(t) && Enumerates(t, order) && Covered(filters) && RepeatsRuledOut(filters)
    ensures SameCounts(sem, t, order, filters)
  {
    hide Answer, FullAnswer, Targets, Enumerates, Covered, Passing, RuledOut;
    forall p | p in t && multiset(Targets(filters))[p] > 1 ensures Passing(sem, filters, t[p]) == [] {
      assert MIN_I32 <= p <= MAX_I32;
      RuledOutHasNoRows(sem, t, filters, p);
    }
    PruningKeepsCountsIff(sem, t, order, filters);
  }

  /** With pairwise distinct partition ids, which one equality or one IN list without repeats gives, counts are exact. */
  lemma {:induction false} DistinctTargetsKeepCounts(sem: Semantics, t: Table, order: seq<int>, filters: seq<Expr>)
    requires Consistent(t) && Enumerates(t, order) && Covered(filters) && Distinct(Targets(filters))
    ensures multiset(Answer(sem, t, order, filters)) == multiset(FullAnswer(sem, t, order, filters))
  {
    DistinctMultiset(Targets(filters));
    PruningKeepsCountsIff(sem, t, order, filters);
  }

  /** The same partition named by two filters is scanned, and counted, twice. */
  lemma {:induction false} RepeatedEqualityCountsTwice(sem: Semantics)
    ensures var one := Literal(Int(I32, Some(1)));
            var filters := [Binary(PARTITION, Eq, one), Binary(one, Eq, PARTITION)];
            var t: Table := map[1 := [Row(1, "r")]];
            |Answer(sem, t, [1], filters)| == 2 && |FullAnswer(sem, t, [1], filters)| == 1
  {
    var one := Literal(Int(I32, Some(1)));
    var a, b := Binary(PARTITION, Eq, one), Binary(one, Eq, PARTITION);
    var filters := [a, b];
    var row := Row(1, "r");
    var t: Table := map[1 := [row]];
    TwiceTargeted(one);
    assert Passes(sem, filters, row);
    hide Targets, Passes;
    ScannedTwice(t, row);
    PassingEverything(sem, filters, [row]);
    PassingEverything(sem, filters, [row, row]);
  }

  lemma {:induction false} ScannedTwice(t: Table, row: Row)
    requires t == map[1 := [row]]
    ensures Scanned(t, [1]) == [row] && Scanned(t, [1, 1]) == [row, row]
  {
    assert [1][..0] == [] && [1, 1][..1] == [1];
    assert Scanned(t, [1]) == Scanned(t, []) + [row] == [row];
    assert Scanned(t, [1, 1]) == Scanned(t, [1]) + [row] == [row, row];
  }

  lemma {:induction false} PassingEverything(sem: Semantics, filters: seq<Expr>, rows: seq<Row>)
    requires forall row :: row in rows ==> Passes(sem, filters, row)
    ensures Passing(sem, filters, rows) == rows
  {
    hide Passes;
    if rows != [] {
      PassingEverything(sem, filters, rows[..|rows| - 1]);
    }
  }

  lemma {:induction false} TwiceTargeted(one: Expr)
    requires one == Literal(Int(I32, Some(1)))
    ensures Targets([Binary(PARTITION, Eq, one), Binary(one, Eq, PARTITION)]) == [1, 1]
  {
    var a, b := Binary(PARTITION, Eq, one), Binary(one, Eq, PARTITION);
    assert [a, b][..1] == [a] && [a][..0] == [];
    assert Targets([a]) == Targets([]) + FilterTargets(a) == [1];
    assert Targets([a, b]) == Targets([a]) + FilterTargets(b) == [1, 1];
  }
}
