/**
 Zone-map pruning: per-partition minima and maxima, the test that may skip a partition, and the proof
 that skipping changes no answer. Predicates are the structured conjuncts of one SELECT; the lower-casing
 of column names is an arbitrary function.
 */
module Pruning {
  import opened Options
  import opened Values

  type Row = map<string, Value>
  type Lower = string -> string

  datatype CompareOp = Eq | Ne | NeAngle | Lt | Le | Gt | Ge | In

  /** The right-hand side of a conjunct: one literal, or the list of an IN. */
  datatype Operand = Scalar(v: Value) | List(vs: seq<Value>)

  datatype Condition = Condition(op: CompareOp, operand: Operand)

  /** All conditions on one (lower-cased) column name. */
  datatype Predicate = Predicate(column: string, conditions: seq<Condition>)

  /** NoZone disables pruning for the column; Empty is the zone map of a column without values. */
  datatype Zone = NoZone | Empty(nullCount: nat) | Range(min: Value, max: Value, nullCount: nat)

  datatype Partition = Partition(idx: nat, rowCount: nat, zones: map<string, Zone>)

  datatype Meta = Meta(columns: seq<string>, partitions: seq<Partition>, version: nat)

  // ---------- zone maps ----------

  function NonNull(values: seq<Value>): (r: seq<Value>)
    ensures forall v :: v in r <==> v in values && !v.Null?
  {
    if values == [] then []
    else if values[0].Null? then NonNull(values[1..])
    else [values[0]] + NonNull(values[1..])
  }

  predicate AllNumbers(values: seq<Value>) {
    forall v | v in values :: v.Num?
  }

  predicate AllTexts(values: seq<Value>) {
    forall v | v in values :: v.Text?
  }

  function Least(values: seq<Value>): (m: Value)
    requires values != [] && (AllNumbers(values) || AllTexts(values))
    ensures m in values && forall v | v in values :: AtMost(m, v)
  {
    if |values| == 1 then values[0]
    else
      var rest := values[1..];
      assert forall v | v in rest :: v in values;
      var m := Least(rest);
      OrderFacts(m, values[0], m);
      assert forall v | v in values :: v == values[0] || v in rest;
      if Under(m, values[0]) then m
      else
        assert forall v | v in rest :: AtMost(values[0], v) by {
          forall v | v in rest
            ensures AtMost(values[0], v)
          {
            OrderFacts(values[0], m, v);
          }
        }
        values[0]
  }

  function Greatest(values: seq<Value>): (m: Value)
    requires values != [] && (AllNumbers(values) || AllTexts(values))
    ensures m in values && forall v | v in values :: AtMost(v, m)
  {
    if |values| == 1 then values[0]
    else
      var rest := values[1..];
      assert forall v | v in rest :: v in values;
      var m := Greatest(rest);
      OrderFacts(values[0], m, values[0]);
      assert forall v | v in values :: v == values[0] || v in rest;
      if Under(values[0], m) then m
      else
        assert forall v | v in rest :: AtMost(v, values[0]) by {
          forall v | v in rest
            ensures AtMost(v, values[0])
          {
            OrderFacts(v, m, values[0]);
          }
        }
        values[0]
  }

  /** compute_zone_map. */
  function ZoneMap(values: seq<Value>): Zone {
    var present := NonNull(values);
    if present == [] then Empty(|values|)
    else if AllNumbers(present) || AllTexts(present) then
      NullsLeft(values);
      Range(Least(present), Greatest(present), |values| - |present|)
    else NoZone
  }

  lemma {:induction false} NullsLeft(values: seq<Value>)
    ensures |NonNull(values)| <= |values|
  {
    if values != [] {
      NullsLeft(values[1..]);
    }
  }

  /** The tightest bounds of the non-null values, attained by two of them, whenever they have one kind. */
  lemma ZoneMapIsTight(values: seq<Value>)
    ensures
      match ZoneMap(values)
      case Empty(_) => forall v | v in values :: v.Null?
      case Range(min, max, _) =>
        min in values && max in values && SameKind(min, max) &&
        forall v | v in values && !v.Null? :: AtMost(min, v) && AtMost(v, max)
      case NoZone =>
        exists a, b | a in values && b in values :: !a.Null? && !b.Null? && !SameKind(a, b)
  {
    var present := NonNull(values);
    if ZoneMap(values).NoZone? {
      var a :| a in present && !a.Num?;
      var b :| b in present && !b.Text?;
      assert a in values && b in values && !SameKind(a, b);
    }
  }

  /** The null count is that of the column, and the bounds count no nulls. */
  lemma {:induction false} NullsCounted(values: seq<Value>)
    ensures |values| - |NonNull(values)| == multiset(values)[Null]
    ensures
      match ZoneMap(values)
      case Empty(n) => n == |values| == multiset(values)[Null]
      case Range(_, _, n) => n == multiset(values)[Null]
      case NoZone => true
  {
    if values != [] {
      NullsCounted(values[1..]);
      hide ZoneMap;
      assert values == [values[0]] + values[1..];
    }
  }

  // ---------- what a condition means ----------

  /**
   How the query engine treats a non-null value against an operand of another kind, and a column name
   that no single column of the table answers to. Any treatment will do.
   */
  datatype Engine = Engine(mixed: (Value, CompareOp, Operand) -> bool, unresolved: (Row, string, Condition) -> bool)

  predicate Compare(v: Value, op: CompareOp, x: Value)
    requires SameKind(v, x)
  {
    match op
    case Eq => v == x
    case Ne => v != x
    case NeAngle => v != x
    case Lt => Under(v, x)
    case Le => AtMost(v, x)
    case Gt => Under(x, v)
    case Ge => AtMost(x, v)
    case In => v == x
  }

  /** Null satisfies nothing; an IN holds when some listed literal is equal. */
  predicate Holds(engine: Engine, v: Value, c: Condition) {
    if v.Null? then false
    else
      match c
      case Condition(In, List(vs)) => exists i | 0 <= i < |vs| :: HoldsScalar(engine, v, Eq, vs[i])
      case Condition(In, Scalar(_)) => engine.mixed(v, c.op, c.operand)
      case Condition(op, Scalar(x)) => HoldsScalar(engine, v, op, x)
      case Condition(op, List(_)) => engine.mixed(v, c.op, c.operand)
  }

  predicate HoldsScalar(engine: Engine, v: Value, op: CompareOp, x: Value) {
    if SameKind(v, x) then Compare(v, op, x) else engine.mixed(v, op, Scalar(x))
  }

  // ---------- the pruning test ----------

  /** _may_match for one literal. */
  predicate MayMatchScalar(zone: Zone, op: CompareOp, x: Value) {
    if !zone.Range? then true
    else if !(x.Num? || x.Text?) then true
    else if x.Text? == zone.min.Num? then true
    else
      match op
      case Eq => AtMost(zone.min, x) && AtMost(x, zone.max)
      case Ne => !(zone.min == zone.max == x)
      case NeAngle => !(zone.min == zone.max == x)
      case Lt => Under(zone.min, x)
      case Le => AtMost(zone.min, x)
      case Gt => Under(x, zone.max)
      case Ge => AtMost(x, zone.max)
      case In => true
  }

  predicate MayMatch(zone: Zone, c: Condition) {
    if !zone.Range? then true
    else
      match c
      case Condition(In, List(vs)) => exists i | 0 <= i < |vs| :: MayMatchScalar(zone, Eq, vs[i])
      case Condition(In, Scalar(_)) => true
      case Condition(_, List(_)) => true
      case Condition(op, Scalar(x)) => MayMatchScalar(zone, op, x)
  }

  /** An IN is skipped exactly when every listed literal lies outside the bounds. */
  lemma InMayMatchIff(zone: Zone, vs: seq<Value>)
    requires zone.Range? && AtMost(zone.min, zone.max)
    ensures !MayMatch(zone, Condition(In, List(vs))) <==> forall x | x in vs :: SameKind(zone.min, x) && !Within(zone, x)
  {
    forall i | 0 <= i < |vs|
      ensures MayMatchScalar(zone, Eq, vs[i]) <==> !(SameKind(zone.min, vs[i]) && !Within(zone, vs[i]))
    {
    }
    if forall x | x in vs :: SameKind(zone.min, x) && !Within(zone, x) {
      assert forall i | 0 <= i < |vs| :: vs[i] in vs;
    }
  }

  /** Without bounds, or for a literal that is neither number nor text or of the other kind, nothing is skipped. */
  lemma NeverSkipped(zone: Zone, op: CompareOp, x: Value)
    ensures !zone.Range? || x.Null? || x.Bool? || x.Other? || (AtMost(zone.min, zone.max) && !SameKind(zone.min, x)) ==>
              MayMatchScalar(zone, op, x)
  {
  }

  predicate Within(zone: Zone, v: Value)
    requires zone.Range?
  {
    AtMost(zone.min, v) && AtMost(v, zone.max)
  }

  /** The test is exact: it fails just when no value between the bounds could satisfy the comparison. */
  lemma MayMatchIff(zone: Zone, op: CompareOp, x: Value)
    requires zone.Range? && SameKind(zone.min, x) && AtMost(zone.min, zone.max) && !op.In?
    ensures MayMatchScalar(zone, op, x) <==> exists v :: Within(zone, v) && SameKind(v, x) && Compare(v, op, x)
  {
    var lo, hi := zone.min, zone.max;
    OrderFacts(lo, hi, lo);
    OrderFacts(lo, x, hi);
    OrderFacts(x, hi, lo);
    OrderFacts(hi, x, lo);
    assert Within(zone, lo) && Within(zone, hi);
    if MayMatchScalar(zone, op, x) {
      var v := match op
        case Eq => x
        case Ne => if lo != x then lo else hi
        case NeAngle => if lo != x then lo else hi
        case Lt => lo
        case Le => lo
        case Gt => hi
        case Ge => hi
        case In => x;
      assert Within(zone, v) && SameKind(v, x) && Compare(v, op, x);
    }
    if v :| Within(zone, v) && SameKind(v, x) && Compare(v, op, x) {
      WithinMayMatch(zone, v, op, x);
    }
  }

  lemma WithinMayMatch(zone: Zone, v: Value, op: CompareOp, x: Value)
    requires zone.Range? && SameKind(zone.min, zone.max) && Within(zone, v) && SameKind(v, x) && Compare(v, op, x)
    ensures MayMatchScalar(zone, op, x)
  {
    OrderFacts(zone.min, v, x);
    OrderFacts(x, v, zone.max);
    OrderFacts(zone.min, v, zone.max);
  }

  /** A partition holding a value that satisfies the condition is never skipped on its account. */
  lemma HoldsMayMatch(engine: Engine, values: seq<Value>, v: Value, c: Condition)
    requires v in values && Holds(engine, v, c)
    ensures MayMatch(ZoneMap(values), c)
  {
    var zone := ZoneMap(values);
    ZoneMapIsTight(values);
    hide ZoneMap;
    if zone.Range? {
      match c
      case Condition(In, List(vs)) =>
        var i :| 0 <= i < |vs| && HoldsScalar(engine, v, Eq, vs[i]);
        ScalarMayMatch(engine, zone, v, Eq, vs[i]);
      case Condition(In, Scalar(_)) =>
      case Condition(_, List(_)) =>
      case Condition(op, Scalar(x)) =>
        ScalarMayMatch(engine, zone, v, op, x);
    }
  }

  lemma ScalarMayMatch(engine: Engine, zone: Zone, v: Value, op: CompareOp, x: Value)
    requires zone.Range? && SameKind(zone.min, zone.max) && Within(zone, v) && HoldsScalar(engine, v, op, x)
    ensures MayMatchScalar(zone, op, x)
  {
    if SameKind(v, x) {
      WithinMayMatch(zone, v, op, x);
    }
  }

  // ---------- selection ----------

  function Count(lower: Lower, columns: seq<string>, name: string): nat {
    if columns == [] then 0 else (if lower(columns[0]) == name then 1 else 0) + Count(lower, columns[1..], name)
  }

  /** col_map: the last column with that lower-cased name. */
  function LastMatch(lower: Lower, columns: seq<string>, name: string): Option<string> {
    if columns == [] then None
    else if lower(columns[|columns| - 1]) == name then Some(columns[|columns| - 1])
    else LastMatch(lower, columns[..|columns| - 1], name)
  }

  /** The zone map consulted for a name; an unknown column and one with an empty name have none. */
  function ZoneOf(lower: Lower, columns: seq<string>, part: Partition, name: string): Zone {
    match LastMatch(lower, columns, name)
    case Some(column) => if column != "" && column in part.zones then part.zones[column] else NoZone
    case None => NoZone
  }

  predicate MayMatchAll(lower: Lower, columns: seq<string>, part: Partition, p: Predicate) {
    || Count(lower, columns, p.column) > 1
    || forall i | 0 <= i < |p.conditions| :: MayMatch(ZoneOf(lower, columns, part, p.column), p.conditions[i])
  }

  predicate Loads(lower: Lower, columns: seq<string>, part: Partition, preds: seq<Predicate>) {
    forall i | 0 <= i < |preds| :: MayMatchAll(lower, columns, part, preds[i])
  }

  function Selected(lower: Lower, columns: seq<string>, parts: seq<Partition>, preds: seq<Predicate>): seq<nat> {
    if parts == [] then []
    else
      var init, last := parts[..|parts| - 1], parts[|parts| - 1];
      Selected(lower, columns, init, preds) + if Loads(lower, columns, last, preds) then [last.idx] else []
  }

  /** The zone map of the one column that answers to a name is the one consulted. */
  lemma {:induction false} ZoneOfOnly(lower: Lower, columns: seq<string>, part: Partition, k: nat)
    requires k < |columns| && forall j | 0 <= j < |columns| && j != k :: lower(columns[j]) != lower(columns[k])
    ensures LastMatch(lower, columns, lower(columns[k])) == Some(columns[k]) && Count(lower, columns, lower(columns[k])) == 1
    ensures columns[k] != "" && columns[k] in part.zones ==> ZoneOf(lower, columns, part, lower(columns[k])) == part.zones[columns[k]]
  {
    OnlyMatch(lower, columns, k);
    OnlyCount(lower, columns, k);
  }

  lemma {:induction false} OnlyMatch(lower: Lower, columns: seq<string>, k: nat)
    requires k < |columns| && forall j | 0 <= j < |columns| && j != k :: lower(columns[j]) != lower(columns[k])
    ensures LastMatch(lower, columns, lower(columns[k])) == Some(columns[k])
  {
    if k < |columns| - 1 {
      OnlyMatch(lower, columns[..|columns| - 1], k);
    }
  }

  lemma {:induction false} NoneCounted(lower: Lower, columns: seq<string>, name: string)
    requires forall j | 0 <= j < |columns| :: lower(columns[j]) != name
    ensures Count(lower, columns, name) == 0
  {
    if columns != [] {
      NoneCounted(lower, columns[1..], name);
    }
  }

  lemma {:induction false} OnlyCount(lower: Lower, columns: seq<string>, k: nat)
    requires k < |columns| && forall j | 0 <= j < |columns| && j != k :: lower(columns[j]) != lower(columns[k])
    ensures Count(lower, columns, lower(columns[k])) == 1
  {
    if k == 0 {
      NoneCounted(lower, columns[1..], lower(columns[0]));
    } else {
      OnlyCount(lower, columns[1..], k - 1);
    }
  }

  /** Two columns that answer to one name disable its conditions. */
  lemma {:induction false} AmbiguousCounted(lower: Lower, columns: seq<string>, j: nat, k: nat)
    requires j < k < |columns| && lower(columns[j]) == lower(columns[k])
    ensures Count(lower, columns, lower(columns[k])) > 1
  {
    if j == 0 {
      SomeCounted(lower, columns[1..], k - 1);
    } else {
      AmbiguousCounted(lower, columns[1..], j - 1, k - 1);
    }
  }

  lemma {:induction false} SomeCounted(lower: Lower, columns: seq<string>, k: nat)
    requires k < |columns|
    ensures Count(lower, columns, lower(columns[k])) >= 1
  {
    if k > 0 {
      SomeCounted(lower, columns[1..], k - 1);
    }
  }

  /** A condition that the zone map of its column refutes does skip the partition. */
  lemma RefutedIsSkipped(lower: Lower, columns: seq<string>, part: Partition, preds: seq<Predicate>, i: nat, m: nat, k: nat)
    requires i < |preds| && m < |preds[i].conditions| && k < |columns| && preds[i].column == lower(columns[k])
    requires forall j | 0 <= j < |columns| && j != k :: lower(columns[j]) != lower(columns[k])
    requires columns[k] != "" && columns[k] in part.zones && !MayMatch(part.zones[columns[k]], preds[i].conditions[m])
    ensures !Loads(lower, columns, part, preds)
  {
    ZoneOfOnly(lower, columns, part, k);
    hide ZoneOf, MayMatch, Count;
    assert !MayMatchAll(lower, columns, part, preds[i]);
  }

  /** Selected are exactly the partitions to be loaded, in their order. */
  lemma {:induction false} SelectedIff(lower: Lower, columns: seq<string>, parts: seq<Partition>, preds: seq<Predicate>)
    requires forall i | 0 <= i < |parts| :: parts[i].idx == i
    ensures
      var s := Selected(lower, columns, parts, preds);
      && (forall i :: i in s <==> 0 <= i < |parts| && Loads(lower, columns, parts[i], preds))
      && forall a, b | 0 <= a < b < |s| :: s[a] < s[b]
  {
    hide Loads;
    if parts != [] {
      var init := parts[..|parts| - 1];
      SelectedIff(lower, columns, init, preds);
      var s := Selected(lower, columns, init, preds);
      assert forall a | 0 <= a < |s| :: s[a] in s;
    }
  }

  /** select_partitions. */
  method SelectPartitions(lower: Lower, meta: Meta, preds: seq<Predicate>) returns (selected: seq<nat>, total: nat)
    ensures selected == Selected(lower, meta.columns, meta.partitions, preds) && total == |meta.partitions|
  {
    total := |meta.partitions|;
    selected := [];
    for k := 0 to total
      invariant selected == Selected(lower, meta.columns, meta.partitions[..k], preds)
    {
      var part := meta.partitions[k];
      var load := LoadsPartition(lower, meta.columns, part, preds);
      if load {
        selected := selected + [part.idx];
      }
      assert meta.partitions[..k + 1][..k] == meta.partitions[..k];
    }
    assert meta.partitions[..total] == meta.partitions;
  }

  /** The two inner loops, with their early exits. */
  method LoadsPartition(lower: Lower, columns: seq<string>, part: Partition, preds: seq<Predicate>) returns (load: bool)
    ensures load == Loads(lower, columns, part, preds)
  {
    for i := 0 to |preds|
      invariant forall j | 0 <= j < i :: MayMatchAll(lower, columns, part, preds[j])
    {
      var p := preds[i];
      if Count(lower, columns, p.column) <= 1 {
        var zone := ZoneOf(lower, columns, part, p.column);
        for j := 0 to |p.conditions|
          invariant forall m | 0 <= m < j :: MayMatch(zone, p.conditions[m])
        {
          if !MayMatch(zone, p.conditions[j]) {
            assert !MayMatchAll(lower, columns, part, p);
            return false;
          }
        }
      }
    }
    return true;
  }

  // ---------- the answer ----------

  function CellOf(row: Row, column: string): Value {
    if column in row then row[column] else Null
  }

  function Column(rows: seq<Row>, column: string): (values: seq<Value>)
    ensures |values| == |rows| && forall i | 0 <= i < |rows| :: values[i] == CellOf(rows[i], column)
  {
    seq(|rows|, i requires 0 <= i < |rows| => CellOf(rows[i], column))
  }

  /** A WHERE clause: the conjuncts pruning understands, and everything else. */
  datatype Where = Where(preds: seq<Predicate>, residual: Row -> bool)

  /** A name is resolved when exactly one column answers to it. */
  predicate SatisfiesOne(engine: Engine, lower: Lower, columns: seq<string>, row: Row, p: Predicate) {
    forall i | 0 <= i < |p.conditions| ::
      var column := LastMatch(lower, columns, p.column);
      if Count(lower, columns, p.column) == 1 && column.Some? then Holds(engine, CellOf(row, column.value), p.conditions[i])
      else engine.unresolved(row, p.column, p.conditions[i])
  }

  predicate Satisfies(engine: Engine, lower: Lower, columns: seq<string>, row: Row, where: Where) {
    where.residual(row) && forall i | 0 <= i < |where.preds| :: SatisfiesOne(engine, lower, columns, row, where.preds[i])
  }

  function Answer(engine: Engine, lower: Lower, columns: seq<string>, rows: seq<Row>, where: Where): seq<Row> {
    if rows == [] then []
    else (if Satisfies(engine, lower, columns, rows[0], where) then [rows[0]] else []) +
         Answer(engine, lower, columns, rows[1..], where)
  }

  lemma {:induction false} AnswerConcat(engine: Engine, lower: Lower, columns: seq<string>, a: seq<Row>, b: seq<Row>, where: Where)
    ensures Answer(engine, lower, columns, a + b, where)
         == Answer(engine, lower, columns, a, where) + Answer(engine, lower, columns, b, where)
  {
    hide Satisfies;
    if a == [] {
      assert a + b == b;
    } else {
      assert (a + b)[0] == a[0] && (a + b)[1..] == a[1..] + b;
      AnswerConcat(engine, lower, columns, a[1..], b, where);
    }
  }

  /** The zone maps describe the rows of the partition. */
  ghost predicate Describes(columns: seq<string>, part: Partition, rows: seq<Row>) {
    forall c | c in part.zones :: c in columns && part.zones[c] == ZoneMap(Column(rows, c))
  }

  lemma {:induction false} LastMatchIsColumn(lower: Lower, columns: seq<string>, name: string)
    ensures
      match LastMatch(lower, columns, name)
      case None => Count(lower, columns, name) == 0
      case Some(c) => c in columns && lower(c) == name
  {
    if columns != [] {
      var init := columns[..|columns| - 1];
      LastMatchIsColumn(lower, init, name);
      CountSplits(lower, init, columns[|columns| - 1], name);
      assert columns == init + [columns[|columns| - 1]];
    }
  }

  lemma {:induction false} CountSplits(lower: Lower, init: seq<string>, last: string, name: string)
    ensures Count(lower, init + [last], name) == Count(lower, init, name) + if lower(last) == name then 1 else 0
  {
    if init == [] {
      assert init + [last] == [last] && [last][1..] == [];
    } else {
      assert (init + [last])[0] == init[0] && (init + [last])[1..] == init[1..] + [last];
      CountSplits(lower, init[1..], last, name);
    }
  }

  /** A row satisfying the conditions on one name keeps its partition from being skipped for that name. */
  lemma MatchMayMatch(engine: Engine, lower: Lower, columns: seq<string>, part: Partition, rows: seq<Row>, k: nat, p: Predicate)
    requires Describes(columns, part, rows) && k < |rows| && SatisfiesOne(engine, lower, columns, rows[k], p)
    ensures MayMatchAll(lower, columns, part, p)
  {
    hide Holds, MayMatch, ZoneMap;
    LastMatchIsColumn(lower, columns, p.column);
    var column, zone := LastMatch(lower, columns, p.column), ZoneOf(lower, columns, part, p.column);
    if Count(lower, columns, p.column) <= 1 {
      forall j | 0 <= j < |p.conditions|
        ensures MayMatch(zone, p.conditions[j])
      {
        if column.Some? && column.value != "" && column.value in part.zones {
          OneOrNone(lower, columns, p.column);
          var values := Column(rows, column.value);
          HoldsMayMatch(engine, values, values[k], p.conditions[j]);
        } else {
          NoZoneMayMatch(p.conditions[j]);
        }
      }
    }
  }

  lemma NoZoneMayMatch(c: Condition)
    ensures MayMatch(NoZone, c)
  {
  }

  lemma {:induction false} OneOrNone(lower: Lower, columns: seq<string>, name: string)
    requires LastMatch(lower, columns, name).Some?
    ensures Count(lower, columns, name) >= 1
  {
    var init, last := columns[..|columns| - 1], columns[|columns| - 1];
    assert columns == init + [last];
    CountSplits(lower, init, last, name);
    if lower(last) != name {
      OneOrNone(lower, init, name);
    }
  }

  /** A row in the answer keeps its partition loaded. */
  lemma MatchIsLoaded(engine: Engine, lower: Lower, columns: seq<string>, part: Partition, rows: seq<Row>, k: nat, where: Where)
    requires Describes(columns, part, rows) && k < |rows| && Satisfies(engine, lower, columns, rows[k], where)
    ensures Loads(lower, columns, part, where.preds)
  {
    hide Describes, SatisfiesOne, MayMatchAll;
    forall i | 0 <= i < |where.preds|
      ensures MayMatchAll(lower, columns, part, where.preds[i])
    {
      MatchMayMatch(engine, lower, columns, part, rows, k, where.preds[i]);
    }
  }

  /** A skipped partition contributes nothing. */
  lemma SkippedIsSilent(engine: Engine, lower: Lower, columns: seq<string>, part: Partition, rows: seq<Row>, where: Where)
    requires Describes(columns, part, rows) && !Loads(lower, columns, part, where.preds)
    ensures Answer(engine, lower, columns, rows, where) == []
  {
    forall k | 0 <= k < |rows|
      ensures !Satisfies(engine, lower, columns, rows[k], where)
    {
      if Satisfies(engine, lower, columns, rows[k], where) {
        MatchIsLoaded(engine, lower, columns, part, rows, k, where);
      }
    }
    NoneSatisfies(engine, lower, columns, rows, where);
  }

  lemma {:induction false} NoneSatisfies(engine: Engine, lower: Lower, columns: seq<string>, rows: seq<Row>, where: Where)
    requires forall k | 0 <= k < |rows| :: !Satisfies(engine, lower, columns, rows[k], where)
    ensures Answer(engine, lower, columns, rows, where) == []
  {
    hide Satisfies;
    if rows != [] {
      assert !Satisfies(engine, lower, columns, rows[0], where);
      assert forall k | 0 <= k < |rows[1..]| :: rows[1..][k] == rows[k + 1];
      NoneSatisfies(engine, lower, columns, rows[1..], where);
    }
  }

  // ---------- dropping conjuncts ----------

  ghost predicate Occurs(preds: seq<Predicate>, column: string, c: Condition) {
    exists k, m | 0 <= k < |preds| && 0 <= m < |preds[k].conditions| ::
      preds[k].column == column && preds[k].conditions[m] == c
  }

  /** Every condition of `few` also stands in `more`. */
  ghost predicate Weaker(few: seq<Predicate>, more: seq<Predicate>) {
    forall i, j | 0 <= i < |few| && 0 <= j < |few[i].conditions| :: Occurs(more, few[i].column, few[i].conditions[j])
  }

  /** Leaving conjuncts out only loads more. */
  lemma FewerPredicatesLoadMore(lower: Lower, columns: seq<string>, part: Partition, few: seq<Predicate>, more: seq<Predicate>)
    requires Weaker(few, more) && Loads(lower, columns, part, more)
    ensures Loads(lower, columns, part, few)
  {
    forall i | 0 <= i < |few|
      ensures MayMatchAll(lower, columns, part, few[i])
    {
      var p := few[i];
      if Count(lower, columns, p.column) <= 1 {
        forall j | 0 <= j < |p.conditions|
          ensures MayMatch(ZoneOf(lower, columns, part, p.column), p.conditions[j])
        {
          assert Occurs(more, p.column, p.conditions[j]);
          var k, m :| 0 <= k < |more| && 0 <= m < |more[k].conditions| &&
                      more[k].column == p.column && more[k].conditions[m] == p.conditions[j];
          assert MayMatchAll(lower, columns, part, more[k]);
        }
      }
    }
  }
}
