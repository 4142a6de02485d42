/** Which filters are accepted: a table of operators, types and values that does not mention how a condition is
    turned into a predicate. */
module FilterAccepts {
  import opened Basics
  import opened Schema
  import SqlSyntax
  import opened SqlSemantics
  import opened Expression
  import opened Policy
  import opened Filter

  /** What each wire operator takes, by the type of the field. */
  predicate Takes(op: string, t: LogicalType, value: Datum, values: seq<Datum>) {
    match t
    case TString =>
      if op == "eq" || op == "ne" then value.Str? && values == []
      else if op == "prefix" then value.Str? && value.s != "" && values == []
      else if op == "in" || op == "not_in" then value.Null? && Texts(values)
      else (op == "exists" || op == "not_exists") && value.Null? && values == []
    case TStringArray =>
      if op == "has" then value.Str? && values == []
      else (op == "has_any" || op == "has_all") && value.Null? && Texts(values)
    case TBoolean => (op == "eq" || op == "ne") && value.Bool? && values == []
    case TNumber =>
      if op == "between" then value.Null? && |values| == 2 && values[0].Num? && values[1].Num?
      else (op == "eq" || op == "ne" || IsComparison(op)) && value.Num? && values == []
    case _ => false
  }

  predicate IsComparison(op: string) {
    op == "gt" || op == "gte" || op == "lt" || op == "lte"
  }

  /** A list of strings, not empty and not too long. */
  predicate Texts(values: seq<Datum>) {
    1 <= |values| <= MAX_VALUES && forall v :: v in values ==> v.Str?
  }

  lemma ValueAccepts(raw: Datum, t: LogicalType)
    requires !t.TStringArray? && !t.Unset?
    ensures ValueOf(raw, t).Ok? <==> HasType(raw, t)
    ensures ValueOf(raw, t).Ok? ==> ValidValue(ValueOf(raw, t).value, t)
  {
  }

  lemma ValuesAccept(raws: seq<Datum>, t: LogicalType)
    requires !t.TStringArray? && !t.Unset?
    ensures ValuesOf(raws, t).Ok? <==> forall raw :: raw in raws ==> HasType(raw, t)
    ensures ValuesOf(raws, t).Ok? ==>
      |ValuesOf(raws, t).value| == |raws| && forall v :: v in ValuesOf(raws, t).value ==> ValidValue(v, t)
  {
    hide ValueOf, ValidValue, HasType;
    ValuesAccepted(raws, t);
    forall raw | raw in raws
      ensures ValueOf(raw, t).Ok? <==> HasType(raw, t)
      ensures ValueOf(raw, t).Ok? ==> ValidValue(ValueOf(raw, t).value, t)
    {
      ValueAccepts(raw, t);
    }
  }

  /** A condition is accepted on a field exactly if its operator takes what it carries. */
  lemma ExprAccepts(c: Condition, field: Field)
    ensures ExprOf(c, field).Ok? <==> Takes(c.op, field.Type(), c.value, c.values)
  {
    hide ValueOf, ValuesOf, ValidValue;
    var t := field.Type();
    ValueAccepts(c.value, ElementType(t));
    ValuesAccept(c.values, ElementType(t));
    match WireOp(Base(c.op)) {
      case None =>
      case Some(op) => LeafAccepts(c, op, field);
    }
  }

  lemma LeafAccepts(c: Condition, op: Op, field: Field)
    requires WireOp(Base(c.op)) == Some(op)
    ensures LeafOk(c, op, field) <==> Takes(c.op, field.Type(), c.value, c.values)
  {
    hide LeafOk, Takes;
    if TakesList(op, field.Type()) { ListAccepts(c, op, field); } else { OneAccepts(c, op, field); }
  }

  predicate LeafOk(c: Condition, op: Op, field: Field) {
    Filter.Leaf(c, op, field).Ok? && Valid(Filter.Leaf(c, op, field).value, FilterProfile)
  }

  lemma ListAccepts(c: Condition, op: Op, field: Field)
    requires WireOp(Base(c.op)) == Some(op) && TakesList(op, field.Type())
    ensures LeafOk(c, op, field) <==> Takes(c.op, field.Type(), c.value, c.values)
  {
    hide ValueOf, ValuesOf, ValidValue;
    var t := field.Type();
    ValuesAccept(c.values, ElementType(t));
    if op.Between? && |c.values| == 2 {
      assert c.values == [c.values[0], c.values[1]];
      assert c.values[0] in c.values && c.values[1] in c.values;
    }
  }

  lemma OneAccepts(c: Condition, op: Op, field: Field)
    requires WireOp(Base(c.op)) == Some(op) && !TakesList(op, field.Type())
    ensures LeafOk(c, op, field) <==> Takes(c.op, field.Type(), c.value, c.values)
  {
    hide LeafOk, Takes;
    if op.Exists? { NoneAccepts(c, op, field); } else { ValueOpAccepts(c, op, field); }
  }

  lemma NoneAccepts(c: Condition, op: Op, field: Field)
    requires WireOp(Base(c.op)) == Some(op) && op.Exists?
    ensures LeafOk(c, op, field) <==> Takes(c.op, field.Type(), c.value, c.values)
  {
    hide ValueOf, ValuesOf, ValidValue;
  }

  lemma ValueOpAccepts(c: Condition, op: Op, field: Field)
    requires WireOp(Base(c.op)) == Some(op) && !TakesList(op, field.Type()) && !op.Exists?
    ensures LeafOk(c, op, field) <==> Takes(c.op, field.Type(), c.value, c.values)
  {
    hide ValueOf, ValuesOf, ValidValue;
    ValueAccepts(c.value, ElementType(field.Type()));
  }

  const FILTERABLE := (f: Field) => f.filterable

  lemma {:induction false} FilterableIs(fields: seq<Field>, key: string)
    ensures key in Filterable(fields) <==> exists i :: LastMarked(FILTERABLE, fields, i, key)
    ensures forall i :: LastMarked(FILTERABLE, fields, i, key) ==>
      key in Filterable(fields) && Filterable(fields)[key] == fields[i]
  {
    if fields != [] {
      var n := |fields| - 1;
      FilterableIs(fields[..n], key);
      if fields[n].filterable && fields[n].Key() == key {
        assert LastMarked(FILTERABLE, fields, n, key);
      } else {
        forall i ensures LastMarked(FILTERABLE, fields, i, key) <==> LastMarked(FILTERABLE, fields[..n], i, key) {
        }
      }
    }
  }

  /** The condition is on a field marked as filterable, and its operator takes what it carries. */
  ghost predicate Admits(fields: seq<Field>, c: Condition) {
    exists i ::
      LastMarked(FILTERABLE, fields, i, KeyOf(c.map_, c.name)) && Takes(c.op, fields[i].Type(), c.value, c.values)
  }

  /** A filter is accepted exactly if it is not too long and each condition is on a filterable field, with an
      operator for its type and the values that operator takes. */
  lemma FilterAccepted(cs: seq<Condition>, fields: seq<Field>)
    ensures Built(cs, fields).Ok? <==> |cs| <= MAX_CONDITIONS && forall c :: c in cs ==> Admits(fields, c)
  {
    hide ExprOf, Built, Takes, LastMarked, Filterable;
    BuildAccepts(cs, fields);
    forall c | c in cs ensures Filter.Acceptable(c, Filterable(fields)) <==> Admits(fields, c) {
      var key := KeyOf(c.map_, c.name);
      FilterableIs(fields, key);
      if key in Filterable(fields) { ExprAccepts(c, Filterable(fields)[key]); }
    }
  }

  // ---- the operators offered for a type ---------------------------------------------------------------------

  /** All wire operators in order. */
  const OPERATORS := [
    "between", "eq", "exists", "gt", "gte", "has", "has_all", "has_any", "in", "lt", "lte", "ne", "not_exists",
    "not_in", "prefix"]

  /** A value of a type, to try an operator with. */
  function Sample(t: LogicalType): Value {
    match t
    case TBoolean => Value(SqlSyntax.Bool(true), "")
    case TNumber => Value(SqlSyntax.Num(1.0), "")
    case _ => Value(SqlSyntax.Str("x"), "")
  }

  function ProbeField(t: LogicalType): Field {
    Field("", "field", t, false, false)
  }

  /** What a leaf with an operator looks like when only the operator and the type matter. */
  function ProbeExpr(op: Op, t: LogicalType): Expr {
    if op.Exists? then Expr(op, ProbeField(t), Value(SqlSyntax.Null, ""), [], [])
    else Expr(op, ProbeField(t), Sample(t), [Sample(ElementType(t)), Sample(ElementType(t))], [])
  }

  /** Some condition on a field of the type can use the operator. */
  ghost predicate Useful(op: string, t: LogicalType) {
    exists value, values :: Takes(op, ProbeField(t).Type(), value, values)
  }

  /** The operators of a type: those that some condition on a field of the type can use. */
  method OperatorsFor(t: LogicalType) returns (out: seq<string>)
    ensures forall op :: op in out <==> Useful(op, t)
  {
    hide Useful, Valid;
    out := [];
    for i := 0 to |OPERATORS|
      invariant forall op :: op in out <==> op in OPERATORS[..i] && Useful(op, t)
    {
      var op := OPERATORS[i];
      assert OPERATORS[..i + 1] == OPERATORS[..i] + [op];
      ProbeSays(op, t);
      if t.TStringArray? && (op == "in" || op == "not_in") { continue; }
      if !t.TStringArray? && op == "has" { continue; }
      var base := op;
      if op == "not_in" { base := "in"; }
      if op == "not_exists" { base := "exists"; }
      var probe := Expr(
        WireOp(base).value, ProbeField(t), Sample(t), [Sample(ElementType(t)), Sample(ElementType(t))], []);
      if probe.op.Exists? { probe := probe.(value := Value(SqlSyntax.Null, ""), values := []); }
      if Valid(probe, FilterProfile) { out := out + [op]; }
    }
    forall op | Useful(op, t) ensures op in OPERATORS { UsefulIsKnown(op, t); }
    assert OPERATORS[..|OPERATORS|] == OPERATORS;
  }

  lemma UsefulIsKnown(op: string, t: LogicalType)
    requires Useful(op, t)
    ensures op in OPERATORS
  {
  }

  /** The operators of a type, listed. */
  predicate Listed(op: string, t: LogicalType) {
    match t
    case TString =>
      || op == "eq" || op == "ne" || op == "in" || op == "not_in" || op == "prefix" || op == "exists"
      || op == "not_exists"
    case TStringArray => op == "has" || op == "has_any" || op == "has_all"
    case TBoolean => op == "eq" || op == "ne"
    case TNumber => op == "eq" || op == "ne" || op == "between" || IsComparison(op)
    case _ => false
  }

  /** Something an operator of a type takes. */
  function Example(op: string, t: LogicalType): (Datum, seq<Datum>) {
    var one := Sample(ElementType(t)).literal;
    if op == "exists" || op == "not_exists" then (SqlSyntax.Null, [])
    else if op in ["in", "not_in", "has_any", "has_all", "between"] then (SqlSyntax.Null, [one, one])
    else (one, [])
  }

  lemma UsefulIsListed(op: string, t: LogicalType)
    ensures Useful(op, t) <==> Listed(op, ProbeField(t).Type())
  {
    if Listed(op, ProbeField(t).Type()) {
      var (value, values) := Example(op, t);
      assert Takes(op, ProbeField(t).Type(), value, values);
    }
  }

  lemma ProbeSays(op: string, t: LogicalType)
    requires op in OPERATORS
    ensures WireOp(Base(op)).Some?
    ensures Useful(op, t) <==>
      && !(t.TStringArray? && (op == "in" || op == "not_in")) && !(!t.TStringArray? && op == "has")
      && Valid(ProbeExpr(WireOp(Base(op)).value, t), FilterProfile)
  {
    hide Useful, Takes, Valid, ProbeExpr, Allowed;
    UsefulIsListed(op, t);
    assert WireOp(Base(op)).Some?;
    ProbeIsValid(WireOp(Base(op)).value, t);
    OperatorIsAllowed(op, t);
  }

  lemma ProbeIsValid(op: Op, t: LogicalType)
    requires !IsConnective(op) && !op.Always? && !op.Never?
    ensures Valid(ProbeExpr(op, t), FilterProfile) <==> Allowed(op, ProbeField(t).Type(), FilterProfile)
  {
  }

  lemma OperatorIsAllowed(op: string, t: LogicalType)
    requires WireOp(Base(op)).Some?
    ensures Listed(op, ProbeField(t).Type()) <==>
      && !(t.TStringArray? && (op == "in" || op == "not_in")) && !(!t.TStringArray? && op == "has")
      && Allowed(WireOp(Base(op)).value, ProbeField(t).Type(), FilterProfile)
  {
  }
}
