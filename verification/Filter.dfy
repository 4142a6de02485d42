/** The filter a caller sends along with a query: its conditions become one predicate, and its canonical form
    is what a cursor is bound to. */
module Filter {
  import opened Basics
  import opened Order
  import opened Schema
  import SqlSyntax
  import SqlRoundTrip
  import opened SqlSemantics
  import opened SqlRows
  import opened Expression
  import opened ExpressionMeaning
  import opened Policy

  const MAX_CONDITIONS := 20
  const MAX_VALUES := 100

  /** A condition as it arrives; an absent value is Null. */
  datatype Condition = Condition(map_: string, name: string, op: string, value: Datum, values: seq<Datum>)

  datatype FilterError =
    | TooManyConditions | NotFilterable(map_: string, name: string) | UnknownOperator(op: string)
    | UseHas | HasNeedsArray | PrefixNeedsValue | TakesValues | NeedsValues | TooManyValues | TakesValue | TakesNoValue
    | ValueRequired | WrongValue(want: LogicalType) | NotAvailable | Refused(why: Refusal)

  function WireOp(op: string): Option<Op> {
    if op == "eq" then Some(Equal) else if op == "ne" then Some(NotEqual)
    else if op == "in" || op == "has" then Some(Op.In)
    else if op == "prefix" then Some(Op.StartsWith) else if op == "exists" then Some(Exists)
    else if op == "has_any" then Some(Op.HasAny) else if op == "has_all" then Some(Op.HasAll)
    else if op == "gt" then Some(Greater) else if op == "gte" then Some(GreaterEq)
    else if op == "lt" then Some(Less) else if op == "lte" then Some(LessEq)
    else if op == "between" then Some(Op.Between)
    else None
  }

  predicate Negated(op: string) {
    op == "not_in" || op == "not_exists"
  }

  function Base(op: string): string {
    if op == "not_in" then "in" else if op == "not_exists" then "exists" else op
  }

  // ---- one condition ---------------------------------------------------------------------------------

  function ValueOf(raw: Datum, t: LogicalType): Result<Value, FilterError> {
    if raw.Null? then Err(ValueRequired)
    else if !Valid(Probe(raw, t), FilterProfile) then Err(WrongValue(t))
    else Ok(Value(raw, ""))
  }

  function ValuesOf(raws: seq<Datum>, t: LogicalType): Result<seq<Value>, FilterError> {
    if raws == [] then Ok([])
    else
      var before :- ValuesOf(raws[..|raws| - 1], t);
      var v :- ValueOf(raws[|raws| - 1], t);
      Ok(before + [v])
  }

  predicate UsesValues(op: Op, t: LogicalType) {
    op.HasAny? || op.HasAll? || op.Between? || (op.In? && t.TString?)
  }

  function Leaf(c: Condition, op: Op, field: Field): Result<Expr, FilterError> {
    var t := field.Type();
    if op.In? && t.TStringArray? && c.op != "has" then Err(UseHas)
    else if c.op == "has" && !t.TStringArray? then Err(HasNeedsArray)
    else if c.op == "prefix" && c.value == SqlSyntax.Str("") then Err(PrefixNeedsValue)
    else if UsesValues(op, t) then
      if !c.value.Null? then Err(TakesValues)
      else if c.values == [] then Err(NeedsValues)
      else if |c.values| > MAX_VALUES then Err(TooManyValues)
      else
        var vs :- ValuesOf(c.values, ElementType(t));
        Ok(Expr(op, field, NO_VALUE, vs, []))
    else if !op.Exists? then
      if c.values != [] then Err(TakesValue)
      else
        var v :- ValueOf(c.value, ElementType(t));
        Ok(Expr(op, field, v, [], []))
    else if !c.value.Null? || c.values != [] then Err(TakesNoValue)
    else Ok(Expr(op, field, NO_VALUE, [], []))
  }

  function ExprOf(c: Condition, field: Field): Result<Expr, FilterError> {
    match WireOp(Base(c.op))
    case None => Err(UnknownOperator(c.op))
    case Some(op) =>
      var e :- Leaf(c, op, field);
      if !Valid(e, FilterProfile) then Err(NotAvailable)
      else Ok(if Negated(c.op) then Node(Negation, [e]) else e)
  }

  /** The predicate of a condition on a field. */
  method Express(c: Condition, field: Field) returns (r: Result<Expr, FilterError>)
    ensures r == ExprOf(c, field)
  {
    hide Valid;
    var base, negated := c.op, false;
    if base == "not_in" { base, negated := "in", true; }
    if base == "not_exists" { base, negated := "exists", true; }
    var wire := WireOp(base);
    if wire.None? { return Err(UnknownOperator(c.op)); }
    var op, t := wire.value, field.Type();
    var e := Expr(op, field, NO_VALUE, [], []);
    var usesValues := op.HasAny? || op.HasAll? || op.Between? || (op.In? && t == TString);
    if op.In? && t == TStringArray && c.op != "has" { return Err(UseHas); }
    if c.op == "has" && t != TStringArray { return Err(HasNeedsArray); }
    if c.op == "prefix" && c.value == SqlSyntax.Str("") { return Err(PrefixNeedsValue); }
    if usesValues {
      if c.value != SqlSyntax.Null { return Err(TakesValues); }
      if |c.values| == 0 { return Err(NeedsValues); }
      if |c.values| > MAX_VALUES { return Err(TooManyValues); }
      for i := 0 to |c.values|
        invariant ValuesOf(c.values[..i], ElementType(t)) == Ok(e.values)
        invariant e == Expr(op, field, NO_VALUE, e.values, [])
      {
        assert c.values[..i + 1][..i] == c.values[..i];
        var v := ValueOf(c.values[i], ElementType(t));
        if v.Err? {
          ValuesPrefix(c.values, i + 1, ElementType(t));
          return Err(v.error);
        }
        e := e.(values := e.values + [v.value]);
      }
      assert c.values[..|c.values|] == c.values;
    } else if !op.Exists? {
      if |c.values| != 0 { return Err(TakesValue); }
      var v := ValueOf(c.value, ElementType(t));
      if v.Err? { return Err(v.error); }
      e := e.(value := v.value);
    } else if c.value != SqlSyntax.Null || |c.values| != 0 {
      return Err(TakesNoValue);
    }
    if !Valid(e, FilterProfile) { return Err(NotAvailable); }
    if negated { e := Node(Negation, [e]); }
    return Ok(e);
  }

  lemma {:induction false} ValuesPrefix(raws: seq<Datum>, n: nat, t: LogicalType)
    requires n <= |raws| && ValuesOf(raws[..n], t).Err?
    ensures ValuesOf(raws, t) == ValuesOf(raws[..n], t)
    decreases |raws|
  {
    if n < |raws| {
      assert raws[..|raws| - 1][..n] == raws[..n];
      ValuesPrefix(raws[..|raws| - 1], n, t);
    } else {
      assert raws[..n] == raws;
    }
  }

  // ---- the whole filter -----------------------------------------------------------------------------

  /** The filterable fields by key; the last one wins. */
  function Filterable(fields: seq<Field>): map<string, Field> {
    if fields == [] then map[]
    else
      var f, before := fields[|fields| - 1], Filterable(fields[..|fields| - 1]);
      if f.filterable then before[f.Key() := f] else before
  }

  function ExprsOf(cs: seq<Condition>, allowed: map<string, Field>): Result<seq<Expr>, FilterError> {
    if cs == [] then Ok([])
    else
      var before :- ExprsOf(cs[..|cs| - 1], allowed);
      var c := cs[|cs| - 1];
      if KeyOf(c.map_, c.name) !in allowed then Err(NotFilterable(c.map_, c.name))
      else
        var e :- ExprOf(c, allowed[KeyOf(c.map_, c.name)]);
        Ok(before + [e])
  }

  function Built(cs: seq<Condition>, fields: seq<Field>): Result<Fragment, FilterError> {
    if |cs| > MAX_CONDITIONS then Err(TooManyConditions)
    else
      var es :- ExprsOf(cs, Filterable(fields));
      if es == [] then Ok(Fragment([SqlSyntax.NUM(1)], []))
      else
        match Compiled(Node(AllOf, es), FilterProfile, map[])
        case Ok(q) => Ok(q)
        case Err(why) => Err(Refused(why))
  }

  method Build(cs: seq<Condition>, fields: seq<Field>) returns (r: Result<Fragment, FilterError>)
    ensures r == Built(cs, fields)
  {
    hide Compiled, ExprOf;
    if |cs| > MAX_CONDITIONS { return Err(TooManyConditions); }
    var allowed: map<string, Field> := map[];
    for i := 0 to |fields|
      invariant allowed == Filterable(fields[..i])
    {
      assert fields[..i + 1][..i] == fields[..i];
      if fields[i].filterable { allowed := allowed[fields[i].Key() := fields[i]]; }
    }
    assert fields[..|fields|] == fields;
    var children: seq<Expr> := [];
    for i := 0 to |cs|
      invariant ExprsOf(cs[..i], allowed) == Ok(children)
    {
      var c := cs[i];
      assert cs[..i + 1][..i] == cs[..i];
      if KeyOf(c.map_, c.name) !in allowed {
        ExprsPrefix(cs, i + 1, allowed);
        return Err(NotFilterable(c.map_, c.name));
      }
      var e := Express(c, allowed[KeyOf(c.map_, c.name)]);
      if e.Err? {
        ExprsPrefix(cs, i + 1, allowed);
        return Err(e.error);
      }
      children := children + [e.value];
    }
    assert cs[..|cs|] == cs;
    if |children| == 0 { return Ok(Fragment([SqlSyntax.NUM(1)], [])); }
    var q := Expression.Compile(Node(AllOf, children), FilterProfile, map[]);
    if q.Err? { return Err(Refused(q.error)); }
    return Ok(q.value);
  }

  lemma {:induction false} ExprsPrefix(cs: seq<Condition>, n: nat, allowed: map<string, Field>)
    requires n <= |cs| && ExprsOf(cs[..n], allowed).Err?
    ensures ExprsOf(cs, allowed) == ExprsOf(cs[..n], allowed)
    decreases |cs|
  {
    hide ExprOf;
    if n < |cs| {
      assert cs[..|cs| - 1][..n] == cs[..n];
      ExprsPrefix(cs[..|cs| - 1], n, allowed);
    } else {
      assert cs[..n] == cs;
    }
  }

  // ---- what a filter means ------------------------------------------------------------------------------

  /** What an operator says about the value of a field. */
  predicate Compares(op: string, d: Datum, value: Datum, values: seq<Datum>) {
    if op == "eq" then d == value
    else if op == "ne" then d != value
    else if op == "in" then d in values
    else if op == "not_in" then d !in values
    else if op == "prefix" then d.Str? && value.Str? && value.s <= d.s
    else if op == "has" then d.Arr? && value.Str? && value.s in d.elems
    else if op == "has_any" then d.Arr? && exists x :: x in values && x.Str? && x.s in d.elems
    else if op == "has_all" then d.Arr? && forall x :: x in values ==> x.Str? && x.s in d.elems
    else if !d.Num? then false
    else if op == "between" then |values| == 2 && values[0].Num? && values[1].Num? && values[0].n <= d.n <= values[1].n
    else if !value.Num? then false
    else if op == "gt" then d.n > value.n
    else if op == "gte" then d.n >= value.n
    else if op == "lt" then d.n < value.n
    else op == "lte" && d.n <= value.n
  }

  /** A span satisfies a condition. Only not_exists is satisfied by a span without the field. */
  predicate Matches(c: Condition, field: Field, row: Row, conv: Conv)
    requires FieldFits(field, row)
  {
    if c.op == "exists" || c.op == "not_exists" then
      (field.Scalar() || field.name in row[field.map_].entries) == (c.op == "exists")
    else
      match Lookup(field, row, conv) case None => false case Some(d) => Compares(c.op, d, c.value, c.values)
  }

  lemma LiteralValue(raw: Datum, t: LogicalType, attrs: map<string, string>)
    requires ValueOf(raw, t).Ok?
    ensures ValueOf(raw, t).value.attr == "" && Resolve(ValueOf(raw, t).value, attrs) == Some(raw)
  {
  }

  lemma {:induction false} LiteralValues(raws: seq<Datum>, t: LogicalType, attrs: map<string, string>)
    requires ValuesOf(raws, t).Ok?
    ensures ResolveAll(ValuesOf(raws, t).value, attrs) == Some(raws)
    ensures forall v :: v in ValuesOf(raws, t).value ==> v.attr == ""
  {
    hide ValueOf, Resolve, ResolveAll;
    var vs := ValuesOf(raws, t).value;
    if raws == [] {
      NoValues(attrs);
    } else {
      var n := |raws| - 1;
      LiteralValues(raws[..n], t, attrs);
      LiteralValue(raws[n], t, attrs);
      var before := ValuesOf(raws[..n], t).value;
      var v := ValueOf(raws[n], t).value;
      assert vs == before + [v];
      ResolveSplit(vs, |before|, attrs);
      assert vs[..|before|] == before && vs[|before|] == v;
      assert raws == raws[..n] + [raws[n]];
    }
  }

  lemma NoValues(attrs: map<string, string>)
    ensures ResolveAll([], attrs) == Some([])
  {
  }

  lemma LeafOperands(c: Condition, op: Op, field: Field, attrs: map<string, string>)
    requires WireOp(Base(c.op)) == Some(op) && Leaf(c, op, field).Ok? && Valid(Leaf(c, op, field).value, FilterProfile)
    ensures var e := Leaf(c, op, field).value;
      && e.op == op && e.field == field && RefsOf(Operands(e)) == {}
      && ResolveAll(Operands(e), attrs)
           == Some(if op.Exists? then [] else if UsesValues(op, field.Type()) then c.values else [c.value])
  {
    var e := Leaf(c, op, field).value;
    if UsesValues(op, field.Type()) {
      LiteralValues(c.values, ElementType(field.Type()), attrs);
    } else if !op.Exists? {
      LiteralValue(c.value, ElementType(field.Type()), attrs);
      ResolveOne(e.value, attrs);
    }
  }

  /** A condition that is accepted says about every span what its operator says. */
  lemma ConditionMeaning(c: Condition, field: Field, row: Row, conv: Conv)
    requires ExprOf(c, field).Ok? && FieldFits(field, row)
    ensures var e := ExprOf(c, field).value;
      && Valid(e, FilterProfile) && RowFits(e, row) && Refs(e) == {}
      && (Meaning(e, row, map[], conv) == True <==> Matches(c, field, row, conv))
  {
    var op := WireOp(Base(c.op)).value;
    var leaf := Leaf(c, op, field).value;
    LeafOperands(c, op, field, map[]);
    LeafMatches(c, op, field, row, conv);
    if Negated(c.op) {
      var e := ExprOf(c, field).value;
      assert e.children == [leaf] && RefsAll(e.children[1..]) == {};
      assert Refs(e) == Refs(leaf) + RefsAll(e.children[1..]);
      assert Meaning(e, row, map[], conv) == NotVerdict(Meaning(leaf, row, map[], conv));
    }
  }

  lemma LeafMatches(c: Condition, op: Op, field: Field, row: Row, conv: Conv)
    requires WireOp(Base(c.op)) == Some(op) && Leaf(c, op, field).Ok? && Valid(Leaf(c, op, field).value, FilterProfile)
    requires FieldFits(field, row)
    ensures var m := Meaning(Leaf(c, op, field).value, row, map[], conv);
      (if Negated(c.op) then m == False else m == True) <==> Matches(c, field, row, conv)
  {
    hide Lookup;
    LeafOperands(c, op, field, map[]);
    var e := Leaf(c, op, field).value;
    if !op.Exists? {
      var d := Lookup(field, row, conv);
      var ds := if UsesValues(op, field.Type()) then c.values else [c.value];
      assert Meaning(e, row, map[], conv)
        == match d case None => Error case Some(x) => Decide(Expression.Holds(op, x, ds));
      if d.Some? {
        TypedLookup(field, row, conv);
        ComparesAsHolds(c, op, field, d.value, ds);
      }
    }
  }

  lemma TypedLookup(field: Field, row: Row, conv: Conv)
    requires FieldFits(field, row) && Lookup(field, row, conv).Some? && !field.Type().Unset? && !field.Type().Unknown?
    ensures HasType(Lookup(field, row, conv).value, field.Type())
  {
  }

  /** What an accepted condition says of the values it compares with. */
  lemma OperandTypes(c: Condition, op: Op, field: Field)
    requires WireOp(Base(c.op)) == Some(op) && !op.Exists? && Leaf(c, op, field).Ok?
    requires Valid(Leaf(c, op, field).value, FilterProfile)
    ensures c.op == "has" <==> op.In? && field.Type().TStringArray?
    ensures c.op == "has" || op.StartsWith? ==> c.value.Str?
    ensures op.In? ==> field.Type().TString? || field.Type().TStringArray?
    ensures IsOrder(op) ==> field.Type().TNumber? && c.value.Num?
    ensures op.HasAny? || op.HasAll? ==> field.Type().TStringArray?
  {
  }

  lemma ComparesAsHolds(c: Condition, op: Op, field: Field, d: Datum, ds: seq<Datum>)
    requires WireOp(Base(c.op)) == Some(op) && !op.Exists? && Leaf(c, op, field).Ok?
    requires Valid(Leaf(c, op, field).value, FilterProfile)
    requires HasType(d, field.Type())
    requires ds == if UsesValues(op, field.Type()) then c.values else [c.value]
    ensures Expression.Holds(op, d, ds) == (Compares(c.op, d, c.value, c.values) != Negated(c.op))
  {
    hide Leaf, Valid;
    OperandTypes(c, op, field);
  }

  predicate Acceptable(c: Condition, allowed: map<string, Field>) {
    KeyOf(c.map_, c.name) in allowed && ExprOf(c, allowed[KeyOf(c.map_, c.name)]).Ok?
  }

  /** The row has the field of a condition. */
  predicate Suits(c: Condition, allowed: map<string, Field>, row: Row) {
    KeyOf(c.map_, c.name) in allowed ==> FieldFits(allowed[KeyOf(c.map_, c.name)], row)
  }

  predicate FieldsFit(cs: seq<Condition>, allowed: map<string, Field>, row: Row) {
    forall c :: c in cs ==> Suits(c, allowed, row)
  }

  predicate Satisfies(c: Condition, allowed: map<string, Field>, row: Row, conv: Conv)
    requires Suits(c, allowed, row)
  {
    KeyOf(c.map_, c.name) in allowed && Matches(c, allowed[KeyOf(c.map_, c.name)], row, conv)
  }

  lemma {:induction false} ExprsMeaning(cs: seq<Condition>, allowed: map<string, Field>, row: Row, conv: Conv)
    requires ExprsOf(cs, allowed).Ok? && FieldsFit(cs, allowed, row)
    ensures var es := ExprsOf(cs, allowed).value;
      && |es| == |cs| && RowFitsAll(es, row)
      && forall i :: 0 <= i < |cs| ==>
           (Meaning(es[i], row, map[], conv) == True <==> Satisfies(cs[i], allowed, row, conv))
  {
    hide ExprOf, Meaning, Matches, FieldFits, RowFits;
    if cs != [] {
      var n := |cs| - 1;
      assert Suits(cs[n], allowed, row);
      ExprsMeaning(cs[..n], allowed, row, conv);
      var es := ExprsOf(cs, allowed).value;
      assert es[..n] == ExprsOf(cs[..n], allowed).value && es == es[..n] + [es[n]];
      assert allowed[KeyOf(cs[n].map_, cs[n].name)] in allowed.Values;
      ConditionMeaning(cs[n], allowed[KeyOf(cs[n].map_, cs[n].name)], row, conv);
      forall i | 0 <= i < n
        ensures Meaning(es[i], row, map[], conv) == True <==> Satisfies(cs[i], allowed, row, conv)
      {
        assert es[i] == es[..n][i] && cs[i] == cs[..n][i];
      }
    }
  }

  /** An accepted condition is a valid predicate without attributes. */
  lemma ExprIsValid(c: Condition, field: Field)
    requires ExprOf(c, field).Ok?
    ensures Valid(ExprOf(c, field).value, FilterProfile) && Refs(ExprOf(c, field).value) == {}
  {
    var op := WireOp(Base(c.op)).value;
    LeafOperands(c, op, field, map[]);
    var leaf, e := Leaf(c, op, field).value, ExprOf(c, field).value;
    if Negated(c.op) {
      assert e.children == [leaf] && RefsAll(e.children[1..]) == {};
      assert Refs(e) == Refs(leaf) + RefsAll(e.children[1..]);
    }
  }

  lemma {:induction false} ExprsAreValid(cs: seq<Condition>, allowed: map<string, Field>)
    ensures ExprsOf(cs, allowed).Ok? <==> forall c :: c in cs ==> Acceptable(c, allowed)
    ensures ExprsOf(cs, allowed).Ok? ==>
      (var es := ExprsOf(cs, allowed).value;
       |es| == |cs| && ValidAll(es, FilterProfile) && forall e :: e in es ==> Refs(e) == {})
  {
    hide ExprOf, Valid;
    if cs != [] {
      var n := |cs| - 1;
      var c := cs[n];
      assert cs == cs[..n] + [c];
      ExprsAreValid(cs[..n], allowed);
      if Acceptable(c, allowed) { ExprIsValid(c, allowed[KeyOf(c.map_, c.name)]); }
    }
  }

  lemma {:induction false} NoRefs(es: seq<Expr>)
    requires forall e :: e in es ==> Refs(e) == {}
    ensures RefsAll(es) == {}
  {
    if es != [] {
      assert es[0] in es;
      NoRefs(es[1..]);
    }
  }

  lemma RootIsValid(cs: seq<Condition>, allowed: map<string, Field>)
    requires ExprsOf(cs, allowed).Ok? && cs != []
    ensures var root := Node(AllOf, ExprsOf(cs, allowed).value); Valid(root, FilterProfile) && Refs(root) == {}
  {
    ExprsAreValid(cs, allowed);
    NoRefs(ExprsOf(cs, allowed).value);
  }

  /** A filter is accepted exactly when it is not too long and each condition is acceptable by itself. */
  lemma BuildAccepts(cs: seq<Condition>, fields: seq<Field>)
    ensures Built(cs, fields).Ok? <==>
      |cs| <= MAX_CONDITIONS && forall c :: c in cs ==> Acceptable(c, Filterable(fields))
  {
    hide Valid, ExprOf;
    ExprsAreValid(cs, Filterable(fields));
    if ExprsOf(cs, Filterable(fields)).Ok? && cs != [] {
      RootIsValid(cs, Filterable(fields));
      CompileMeaning(Node(AllOf, ExprsOf(cs, Filterable(fields)).value), FilterProfile, map[]);
    }
  }

  /** The filter's predicate is TRUE on a span exactly when that one span satisfies all conditions together. */
  lemma BuildMeaning(cs: seq<Condition>, fields: seq<Field>) returns (t: SqlSyntax.Ast)
    requires Built(cs, fields).Ok?
    ensures Built(cs, fields).value == FragmentOf(t) && SqlRoundTrip.Wf(t)
    ensures forall c: Ctx :: FieldsFit(cs, Filterable(fields), c.row) ==>
      (Flag(Eval(t, c))
      && (IsTrue(Eval(t, c)) <==> forall cond :: cond in cs ==> Satisfies(cond, Filterable(fields), c.row, c.conv)))
  {
    hide Valid, ExprOf, Eval, Meaning, Satisfies, Suits;
    if cs == [] {
      t := SqlSyntax.Lit(1);
      OneIsTrue();
    } else {
      t := BuildSome(cs, fields);
    }
  }

  lemma OneIsTrue()
    ensures Fragment([SqlSyntax.NUM(1)], []) == FragmentOf(SqlSyntax.Lit(1)) && SqlRoundTrip.Wf(SqlSyntax.Lit(1))
    ensures forall c: Ctx :: Flag(Eval(SqlSyntax.Lit(1), c)) && IsTrue(Eval(SqlSyntax.Lit(1), c))
  {
    SqlText.AtomTexts("", SqlSyntax.Null, 1);
  }

  lemma BuildSome(cs: seq<Condition>, fields: seq<Field>) returns (t: SqlSyntax.Ast)
    requires cs != [] && Built(cs, fields).Ok?
    ensures Built(cs, fields).value == FragmentOf(t) && SqlRoundTrip.Wf(t)
    ensures forall c: Ctx :: FieldsFit(cs, Filterable(fields), c.row) ==>
      (Flag(Eval(t, c))
      && (IsTrue(Eval(t, c)) <==> forall cond :: cond in cs ==> Satisfies(cond, Filterable(fields), c.row, c.conv)))
  {
    hide Valid, ExprOf, Eval, Meaning, Satisfies, Suits;
    var allowed := Filterable(fields);
    ExprsAreValid(cs, allowed);
    var es := ExprsOf(cs, allowed).value;
    var root := Node(AllOf, es);
    RootIsValid(cs, allowed);
    CompileMeaning(root, FilterProfile, map[]);
    t :| MeansTree(Built(cs, fields).value, t, root, map[]);
    forall c: Ctx | FieldsFit(cs, allowed, c.row)
      ensures Flag(Eval(t, c))
      ensures IsTrue(Eval(t, c)) <==> forall cond :: cond in cs ==> Satisfies(cond, allowed, c.row, c.conv)
    {
      ExprsMeaning(cs, allowed, c.row, c.conv);
      RootMeaning(es, c.row, c.conv);
      AllTrue(es, c.row, map[], c.conv);
      assert (forall cond :: cond in cs ==> Satisfies(cond, allowed, c.row, c.conv)) <==>
        forall i :: 0 <= i < |cs| ==> Satisfies(cs[i], allowed, c.row, c.conv);
    }
  }

  lemma RootMeaning(es: seq<Expr>, row: Row, conv: Conv)
    requires RowFitsAll(es, row)
    ensures RowFits(Node(AllOf, es), row)
    ensures Meaning(Node(AllOf, es), row, map[], conv) == MeaningAll(es, row, map[], conv)
  {
  }

  // ---- the canonical form -------------------------------------------------------------------------------

  /** Strings in order. */
  function InsertString(s: string, ss: seq<string>): seq<string> {
    if ss == [] || !StrLess(ss[0], s) then [s] + ss else [ss[0]] + InsertString(s, ss[1..])
  }

  function SortStrings(ss: seq<string>): seq<string> {
    if ss == [] then [] else InsertString(ss[0], SortStrings(ss[1..]))
  }

  function JoinStrings(ss: seq<string>, separator: char): string {
    if ss == [] then "" else if |ss| == 1 then ss[0] else ss[0] + [separator] + JoinStrings(ss[1..], separator)
  }

  /** A value as text; all but strings are written as JSON. */
  function CanonicalValue(v: Datum, json: Datum -> string): string {
    if v.Null? then "" else if v.Str? then v.s else json(v)
  }

  function CanonicalValues(vs: seq<Datum>, json: Datum -> string): seq<string> {
    Map((v: Datum) => CanonicalValue(v, json), vs)
  }

  function Part(c: Condition, json: Datum -> string): string {
    c.map_ + ['\0'] + c.name + ['\0'] + c.op + ['\0'] + CanonicalValue(c.value, json) + ['\0']
    + JoinStrings(SortStrings(CanonicalValues(c.values, json)), 1 as char)
  }

  function CanonicalOf(cs: seq<Condition>, json: Datum -> string): string {
    JoinStrings(SortStrings(Map((c: Condition) => Part(c, json), cs)), 2 as char)
  }

  method Canonical(cs: seq<Condition>, json: Datum -> string) returns (text: string)
    ensures text == CanonicalOf(cs, json)
  {
    var parts: seq<string> := [];
    ghost var part := (c: Condition) => Part(c, json);
    ghost var value := (v: Datum) => CanonicalValue(v, json);
    for i := 0 to |cs|
      invariant |parts| == i && forall k :: 0 <= k < i ==> parts[k] == Part(cs[k], json)
    {
      var c := cs[i];
      var vs: seq<string> := [];
      for j := 0 to |c.values|
        invariant |vs| == j && forall k :: 0 <= k < j ==> vs[k] == CanonicalValue(c.values[k], json)
      {
        vs := vs + [CanonicalValue(c.values[j], json)];
      }
      assert vs == CanonicalValues(c.values, json);
      vs := SortStrings(vs);
      parts := parts + [c.map_ + ['\0'] + c.name + ['\0'] + c.op + ['\0'] + CanonicalValue(c.value, json) + ['\0']
        + JoinStrings(vs, 1 as char)];
    }
    assert parts == Map((c: Condition) => Part(c, json), cs);
    return JoinStrings(SortStrings(parts), 2 as char);
  }

  predicate InOrder(ss: seq<string>) {
    forall i, j :: 0 <= i < j < |ss| ==> !StrLess(ss[j], ss[i])
  }

  lemma {:induction false} InsertOrders(s: string, ss: seq<string>)
    requires InOrder(ss)
    ensures InOrder(InsertString(s, ss)) && multiset(InsertString(s, ss)) == multiset{s} + multiset(ss)
  {
    if ss == [] {
    } else if !StrLess(ss[0], s) {
      forall j | 0 <= j < |ss| ensures !StrLess(ss[j], s) {
        if StrLess(ss[j], s) {
          NotLessChain(s, ss[0], ss[j]);
        }
      }
    } else {
      assert ss == [ss[0]] + ss[1..];
      InsertOrders(s, ss[1..]);
      var rest := InsertString(s, ss[1..]);
      forall j | 0 <= j < |rest| ensures !StrLess(rest[j], ss[0]) {
        assert rest[j] in multiset(rest);
        assert rest[j] == s || rest[j] in ss[1..];
        if rest[j] == s && StrLess(s, ss[0]) {
          StrTransitive(s, ss[0], s);
          StrIrreflexive(s);
        }
      }
    }
  }

  lemma NotLessChain(a: string, b: string, c: string)
    requires !StrLess(b, a) && StrLess(c, a)
    ensures StrLess(c, b)
  {
    StrTotal(b, a);
    if StrLess(a, b) { StrTransitive(c, a, b); }
  }

  lemma {:induction false} SortOrders(ss: seq<string>)
    ensures InOrder(SortStrings(ss)) && multiset(SortStrings(ss)) == multiset(ss)
  {
    if ss != [] {
      SortOrders(ss[1..]);
      InsertOrders(ss[0], SortStrings(ss[1..]));
      assert ss == [ss[0]] + ss[1..];
    }
  }

  /** Two ordered arrangements of the same strings are the same. */
  lemma {:induction false} OrderedOnce(ss: seq<string>, ts: seq<string>)
    requires InOrder(ss) && InOrder(ts) && multiset(ss) == multiset(ts)
    ensures ss == ts
  {
    MultisetMembers(ss, ts);
    if ss != [] {
      assert ss[0] in ts && ts[0] in ss;
      LeastIsFirst(ss, ts[0]);
      LeastIsFirst(ts, ss[0]);
      StrTotal(ss[0], ts[0]);
      assert ss == [ss[0]] + ss[1..] && ts == [ts[0]] + ts[1..];
      assert multiset(ss[1..]) == multiset(ss) - multiset{ss[0]};
      assert multiset(ts[1..]) == multiset(ts) - multiset{ts[0]};
      OrderedOnce(ss[1..], ts[1..]);
    }
  }

  lemma LeastIsFirst(ss: seq<string>, s: string)
    requires InOrder(ss) && s in ss
    ensures !StrLess(s, ss[0])
  {
    StrIrreflexive(s);
    var i :| 0 <= i < |ss| && ss[i] == s;
  }

  lemma SortPermuted(ss: seq<string>, ts: seq<string>)
    requires multiset(ss) == multiset(ts)
    ensures SortStrings(ss) == SortStrings(ts)
  {
    SortOrders(ss);
    SortOrders(ts);
    OrderedOnce(SortStrings(ss), SortStrings(ts));
  }

  // ---- reordering ------------------------------------------------------------------------------------------

  /** The same condition but for the order of its values. */
  predicate SameButOrder(c: Condition, d: Condition) {
    d == c.(values := d.values) && multiset(c.values) == multiset(d.values)
  }

  /** The order of the values of a condition does not matter to what it says: all operators but between take
      a set. */
  predicate SetLike(op: string) {
    op != "between"
  }

  /** One filter is another with its conditions, and the values of each, in another order. */
  predicate Rearranged(cs: seq<Condition>, middle: seq<Condition>, ds: seq<Condition>) {
    && |middle| == |cs| && (forall i :: 0 <= i < |cs| ==> SameButOrder(cs[i], middle[i]))
    && multiset(middle) == multiset(ds)
  }

  lemma PartPermuted(c: Condition, d: Condition, json: Datum -> string)
    requires SameButOrder(c, d)
    ensures Part(c, json) == Part(d, json)
  {
    MapPermuted((v: Datum) => CanonicalValue(v, json), c.values, d.values);
    SortPermuted(CanonicalValues(c.values, json), CanonicalValues(d.values, json));
  }

  /** Reordering conditions and values never changes the canonical form a cursor is bound to. */
  lemma CanonicalPermuted(cs: seq<Condition>, middle: seq<Condition>, ds: seq<Condition>, json: Datum -> string)
    requires Rearranged(cs, middle, ds)
    ensures CanonicalOf(cs, json) == CanonicalOf(ds, json)
  {
    var part := (c: Condition) => Part(c, json);
    forall i | 0 <= i < |cs| ensures Map(part, cs)[i] == Map(part, middle)[i] {
      PartPermuted(cs[i], middle[i], json);
    }
    assert Map(part, cs) == Map(part, middle);
    MapPermuted(part, middle, ds);
    SortPermuted(Map(part, middle), Map(part, ds));
  }

  lemma MatchesPermuted(c: Condition, d: Condition, field: Field, row: Row, conv: Conv)
    requires SameButOrder(c, d) && SetLike(c.op) && FieldFits(field, row)
    ensures Matches(c, field, row, conv) == Matches(d, field, row, conv)
  {
    MultisetMembers(c.values, d.values);
  }

  /** The values of between keep their places; any other values may be in another order. */
  predicate Steady(c: Condition, d: Condition) {
    SetLike(c.op) || c == d
  }

  /** Reordering conditions, and the values of set-like operators, does not change which spans satisfy the
      filter. */
  lemma SatisfiedPermuted(
    cs: seq<Condition>, middle: seq<Condition>, ds: seq<Condition>, allowed: map<string, Field>, row: Row, conv: Conv)
    requires Rearranged(cs, middle, ds) && forall i :: 0 <= i < |cs| ==> Steady(cs[i], middle[i])
    requires FieldsFit(cs, allowed, row)
    ensures FieldsFit(ds, allowed, row)
    ensures (forall c :: c in cs ==> Satisfies(c, allowed, row, conv)) <==>
      forall d :: d in ds ==> Satisfies(d, allowed, row, conv)
  {
    hide FieldFits, Matches;
    MultisetMembers(middle, ds);
    forall i | 0 <= i < |cs|
      ensures Suits(middle[i], allowed, row)
      ensures Satisfies(cs[i], allowed, row, conv) == Satisfies(middle[i], allowed, row, conv)
    {
      assert cs[i] in cs && Suits(cs[i], allowed, row);
      if KeyOf(cs[i].map_, cs[i].name) in allowed && SetLike(cs[i].op) {
        MatchesPermuted(cs[i], middle[i], allowed[KeyOf(cs[i].map_, cs[i].name)], row, conv);
      }
    }
    forall d | d in ds ensures exists i :: 0 <= i < |cs| && d == middle[i] { assert d in middle; }
    forall i | 0 <= i < |cs| ensures middle[i] in ds { assert middle[i] in middle; }
    assert forall c :: c in cs ==> exists i :: 0 <= i < |cs| && c == cs[i];
  }

  // ---- reordered filters are accepted alike ------------------------------------------------------------------

  lemma {:induction false} ValuesAccepted(raws: seq<Datum>, t: LogicalType)
    ensures ValuesOf(raws, t).Ok? <==> forall raw :: raw in raws ==> ValueOf(raw, t).Ok?
    ensures ValuesOf(raws, t).Ok? ==>
      (var vs := ValuesOf(raws, t).value;
       |vs| == |raws| && forall v :: v in vs ==> exists raw :: raw in raws && ValueOf(raw, t) == Ok(v))
  {
    hide ValueOf;
    if raws != [] {
      ValuesAccepted(raws[..|raws| - 1], t);
      assert raws == raws[..|raws| - 1] + [raws[|raws| - 1]];
    }
  }

  lemma ValueIsValid(raw: Datum, t: LogicalType)
    requires ValueOf(raw, t).Ok? && !t.TStringArray? && !t.Unset?
    ensures ValidValue(ValueOf(raw, t).value, t)
  {
  }

  lemma ExprPermuted(c: Condition, d: Condition, field: Field)
    requires SameButOrder(c, d) && ExprOf(c, field).Ok?
    ensures ExprOf(d, field).Ok?
  {
    hide ValueOf, ValidValue;
    MultisetMembers(c.values, d.values);
    var op, t := WireOp(Base(c.op)).value, field.Type();
    if UsesValues(op, t) {
      ValuesAccepted(c.values, ElementType(t));
      ValuesAccepted(d.values, ElementType(t));
      forall v | v in ValuesOf(d.values, ElementType(t)).value ensures ValidValue(v, ElementType(t)) {
        var raw :| raw in d.values && ValueOf(raw, ElementType(t)) == Ok(v);
        ValueIsValid(raw, ElementType(t));
      }
    } else {
      assert c == d;
    }
  }

  lemma AcceptablePermuted(c: Condition, d: Condition, allowed: map<string, Field>)
    requires SameButOrder(c, d)
    ensures Acceptable(c, allowed) <==> Acceptable(d, allowed)
  {
    hide ExprOf;
    if Acceptable(c, allowed) { ExprPermuted(c, d, allowed[KeyOf(c.map_, c.name)]); }
    if Acceptable(d, allowed) { ExprPermuted(d, c, allowed[KeyOf(c.map_, c.name)]); }
  }

  /** Reordering conditions and values, those of between as well, never changes whether a filter is accepted. */
  lemma AcceptedPermuted(cs: seq<Condition>, middle: seq<Condition>, ds: seq<Condition>, fields: seq<Field>)
    requires Rearranged(cs, middle, ds)
    ensures Built(cs, fields).Ok? <==> Built(ds, fields).Ok?
  {
    hide Acceptable, Built;
    var allowed := Filterable(fields);
    BuildAccepts(cs, fields);
    BuildAccepts(ds, fields);
    MultisetMembers(middle, ds);
    forall i | 0 <= i < |cs| ensures Acceptable(cs[i], allowed) <==> Acceptable(middle[i], allowed) {
      AcceptablePermuted(cs[i], middle[i], allowed);
    }
    forall d | d in ds ensures exists i :: 0 <= i < |cs| && d == middle[i] { assert d in middle; }
    forall i | 0 <= i < |cs| ensures middle[i] in ds { assert middle[i] in middle; }
    assert forall c :: c in cs ==> exists i :: 0 <= i < |cs| && c == cs[i];
  }

  /** The two predicates are TRUE on the same spans. */
  ghost predicate SelectAlike(t: SqlSyntax.Ast, u: SqlSyntax.Ast, cs: seq<Condition>, allowed: map<string, Field>) {
    forall c: Ctx :: FieldsFit(cs, allowed, c.row) ==> (IsTrue(Eval(t, c)) <==> IsTrue(Eval(u, c)))
  }

  /** A filter and its rearrangement are accepted alike and, as long as the values of between stay in place, build
      predicates that are TRUE on the same spans. */
  lemma SpansPermuted(cs: seq<Condition>, middle: seq<Condition>, ds: seq<Condition>, fields: seq<Field>)
    returns (t: SqlSyntax.Ast, u: SqlSyntax.Ast)
    requires Rearranged(cs, middle, ds) && (forall i :: 0 <= i < |cs| ==> Steady(cs[i], middle[i]))
    requires Built(cs, fields).Ok?
    ensures Built(ds, fields).Ok?
    ensures Built(cs, fields).value == FragmentOf(t) && Built(ds, fields).value == FragmentOf(u)
    ensures SelectAlike(t, u, cs, Filterable(fields))
  {
    hide Built, Eval, Satisfies, Suits, Steady, Rearranged;
    AcceptedPermuted(cs, middle, ds, fields);
    t := BuildMeaning(cs, fields);
    u := BuildMeaning(ds, fields);
    forall c: Ctx | FieldsFit(cs, Filterable(fields), c.row) ensures IsTrue(Eval(t, c)) <==> IsTrue(Eval(u, c)) {
      SatisfiedPermuted(cs, middle, ds, Filterable(fields), c.row, c.conv);
    }
  }

  /** An accepted between has two numbers for bounds. */
  lemma BetweenBounds(c: Condition, fields: seq<Field>)
    requires c.op == "between" && Built([c], fields).Ok?
    ensures |c.values| == 2 && c.values[0].Num? && c.values[1].Num?
    ensures KeyOf(c.map_, c.name) in Filterable(fields)
    ensures Filterable(fields)[KeyOf(c.map_, c.name)].Type().TNumber?
  {
    BuildAccepts([c], fields);
    assert Acceptable(c, Filterable(fields));
    var field := Filterable(fields)[KeyOf(c.map_, c.name)];
    LeafOperands(c, Op.Between, field, map[]);
    var e := Leaf(c, Op.Between, field).value;
    ResolvedTypes(Operands(e), map[], ElementType(field.Type()));
    assert c.values[0] in c.values && c.values[1] in c.values;
  }

  /** A row on which a numeric field has a given value. */
  function NumberRow(field: Field, n: real): (Row, Conv) {
    if field.Scalar() then (map[field.name := SqlSyntax.Num(n)], Conv(s => None, s => None, s => []))
    else (map[field.map_ := SqlSyntax.Dict(map[field.name := ""])], Conv(s => None, s => Some(n), s => []))
  }

  lemma BetweenOnNumber(c: Condition, allowed: map<string, Field>, n: real)
    requires c.op == "between" && |c.values| == 2 && c.values[0].Num? && c.values[1].Num?
    requires KeyOf(c.map_, c.name) in allowed && allowed[KeyOf(c.map_, c.name)].Type().TNumber?
    ensures var (row, conv) := NumberRow(allowed[KeyOf(c.map_, c.name)], n);
      Suits(c, allowed, row) && (Satisfies(c, allowed, row, conv) <==> c.values[0].n <= n <= c.values[1].n)
  {
  }

  /** The bounds of between are not a set: exchanging them leaves the filter accepted and its canonical form as it
      was, and selects the same spans if and only if they are equal. */
  lemma BetweenReordered(c: Condition, fields: seq<Field>, lo: real, hi: real, json: Datum -> string)
    returns (t: SqlSyntax.Ast, u: SqlSyntax.Ast)
    requires c.op == "between" && c.values == [SqlSyntax.Num(lo), SqlSyntax.Num(hi)] && Built([c], fields).Ok?
    ensures var d := c.(values := [SqlSyntax.Num(hi), SqlSyntax.Num(lo)]);
      && CanonicalOf([c], json) == CanonicalOf([d], json) && Built([d], fields).Ok?
      && Built([c], fields).value == FragmentOf(t) && Built([d], fields).value == FragmentOf(u)
      && (SelectAlike(t, u, [c], Filterable(fields)) <==> lo == hi)
  {
    hide Built, Eval, CanonicalOf, Satisfies, Suits, Acceptable, Filterable, NumberRow;
    var d, allowed := c.(values := [SqlSyntax.Num(hi), SqlSyntax.Num(lo)]), Filterable(fields);
    assert c.values == [SqlSyntax.Num(lo)] + [SqlSyntax.Num(hi)];
    assert d.values == [SqlSyntax.Num(hi)] + [SqlSyntax.Num(lo)];
    assert SameButOrder(c, d);
    CanonicalPermuted([c], [d], [d], json);
    AcceptedPermuted([c], [d], [d], fields);
    BetweenBounds(c, fields);
    t := BuildMeaning([c], fields);
    u := BuildMeaning([d], fields);
    if lo == hi {
      assert [c] == [d];
    } else {
      var n := if lo < hi then lo else hi;
      BetweenOnNumber(c, allowed, n);
      BetweenOnNumber(d, allowed, n);
      var (row, conv) := NumberRow(allowed[KeyOf(c.map_, c.name)], n);
      var ctx := Ctx(conv, map[], row, []);
      assert FieldsFit([c], allowed, ctx.row) && FieldsFit([d], allowed, ctx.row);
      OneCondition(c, allowed, row, conv);
      OneCondition(d, allowed, row, conv);
    }
  }

  lemma OneCondition(c: Condition, allowed: map<string, Field>, row: Row, conv: Conv)
    requires Suits(c, allowed, row)
    ensures (forall d :: d in [c] ==> Satisfies(d, allowed, row, conv)) <==> Satisfies(c, allowed, row, conv)
  {
    assert c in [c];
  }
}
