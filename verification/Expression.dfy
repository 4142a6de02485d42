/** The typed predicate language that policies and filters share: what a predicate tree means, when it is
    valid, and the compiler that lowers it to SQL text and positional arguments. */
module Expression {
  import opened Basics
  import opened Schema
  import opened SqlSyntax
  import opened SqlRoundTrip
  import opened SqlText
  import opened SqlSemantics

  datatype Profile = PolicyProfile | FilterProfile

  datatype Op =
    | AllOf | AnyOf | Negation | Always | Never
    | Equal | NotEqual | In | StartsWith | Exists | HasAny | HasAll
    | Greater | GreaterEq | Less | LessEq | Between

  /** A literal, or the caller attribute of that name if attr is not empty. A missing literal is Null. */
  datatype Value = Value(literal: Datum, attr: string)

  datatype Expr = Expr(op: Op, field: Field, value: Value, values: seq<Value>, children: seq<Expr>)

  // ---- validity --------------------------------------------------------------------------------

  predicate IsConnective(op: Op) {
    op.AllOf? || op.AnyOf? || op.Negation?
  }

  predicate IsOrder(op: Op) {
    op.Greater? || op.GreaterEq? || op.Less? || op.LessEq?
  }

  predicate Allowed(op: Op, t: LogicalType, profile: Profile) {
    match t
    case TString => op.Equal? || op.NotEqual? || op.In? || (profile.FilterProfile? && (op.StartsWith? || op.Exists?))
    case TStringArray => op.In? || (profile.FilterProfile? && (op.HasAny? || op.HasAll?))
    case TBoolean => op.Equal? || op.NotEqual?
    case TNumber => profile.FilterProfile? && (op.Equal? || op.NotEqual? || IsOrder(op) || op.Between?)
    case _ => false
  }

  function ElementType(t: LogicalType): LogicalType {
    if t.TStringArray? then TString else t
  }

  predicate HasType(d: Datum, t: LogicalType) {
    match t
    case TString => d.Str?
    case TStringArray => d.Arr?
    case TBoolean => d.Bool?
    case TNumber => d.Num?
    case _ => false
  }

  predicate ValidValue(v: Value, t: LogicalType) {
    if v.attr != "" then t.TString? else !t.TStringArray? && HasType(v.literal, t)
  }

  /** The operator compares with a list of values rather than with one value. */
  predicate TakesList(op: Op, t: LogicalType) {
    (op.In? && t.TString?) || op.HasAny? || op.HasAll? || op.Between?
  }

  predicate ValidValues(e: Expr, t: LogicalType) {
    if e.op.Exists? then e.value == Value(Null, "") && e.values == []
    else if TakesList(e.op, t) then
      && (if e.op.Between? then |e.values| == 2 else e.values != [])
      && forall v :: v in e.values ==> ValidValue(v, ElementType(t))
    else ValidValue(e.value, ElementType(t))
  }

  predicate Valid(e: Expr, profile: Profile)
    decreases e
  {
    if IsConnective(e.op) then
      && (if e.op.Negation? then |e.children| == 1 else |e.children| >= 1)
      && forall c :: c in e.children ==> Valid(c, profile)
    else if e.op.Always? || e.op.Never? then true
    else Allowed(e.op, e.field.Type(), profile) && ValidValues(e, e.field.Type())
  }

  predicate ValidAll(es: seq<Expr>, profile: Profile) {
    forall c :: c in es ==> Valid(c, profile)
  }

  /** The values a leaf compares with; any others it carries are ignored. */
  function Operands(e: Expr): seq<Value> {
    if e.op.Exists? then [] else if TakesList(e.op, e.field.Type()) then e.values else [e.value]
  }

  /** The caller attributes a predicate refers to. */
  function Refs(e: Expr): set<string>
    decreases e, 1
  {
    if IsConnective(e.op) then RefsAll(e.children)
    else if e.op.Always? || e.op.Never? then {}
    else RefsOf(Operands(e))
  }

  function RefsAll(es: seq<Expr>): set<string>
    decreases es, 0
  {
    if es == [] then {} else Refs(es[0]) + RefsAll(es[1..])
  }

  function RefsOf(vs: seq<Value>): set<string> {
    set v | v in vs && v.attr != "" :: v.attr
  }

  // ---- the reference meaning: CEL, where a missing key is an error and && and || absorb errors ---

  datatype Verdict = True | False | Error

  function AndVerdict(v: Verdict, w: Verdict): Verdict {
    if v.False? || w.False? then False else if v.Error? || w.Error? then Error else True
  }

  function OrVerdict(v: Verdict, w: Verdict): Verdict {
    if v.True? || w.True? then True else if v.Error? || w.Error? then Error else False
  }

  function NotVerdict(v: Verdict): Verdict {
    match v case True => False case False => True case Error => Error
  }

  function Decide(b: bool): Verdict {
    if b then True else False
  }

  /** The row has the column of a field, holding values of its type. */
  predicate FieldFits(f: Field, row: Row) {
    if f.Scalar() then f.name in row && HasType(row[f.name], f.Type())
    else f.map_ in row && row[f.map_].Dict? && !f.Type().Unknown?
  }

  predicate RowFits(e: Expr, row: Row)
    decreases e
  {
    if IsConnective(e.op) then forall c :: c in e.children ==> RowFits(c, row)
    else if e.op.Always? || e.op.Never? then true
    else FieldFits(e.field, row)
  }

  predicate RowFitsAll(es: seq<Expr>, row: Row) {
    forall c :: c in es ==> RowFits(c, row)
  }

  function Convert(s: string, t: LogicalType, conv: Conv): Option<Datum> {
    match t
    case TBoolean => (match conv.toBool(s) case None => None case Some(b) => Some(Bool(b)))
    case TNumber => (match conv.toNum(s) case None => None case Some(n) => Some(Num(n)))
    case TStringArray => Some(Arr(conv.toArr(s)))
    case _ => Some(Str(s))
  }

  /** The value of a field on a row; None if the key is missing or does not convert to the field's type. */
  function Lookup(f: Field, row: Row, conv: Conv): Option<Datum>
    requires FieldFits(f, row)
  {
    if f.Scalar() then Some(row[f.name])
    else if f.name !in row[f.map_].entries then None
    else Convert(row[f.map_].entries[f.name], f.Type(), conv)
  }

  function Resolve(v: Value, attrs: map<string, string>): Option<Datum> {
    if v.attr == "" then Some(v.literal)
    else if v.attr in attrs then Some(Str(attrs[v.attr]))
    else None
  }

  function ResolveAll(vs: seq<Value>, attrs: map<string, string>): (r: Option<seq<Datum>>)
    ensures r.Some? ==> |r.value| == |vs|
  {
    if vs == [] then Some([])
    else
      match (Resolve(vs[0], attrs), ResolveAll(vs[1..], attrs))
      case (Some(d), Some(rest)) => Some([d] + rest)
      case _ => None
  }

  /** What a comparison says about a value of the field's type. */
  predicate Holds(op: Op, d: Datum, ds: seq<Datum>) {
    if op.In? && d.Arr? then |ds| == 1 && ds[0].Str? && ds[0].s in d.elems
    else if op.In? then d in ds
    else if op.HasAny? || op.HasAll? then
      d.Arr? && (if op.HasAny? then exists x :: x in ds && x.Str? && x.s in d.elems
                 else forall x :: x in ds ==> x.Str? && x.s in d.elems)
    else if op.Between? then |ds| == 2 && d.Num? && ds[0].Num? && ds[1].Num? && ds[0].n <= d.n <= ds[1].n
    else if |ds| != 1 then false
    else if op.Equal? then d == ds[0]
    else if op.NotEqual? then d != ds[0]
    else if op.StartsWith? then d.Str? && ds[0].Str? && ds[0].s <= d.s
    else if IsOrder(op) && d.Num? && ds[0].Num? then
      match op
      case Greater => d.n > ds[0].n
      case GreaterEq => d.n >= ds[0].n
      case Less => d.n < ds[0].n
      case _ => d.n <= ds[0].n
    else false
  }

  function Meaning(e: Expr, row: Row, attrs: map<string, string>, conv: Conv): Verdict
    requires RowFits(e, row)
    decreases e, 1
  {
    match e.op
    case AllOf => MeaningAll(e.children, row, attrs, conv)
    case AnyOf => MeaningAny(e.children, row, attrs, conv)
    case Negation =>
      if |e.children| == 1 then NotVerdict(Meaning(e.children[0], row, attrs, conv)) else Error
    case Always => True
    case Never => False
    case Exists => Decide(e.field.Scalar() || e.field.name in row[e.field.map_].entries)
    case _ =>
      match (Lookup(e.field, row, conv), ResolveAll(Operands(e), attrs))
      case (Some(d), Some(ds)) => Decide(Holds(e.op, d, ds))
      case _ => Error
  }

  function MeaningAll(es: seq<Expr>, row: Row, attrs: map<string, string>, conv: Conv): Verdict
    requires RowFitsAll(es, row)
    decreases es, 0
  {
    if es == [] then True else AndVerdict(Meaning(es[0], row, attrs, conv), MeaningAll(es[1..], row, attrs, conv))
  }

  function MeaningAny(es: seq<Expr>, row: Row, attrs: map<string, string>, conv: Conv): Verdict
    requires RowFitsAll(es, row)
    decreases es, 0
  {
    if es == [] then False else OrVerdict(Meaning(es[0], row, attrs, conv), MeaningAny(es[1..], row, attrs, conv))
  }

  // ---- lowering: the syntax tree of the text the compiler emits ----------------------------------

  function Holes(ds: seq<Datum>): Args {
    if ds == [] then Nil else Cons(Hole(ds[0]), Holes(ds[1..]))
  }

  function Guard(f: Field): Ast { Call(MapContains, Two(Col(f.map_), Hole(Str(f.name)))) }

  function Operand(f: Field): Ast {
    if f.Scalar() then Col(f.name)
    else
      var at := At(f.map_, Hole(Str(f.name)));
      match f.Type()
      case TBoolean => Call(ToBoolOrNull, One(at))
      case TNumber => Call(ToFloat64OrNull, One(at))
      case TStringArray => Call(JSONExtract, Two(at, Text("Array(String)")))
      case _ => at
  }

  function Comparison(op: Op): Cmp
    requires IsPlain(op)
  {
    match op
    case Equal => Eq case NotEqual => Ne case Greater => Gt case GreaterEq => Ge case Less => Lt case _ => Le
  }

  /** The comparison that holds exactly when another does not. */
  function Opposite(op: Op): Op {
    match op
    case Equal => NotEqual case NotEqual => Equal
    case Greater => LessEq case GreaterEq => Less case Less => GreaterEq case LessEq => Greater
    case _ => op
  }

  function Signed(negated: bool, a: Ast): Ast {
    if negated then Ast.Not(a) else a
  }

  predicate IsPlain(op: Op) {
    op.Equal? || op.NotEqual? || IsOrder(op)
  }

  function Test(op: Op, negated: bool, f: Field, ds: seq<Datum>): Ast
    requires ds != [] && (op.Between? ==> |ds| == 2)
  {
    var x := Operand(f);
    if IsPlain(op) then Compare(Comparison(if negated then Opposite(op) else op), x, Hole(ds[0]))
    else if op.In? && !f.Type().TStringArray? then InList(negated, x, Holes(ds))
    else Signed(negated, Membership(op, x, ds))
  }

  /** The tests that are negated by a NOT in front. */
  function Membership(op: Op, x: Ast, ds: seq<Datum>): Ast
    requires ds != [] && (op.Between? ==> |ds| == 2)
  {
    if op.Between? then Parens(Ast.Between(x, Hole(ds[0]), Hole(ds[1])))
    else if op.HasAny? || op.HasAll? then Call(if op.HasAny? then Fn.HasAny else Fn.HasAll, Two(x, List(Holes(ds))))
    else Call(if op.In? then Fn.Has else Fn.StartsWith, Two(x, Hole(ds[0])))
  }

  function Leaf(e: Expr, negated: bool, ds: seq<Datum>): Ast
    requires ds != [] && (e.op.Between? ==> |ds| == 2)
  {
    var test := Test(e.op, negated, e.field, ds);
    Parens(if e.field.Scalar() then test else Ast.And(Guard(e.field), test))
  }

  function ExistsAst(f: Field, negated: bool): Ast {
    if f.Scalar() then Lit(if negated then 0 else 1)
    else if negated then Parens(Ast.Not(Guard(f)))
    else Guard(f)
  }

  /** None if the predicate refers to an attribute the caller lacks. */
  function Lower(e: Expr, negated: bool, attrs: map<string, string>, profile: Profile): Option<Ast>
    requires Valid(e, profile)
    decreases e, 2
  {
    match e.op
    case Always => Some(Lit(if negated then 0 else 1))
    case Never => Some(Lit(if negated then 1 else 0))
    case Negation => Lower(e.children[0], !negated, attrs, profile)
    case AllOf => LowerChain(e.children, negated, negated, attrs, profile)
    case AnyOf => LowerChain(e.children, negated, !negated, attrs, profile)
    case Exists => Some(ExistsAst(e.field, negated))
    case _ =>
      match ResolveAll(Operands(e), attrs) case None => None case Some(ds) => Some(Leaf(e, negated, ds))
  }

  function LowerChain(es: seq<Expr>, negated: bool, disj: bool, attrs: map<string, string>, profile: Profile)
    : Option<Ast>
    requires es != [] && ValidAll(es, profile)
    decreases es, 1
  {
    match LowerAll(es, negated, attrs, profile)
    case None => None
    case Some(as_) => Some(Parens(Chain(as_, disj)))
  }

  function LowerAll(es: seq<Expr>, negated: bool, attrs: map<string, string>, profile: Profile): (r: Option<seq<Ast>>)
    requires ValidAll(es, profile)
    ensures r.Some? ==> |r.value| == |es|
    decreases es, 0
  {
    if es == [] then Some([])
    else
      match (Lower(es[0], negated, attrs, profile), LowerAll(es[1..], negated, attrs, profile))
      case (Some(a), Some(rest)) => Some([a] + rest)
      case _ => None
  }

  // ---- the compiler --------------------------------------------------------------------------------

  /** SQL text and its positional arguments. */
  datatype Fragment = Fragment(sql: seq<Token>, args: seq<Datum>)

  datatype Refusal = Invalid | Unsatisfiable

  function FragmentOf(a: Ast): Fragment {
    Fragment(TextOf(a), ArgsOf(a))
  }

  function Compiled(e: Expr, profile: Profile, attrs: map<string, string>): Result<Fragment, Refusal> {
    if !Valid(e, profile) then Err(Invalid)
    else
      match Lower(e, false, attrs, profile)
      case None => Err(Unsatisfiable)
      case Some(a) => Ok(FragmentOf(a))
  }

  class Compiler {
    var sql: seq<Token>
    var args: seq<Datum>
    const attrs: map<string, string>

    constructor (attrs: map<string, string>)
      ensures this.attrs == attrs && sql == [] && args == []
    {
      this.attrs := attrs;
      sql, args := [], [];
    }

    /** What has been appended since some earlier state is the text and the arguments of a tree. */
    twostate predicate Appended(a: Ast)
      reads this
    {
      sql == old(sql) + TextOf(a) && args == old(args) + ArgsOf(a)
    }

    method Emit(e: Expr, negated: bool, ghost profile: Profile) returns (ok: bool)
      requires Valid(e, profile)
      modifies this
      ensures ok == Lower(e, negated, attrs, profile).Some?
      ensures ok ==> Appended(Lower(e, negated, attrs, profile).value)
      decreases e, 1
    {
      ok := true;
      if e.op.Always? || e.op.Never? {
        var v := e.op.Always?;
        if negated { v := !v; }
        sql := sql + [NUM(if v then 1 else 0)];
        AtomTexts("", Null, if v then 1 else 0);
      } else if e.op.Negation? {
        ok := Emit(e.children[0], !negated, profile);
      } else if e.op.AllOf? || e.op.AnyOf? {
        ok := EmitConnective(e.children, negated, e.op.AnyOf? != negated, profile);
      } else if e.op.Exists? {
        EmitExists(e.field, negated);
      } else {
        ok := EmitLeaf(e, negated, profile);
      }
    }

    method EmitConnective(es: seq<Expr>, negated: bool, disj: bool, ghost profile: Profile) returns (ok: bool)
      requires es != [] && ValidAll(es, profile)
      modifies this
      ensures ok == LowerChain(es, negated, disj, attrs, profile).Some?
      ensures ok ==> Appended(LowerChain(es, negated, disj, attrs, profile).value)
      decreases es, 1
    {
      hide TextOf, ArgsOf, Lower, JoinedText, JoinedArgs, Valid;
      sql := sql + [LP];
      ghost var as_: seq<Ast> := [];
      ghost var text, filled := sql, args;
      JoinedNone(disj);
      var i := 0;
      while i < |es|
        invariant 0 <= i <= |es|
        invariant LowerAll(es[..i], negated, attrs, profile) == Some(as_)
        invariant sql == text + JoinedText(as_, disj)
        invariant args == filled + JoinedArgs(as_, disj)
      {
        LowerSplit(es, i, negated, attrs, profile);
        ghost var a := Lower(es[i], negated, attrs, profile);
        ok := EmitNext(es, i, negated, disj, profile);
        if !ok { return; }
        JoinOneMore(as_, a.value, disj);
        Regroup(text, JoinedText(as_, disj), (if i == 0 then [] else [if disj then OR else AND]) + TextOf(a.value));
        Regroup(filled, JoinedArgs(as_, disj), ArgsOf(a.value));
        as_ := as_ + [a.value];
        i := i + 1;
      }
      assert es[..i] == es;
      JoinedSome(as_, disj);
      sql := sql + [RP];
      ParensText(Chain(as_, disj));
      ok := true;
    }

    /** One operand of a connective, with the operator in front of it if it is not the first. */
    method EmitNext(es: seq<Expr>, i: nat, negated: bool, disj: bool, ghost profile: Profile) returns (ok: bool)
      requires i < |es| && ValidAll(es, profile)
      modifies this
      ensures ok == Lower(es[i], negated, attrs, profile).Some?
      ensures ok ==> (var a := Lower(es[i], negated, attrs, profile).value;
        && sql == old(sql) + ((if i == 0 then [] else [if disj then OR else AND]) + TextOf(a))
        && args == old(args) + ArgsOf(a))
      decreases es, 0
    {
      hide TextOf, ArgsOf, Lower, Valid;
      assert es[i] in es;
      if i > 0 { sql := sql + [if disj then OR else AND]; }
      ok := Emit(es[i], negated, profile);
      if ok && i > 0 {
        Regroup(old(sql), [if disj then OR else AND], TextOf(Lower(es[i], negated, attrs, profile).value));
      }
    }

    method EmitExists(f: Field, negated: bool)
      modifies this
      ensures Appended(ExistsAst(f, negated))
    {
      if f.Scalar() {
        sql := sql + [NUM(if negated then 0 else 1)];
        AtomTexts("", Null, if negated then 0 else 1);
        return;
      }
      if negated { sql := sql + [LP, NOT]; }
      sql := sql + [FN(MapContains), LP];
      sql := sql + [WORD(f.map_), COMMA, MARK, RP];
      if negated { sql := sql + [RP]; }
      args := args + [Str(f.name)];
      GuardText(f);
    }

    /** Appends the placeholders of a list of values; stops at the first one the caller lacks. */
    method EmitValues(vs: seq<Value>) returns (ok: bool)
      requires vs != []
      modifies this
      ensures ok == ResolveAll(vs, attrs).Some?
      ensures ok ==> sql == old(sql) + TextOfArgs(Holes(ResolveAll(vs, attrs).value))
      ensures ok ==> args == old(args) + ResolveAll(vs, attrs).value
    {
      var i := 0;
      ok := true;
      while i < |vs|
        invariant 0 <= i <= |vs|
        invariant ResolveAll(vs[..i], attrs).Some?
        invariant sql == old(sql) + TextOfArgs(Holes(ResolveAll(vs[..i], attrs).value))
        invariant args == old(args) + ResolveAll(vs[..i], attrs).value
      {
        if i > 0 { sql := sql + [COMMA]; }
        var v := Resolve(vs[i], attrs);
        ResolveSplit(vs, i, attrs);
        if v.None? { ok := false; return; }
        sql := sql + [MARK];
        args := args + [v.value];
        HolesText(ResolveAll(vs[..i], attrs).value, v.value);
        assert vs[..i + 1] == vs[..i] + [vs[i]];
        i := i + 1;
      }
      assert vs[..i] == vs;
    }

    method EmitLeaf(e: Expr, negated: bool, ghost profile: Profile) returns (ok: bool)
      requires Valid(e, profile) && !IsConnective(e.op) && !e.op.Always? && !e.op.Never? && !e.op.Exists?
      modifies this
      ensures ok == ResolveAll(Operands(e), attrs).Some?
      ensures ok ==> Appended(Leaf(e, negated, ResolveAll(Operands(e), attrs).value))
    {
      hide TextOf, ArgsOf, Leaf, Test, Guard, Operand, ResolveAll;
      var f := e.field;
      var x := [WORD(f.name)];
      if !f.Scalar() {
        sql := sql + [LP, FN(MapContains), LP, WORD(f.map_), COMMA, MARK, RP, AND];
        args := args + [Str(f.name)];
        x := [WORD(f.map_), LB, MARK, RB];
        args := args + [Str(f.name)];
        match f.Type() {
          case TBoolean => x := [FN(ToBoolOrNull), LP] + x + [RP];
          case TNumber => x := [FN(ToFloat64OrNull), LP] + x + [RP];
          case TStringArray => x := [FN(JSONExtract), LP] + x + [COMMA, QUOTED("Array(String)"), RP];
          case _ =>
        }
      } else {
        sql := sql + [LP];
      }
      OperandText(f);
      GuardText(f);
      assert x == TextOf(Operand(f));
      ok := EmitTest(e, negated, x, profile);
      if ok {
        sql := sql + [RP];
        LeafText(e, negated, ResolveAll(Operands(e), attrs).value);
      }
    }

    /** The comparison itself, after the guard and on the text x of the operand; the key that the operand
        mentions has been appended to the arguments before. */
    method EmitTest(e: Expr, negated: bool, x: seq<Token>, ghost profile: Profile) returns (ok: bool)
      requires Valid(e, profile) && !IsConnective(e.op) && !e.op.Always? && !e.op.Never? && !e.op.Exists?
      requires x == TextOf(Operand(e.field))
      modifies this
      ensures ok == ResolveAll(Operands(e), attrs).Some?
      ensures ok ==> sql == old(sql) + TextOf(Test(e.op, negated, e.field, ResolveAll(Operands(e), attrs).value))
      ensures ok ==> args == old(args) + ResolveAll(Operands(e), attrs).value
      ensures ok ==> (var ds := ResolveAll(Operands(e), attrs).value;
        ArgsOf(Test(e.op, negated, e.field, ds)) == ArgsOf(Operand(e.field)) + ds)
    {
      hide TextOf, ArgsOf, TextOfArgs, Operand, Holes, ResolveAll;
      var f := e.field;
      ghost var o := Operand(f);
      var op := if negated then Opposite(e.op) else e.op;
      ResolveOne(e.value, attrs);
      if IsPlain(op) {
        var v := Resolve(e.value, attrs);
        if v.None? { return false; }
        sql := sql + (x + [CMP(Comparison(op)), MARK]);
        args := args + [v.value];
        PlainText(Comparison(op), o, v.value);
      } else if op.In? && !f.Type().TStringArray? {
        sql := sql + x;
        sql := sql + ((if negated then [NOT] else []) + [IN, LP]);
        ok := EmitValues(e.values);
        if !ok { return; }
        sql := sql + [RP];
        InListText(negated, o, ResolveAll(e.values, attrs).value);
      } else {
        if negated { sql := sql + [NOT]; }
        ok := EmitMembership(e, x, profile);
        if ok { SignedText(negated, Membership(e.op, o, ResolveAll(Operands(e), attrs).value)); }
        return;
      }
      ok := true;
    }

    /** Appends the bounds of a range, whose placeholders are written already. */
    method AppendValues(vs: seq<Value>) returns (ok: bool)
      modifies this`args
      ensures ok == ResolveAll(vs, attrs).Some?
      ensures ok ==> args == old(args) + ResolveAll(vs, attrs).value
    {
      var i := 0;
      while i < |vs|
        invariant 0 <= i <= |vs|
        invariant ResolveAll(vs[..i], attrs).Some?
        invariant args == old(args) + ResolveAll(vs[..i], attrs).value
      {
        var v := Resolve(vs[i], attrs);
        ResolveSplit(vs, i, attrs);
        if v.None? { return false; }
        args := args + [v.value];
        assert vs[..i + 1] == vs[..i] + [vs[i]];
        i := i + 1;
      }
      assert vs[..i] == vs;
      ok := true;
    }

    method EmitMembership(e: Expr, x: seq<Token>, ghost profile: Profile) returns (ok: bool)
      requires Valid(e, profile) && !IsConnective(e.op) && !e.op.Always? && !e.op.Never? && !e.op.Exists?
      requires !IsPlain(e.op) && (e.op.In? ==> e.field.Type().TStringArray?)
      requires x == TextOf(Operand(e.field))
      modifies this
      ensures ok == ResolveAll(Operands(e), attrs).Some?
      ensures ok ==> sql == old(sql) + TextOf(Membership(e.op, Operand(e.field), ResolveAll(Operands(e), attrs).value))
      ensures ok ==> args == old(args) + ResolveAll(Operands(e), attrs).value
      ensures ok ==> (var ds := ResolveAll(Operands(e), attrs).value;
        ArgsOf(Membership(e.op, Operand(e.field), ds)) == ArgsOf(Operand(e.field)) + ds)
    {
      ghost var o := Operand(e.field);
      if e.op.StartsWith? || e.op.In? {
        ResolveOne(e.value, attrs);
        var v := Resolve(e.value, attrs);
        if v.None? { return false; }
        var fn := if e.op.In? then Fn.Has else Fn.StartsWith;
        sql := sql + ([FN(fn), LP] + x + [COMMA] + [MARK] + [RP]);
        args := args + [v.value];
        AtomTexts("", v.value, 0);
        CallTwoText(fn, o, Hole(v.value));
        assert sql == old(sql) + TextOf(Membership(e.op, o, [v.value]));
      } else if e.op.HasAny? || e.op.HasAll? {
        var fn := if e.op.HasAny? then Fn.HasAny else Fn.HasAll;
        ghost var before := sql;
        sql := sql + ([FN(fn), LP] + x + [COMMA] + [LB]);
        ok := EmitValues(e.values);
        if !ok { return; }
        ghost var ds := ResolveAll(e.values, attrs).value;
        ghost var holes := TextOfArgs(Holes(ds));
        sql := sql + [RB] + [RP];
        assert sql == before + ([FN(fn), LP] + x + [COMMA] + ([LB] + holes + [RB]) + [RP]);
        ListText(ds);
        CallTwoText(fn, o, List(Holes(ds)));
        assert sql == old(sql) + TextOf(Membership(e.op, o, ds));
      } else {
        sql := sql + ([LP] + (x + [BETWEEN, MARK, AND, MARK]) + [RP]);
        ok := AppendValues(e.values);
        if !ok { return; }
        ghost var ds := ResolveAll(e.values, attrs).value;
        BetweenText(o, ds[0], ds[1]);
        assert ds == [ds[0], ds[1]];
        assert sql == old(sql) + TextOf(Membership(e.op, o, ds));
      }
      ok := true;
    }
  }

  /** Validates, then compiles into a fresh builder. */
  method Compile(e: Expr, profile: Profile, attrs: map<string, string>) returns (r: Result<Fragment, Refusal>)
    ensures r == Compiled(e, profile, attrs)
  {
    if !Valid(e, profile) { return Err(Invalid); }
    var b := new Compiler(attrs);
    var ok := b.Emit(e, false, profile);
    if !ok { return Err(Unsatisfiable); }
    ghost var a := Lower(e, false, attrs, profile).value;
    assert [] + TextOf(a) == TextOf(a) && [] + ArgsOf(a) == ArgsOf(a);
    return Ok(Fragment(b.sql, b.args));
  }

  // ---- the text of the trees above --------------------------------------------------------------

  lemma SignedText(negated: bool, a: Ast)
    ensures TextOf(Signed(negated, a)) == if negated then [NOT] + TextOf(a) else TextOf(a)
    ensures ArgsOf(Signed(negated, a)) == ArgsOf(a)
  {
  }

  lemma GuardText(f: Field)
    ensures TextOf(Guard(f)) == [FN(MapContains), LP, WORD(f.map_), COMMA, MARK, RP]
    ensures ArgsOf(Guard(f)) == [Str(f.name)]
    ensures TextOf(Parens(Ast.Not(Guard(f)))) == [LP, NOT] + TextOf(Guard(f)) + [RP]
    ensures ArgsOf(Parens(Ast.Not(Guard(f)))) == [Str(f.name)]
  {
    ParensText(Ast.Not(Guard(f)));
    AtomTexts(f.map_, Str(f.name), 0);
    CallTwoText(MapContains, Col(f.map_), Hole(Str(f.name)));
  }

  lemma OperandText(f: Field)
    ensures ArgsOf(Operand(f)) == if f.Scalar() then [] else [Str(f.name)]
    ensures var at := [WORD(f.map_), LB, MARK, RB];
      TextOf(Operand(f)) ==
        if f.Scalar() then [WORD(f.name)]
        else match f.Type()
          case TBoolean => [FN(ToBoolOrNull), LP] + at + [RP]
          case TNumber => [FN(ToFloat64OrNull), LP] + at + [RP]
          case TStringArray => [FN(JSONExtract), LP] + at + [COMMA, QUOTED("Array(String)"), RP]
          case _ => at
  {
    var at := At(f.map_, Hole(Str(f.name)));
    AtomTexts(f.name, Str(f.name), 0);
    AtomTexts(f.map_, Str(f.name), 0);
    assert TextOf(Text("Array(String)")) == [QUOTED("Array(String)")];
    CallOneText(ToBoolOrNull, at);
    CallOneText(ToFloat64OrNull, at);
    CallTwoText(JSONExtract, at, Text("Array(String)"));
  }

  lemma {:induction false} HolesFilled(ds: seq<Datum>)
    ensures ArgsOfArgs(Holes(ds)) == ds
  {
    if ds != [] {
      HolesFilled(ds[1..]);
      assert ArgsOfArgs(Holes(ds)) == Fill(Hole(ds[0]), ArgsOfArgs(Holes(ds[1..])));
    }
  }

  lemma {:induction false} HolesText(ds: seq<Datum>, d: Datum)
    ensures TextOfArgs(Holes(ds + [d])) == TextOfArgs(Holes(ds)) + (if ds == [] then [] else [COMMA]) + [MARK]
  {
    if ds == [] {
      assert Holes([d]) == One(Hole(d));
      FirstHole(d, Nil);
      assert [] + [d] == [d];
    } else {
      HolesText(ds[1..], d);
      assert (ds + [d])[1..] == ds[1..] + [d];
      HolesHead(ds);
      HolesHead(ds + [d]);
    }
  }

  lemma FirstHole(d: Datum, rest: Args)
    ensures TextOfArgs(Cons(Hole(d), rest)) == if rest.Nil? then [MARK] else [MARK] + ([COMMA] + TextOfArgs(rest))
  {
    var after := if rest.Nil? then End else T(COMMA, PutArgs(rest, End));
    assert PutArgs(Cons(Hole(d), rest), End) == Put(Hole(d), after) == T(MARK, after);
    if rest.Cons? { FlatTwo(MARK, COMMA, PutArgs(rest, End)); }
  }

  lemma HolesHead(ds: seq<Datum>)
    requires ds != []
    ensures TextOfArgs(Holes(ds)) == if |ds| == 1 then [MARK] else [MARK] + ([COMMA] + TextOfArgs(Holes(ds[1..])))
  {
    var rest := Holes(ds[1..]);
    assert Holes(ds) == Cons(Hole(ds[0]), rest) && (rest.Nil? <==> |ds| == 1);
    FirstHole(ds[0], rest);
  }

  lemma {:induction false} LowerSplit(es: seq<Expr>, i: nat, negated: bool, attrs: map<string, string>,
    profile: Profile)
    requires i < |es| && ValidAll(es, profile)
    ensures LowerAll(es, negated, attrs, profile).Some? ==> Lower(es[i], negated, attrs, profile).Some?
    ensures LowerAll(es[..i], negated, attrs, profile).Some? && Lower(es[i], negated, attrs, profile).Some? ==>
      LowerAll(es[..i + 1], negated, attrs, profile)
        == Some(LowerAll(es[..i], negated, attrs, profile).value + [Lower(es[i], negated, attrs, profile).value])
  {
    if i > 0 {
      LowerSplit(es[1..], i - 1, negated, attrs, profile);
      assert es[..i][1..] == es[1..][..i - 1];
      assert es[..i + 1][1..] == es[1..][..i];
      if LowerAll(es[..i], negated, attrs, profile).Some? && Lower(es[i], negated, attrs, profile).Some? {
        var a0, a := Lower(es[0], negated, attrs, profile).value, Lower(es[i], negated, attrs, profile).value;
        var rest := LowerAll(es[..i][1..], negated, attrs, profile).value;
        assert ([a0] + rest) + [a] == [a0] + (rest + [a]);
      }
    } else {
      assert es[..1] == [es[0]];
      assert LowerAll([es[0]][1..], negated, attrs, profile) == Some([]);
      assert forall a: Ast :: [a] + [] == [] + [a];
    }
  }

  lemma ResolveOne(v: Value, attrs: map<string, string>)
    ensures ResolveAll([v], attrs) == match Resolve(v, attrs) case None => None case Some(d) => Some([d])
  {
    assert [v][1..] == [] && ResolveAll([v][1..], attrs) == Some([]);
    assert forall d: Datum :: [d] + [] == [d];
  }

  lemma {:induction false} ResolveSplit(vs: seq<Value>, i: nat, attrs: map<string, string>)
    requires i < |vs|
    ensures ResolveAll(vs, attrs).Some? ==> ResolveAll(vs[..i], attrs).Some? && Resolve(vs[i], attrs).Some?
    ensures ResolveAll(vs[..i], attrs).Some? && Resolve(vs[i], attrs).Some? ==>
      ResolveAll(vs[..i] + [vs[i]], attrs) == Some(ResolveAll(vs[..i], attrs).value + [Resolve(vs[i], attrs).value])
  {
    if i > 0 {
      ResolveSplit(vs[1..], i - 1, attrs);
      assert vs[..i][1..] == vs[1..][..i - 1];
      assert (vs[..i] + [vs[i]])[1..] == vs[..i][1..] + [vs[i]];
      if ResolveAll(vs[..i], attrs).Some? && Resolve(vs[i], attrs).Some? {
        var d0, rest, d := Resolve(vs[0], attrs).value, ResolveAll(vs[..i][1..], attrs).value,
          Resolve(vs[i], attrs).value;
        assert ([d0] + rest) + [d] == [d0] + (rest + [d]);
      }
    } else {
      assert vs[..0] + [vs[0]] == [vs[0]];
      assert ResolveAll([vs[0]][1..], attrs) == Some([]);
      assert forall d: Datum :: [d] + [] == [] + [d];
    }
  }

  lemma PlainText(cmp: Cmp, x: Ast, d: Datum)
    ensures TextOf(Compare(cmp, x, Hole(d))) == TextOf(x) + [CMP(cmp), MARK]
    ensures ArgsOf(Compare(cmp, x, Hole(d))) == ArgsOf(x) + [d]
  {
    CompareText(cmp, x, Hole(d));
    AtomTexts("", d, 0);
  }

  lemma InListText(negated: bool, x: Ast, ds: seq<Datum>)
    ensures TextOf(InList(negated, x, Holes(ds)))
         == TextOf(x) + ((if negated then [NOT] else []) + ([IN, LP] + (TextOfArgs(Holes(ds)) + [RP])))
    ensures ArgsOf(InList(negated, x, Holes(ds))) == ArgsOf(x) + ds
  {
    HolesFilled(ds);
    InListTextOf(negated, x, Holes(ds));
  }

  lemma ListText(ds: seq<Datum>)
    ensures TextOf(List(Holes(ds))) == [LB] + TextOfArgs(Holes(ds)) + [RB] && ArgsOf(List(Holes(ds))) == ds
  {
    FlatPutArgs(Holes(ds), T(RB, End));
    HolesFilled(ds);
  }

  lemma BetweenText(x: Ast, lo: Datum, hi: Datum)
    ensures var a := Parens(Ast.Between(x, Hole(lo), Hole(hi)));
      TextOf(a) == [LP] + (TextOf(x) + [BETWEEN, MARK, AND, MARK]) + [RP] && ArgsOf(a) == ArgsOf(x) + [lo, hi]
  {
    ParensText(Ast.Between(x, Hole(lo), Hole(hi)));
    var tail := T(BETWEEN, T(MARK, T(AND, T(MARK, End))));
    assert Put(Hole(lo), T(AND, Put(Hole(hi), End))) == T(MARK, T(AND, T(MARK, End)));
    FlatPut(x, tail);
    FlatFour(BETWEEN, MARK, AND, MARK, End);
    assert Fill(Hole(lo), Fill(Hole(hi), [])) == [lo, hi];
    Filled(x, [lo, hi]);
  }

  lemma LeafText(e: Expr, negated: bool, ds: seq<Datum>)
    requires ds != [] && (e.op.Between? ==> |ds| == 2)
    ensures var test := Test(e.op, negated, e.field, ds);
      && TextOf(Leaf(e, negated, ds)) ==
         (if e.field.Scalar() then [LP] else [LP] + TextOf(Guard(e.field)) + [AND]) + TextOf(test) + [RP]
      && ArgsOf(Leaf(e, negated, ds)) ==
         (if e.field.Scalar() then [] else ArgsOf(Guard(e.field))) + ArgsOf(test)
  {
    hide TextOf, ArgsOf, Test, Guard;
    var test := Test(e.op, negated, e.field, ds);
    ParensText(if e.field.Scalar() then test else Ast.And(Guard(e.field), test));
    ChainText(Guard(e.field), test, false);
  }
}
