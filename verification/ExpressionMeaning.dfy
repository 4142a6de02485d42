/** The compiler preserves meaning: what the database computes for the emitted text, on every row and for
    every caller, is what CEL says about the predicate. */
module ExpressionMeaning {
  import opened Basics
  import opened Schema
  import opened SqlSyntax
  import opened SqlRoundTrip
  import opened SqlText
  import opened SqlSemantics
  import opened Expression

  // ---- the emitted trees print without ambiguity -------------------------------------------------

  lemma {:induction false} HolesWf(ds: seq<Datum>)
    ensures WfArgs(Holes(ds)) && (ds != [] ==> Holes(ds).Cons?)
  {
    if ds != [] { HolesWf(ds[1..]); }
  }

  lemma WfArgsOneTwo(a: Ast, b: Ast)
    ensures WfArgs(One(a)) <==> Wf(a)
    ensures WfArgs(Two(a, b)) <==> Wf(a) && Wf(b)
  {
    assert WfArgs(One(b)) <==> Wf(b);
    assert WfArgs(One(a)) <==> Wf(a);
  }

  lemma OperandWf(f: Field)
    ensures Wf(Operand(f)) && Level(Operand(f)) == 4 && Wf(Guard(f)) && Level(Guard(f)) == 4
  {
    var at := At(f.map_, Hole(Str(f.name)));
    assert Wf(at);
    WfArgsOneTwo(at, Text("Array(String)"));
    WfArgsOneTwo(Col(f.map_), Hole(Str(f.name)));
    assert Wf(Text("Array(String)"));
    assert Wf(Call(MapContains, Two(Col(f.map_), Hole(Str(f.name)))));
  }

  lemma MembershipWf(op: Op, x: Ast, ds: seq<Datum>)
    requires ds != [] && (op.Between? ==> |ds| == 2) && Wf(x) && Level(x) == 4
    ensures Wf(Membership(op, x, ds)) && Level(Membership(op, x, ds)) == 4
  {
    HolesWf(ds);
    assert Wf(List(Holes(ds))) && Wf(Hole(ds[0]));
    if op.Between? {
      var b := Ast.Between(x, Hole(ds[0]), Hole(ds[1]));
      assert Wf(b);
      WfArgsOneTwo(b, b);
    } else {
      WfArgsOneTwo(x, List(Holes(ds)));
      WfArgsOneTwo(x, Hole(ds[0]));
    }
  }

  lemma LeafWf(e: Expr, negated: bool, ds: seq<Datum>)
    requires ds != [] && (e.op.Between? ==> |ds| == 2)
    ensures Wf(Leaf(e, negated, ds)) && Level(Leaf(e, negated, ds)) == 4
  {
    hide Operand, Guard, Membership;
    HolesWf(ds);
    var x := Operand(e.field);
    OperandWf(e.field);
    MembershipWf(e.op, x, ds);
    var test := Test(e.op, negated, e.field, ds);
    assert Wf(test) && Level(test) >= 2;
    var inside := if e.field.Scalar() then test else Ast.And(Guard(e.field), test);
    assert Wf(inside);
    WfArgsOneTwo(inside, inside);
  }

  lemma ExistsWf(f: Field, negated: bool)
    ensures Wf(ExistsAst(f, negated)) && Level(ExistsAst(f, negated)) == 4
  {
    hide Guard;
    OperandWf(f);
    assert Wf(Ast.Not(Guard(f)));
    WfArgsOneTwo(Ast.Not(Guard(f)), Guard(f));
  }

  lemma {:induction false} LowerWf(e: Expr, negated: bool, attrs: map<string, string>, profile: Profile)
    requires Valid(e, profile) && Lower(e, negated, attrs, profile).Some?
    ensures var a := Lower(e, negated, attrs, profile).value; Wf(a) && Level(a) == 4
    decreases e, 1
  {
    match e.op
    case Always =>
    case Never =>
    case Negation => LowerWf(e.children[0], !negated, attrs, profile);
    case AllOf =>
      LowerAllWf(e.children, negated, attrs, profile);
      ChainWf(LowerAll(e.children, negated, attrs, profile).value, negated);
    case AnyOf =>
      LowerAllWf(e.children, negated, attrs, profile);
      ChainWf(LowerAll(e.children, negated, attrs, profile).value, !negated);
    case Exists => ExistsWf(e.field, negated);
    case _ => LeafWf(e, negated, ResolveAll(Operands(e), attrs).value);
  }

  lemma {:induction false} LowerAllWf(es: seq<Expr>, negated: bool, attrs: map<string, string>, profile: Profile)
    requires ValidAll(es, profile) && LowerAll(es, negated, attrs, profile).Some?
    ensures forall a :: a in LowerAll(es, negated, attrs, profile).value ==> Wf(a) && Level(a) == 4
    decreases es, 0
  {
    if es != [] {
      LowerWf(es[0], negated, attrs, profile);
      LowerAllWf(es[1..], negated, attrs, profile);
    }
  }

  /** What a predicate evaluates to: a truth value, 0 or 1, or NULL. */
  predicate Flag(d: Datum) {
    d.Bool? || d.Null? || d == Num(0.0) || d == Num(1.0)
  }

  // ---- leaves ---------------------------------------------------------------------------------------

  /** A value of the field's type, or NULL where a conversion may fail. */
  predicate Fits(d: Datum, t: LogicalType) {
    HasType(d, t) || (d.Null? && (t.TBoolean? || t.TNumber?))
  }

  lemma OperandValue(f: Field, c: Ctx)
    requires FieldFits(f, c.row) && !f.Type().Unset?
    ensures var d := Eval(Operand(f), c);
      && Fits(d, f.Type())
      && (f.Scalar() || f.name in c.row[f.map_].entries ==>
            Lookup(f, c.row, c.conv) == if d.Null? then None else Some(d))
  {
    if !f.Scalar() {
      var at := At(f.map_, Hole(Str(f.name)));
      assert Eval(at, c).Str?;
      assert EvalArgs(One(at), c) == [Eval(at, c)];
      EvalTwo(at, Text("Array(String)"), c);
    }
  }

  lemma EvalTwo(a: Ast, b: Ast, c: Ctx)
    ensures EvalArgs(Two(a, b), c) == [Eval(a, c), Eval(b, c)]
    ensures EvalArgs(One(a), c) == [Eval(a, c)]
  {
    assert EvalArgs(One(b), c) == [Eval(b, c)];
    assert EvalArgs(One(a), c) == [Eval(a, c)];
    assert [Eval(a, c)] + [Eval(b, c)] == [Eval(a, c), Eval(b, c)];
  }

  lemma {:induction false} HolesValues(ds: seq<Datum>, c: Ctx)
    ensures EvalArgs(Holes(ds), c) == ds
  {
    if ds != [] {
      HolesValues(ds[1..], c);
      assert ds == [ds[0]] + ds[1..];
    }
  }

  lemma {:induction false} InStrings(x: Datum, ds: seq<Datum>)
    requires x.Str? && forall d :: d in ds ==> d.Str?
    ensures InDatum(x, ds) == Bool(x in ds)
  {
    if ds != [] {
      InStrings(x, ds[1..]);
      assert ds == [ds[0]] + ds[1..] && ds[0].Str?;
    }
  }

  lemma {:induction false} StringsOf(ds: seq<Datum>)
    requires forall d :: d in ds ==> d.Str?
    ensures Strings(ds).Some?
    ensures forall s :: s in Strings(ds).value <==> Str(s) in ds
  {
    if ds != [] { StringsOf(ds[1..]); }
  }

  /** The values a valid leaf compares with, resolved for a caller, have the type it needs. */
  lemma {:induction false} ResolvedTypes(vs: seq<Value>, attrs: map<string, string>, t: LogicalType)
    requires ResolveAll(vs, attrs).Some? && forall v :: v in vs ==> ValidValue(v, t)
    ensures forall d :: d in ResolveAll(vs, attrs).value ==> HasType(d, t)
  {
    if vs != [] {
      ResolvedTypes(vs[1..], attrs, t);
      assert ValidValue(vs[0], t) by { assert vs[0] in vs; }
    }
  }

  lemma EvalCompare(cmp: Cmp, l: Ast, r: Ast, c: Ctx)
    ensures Eval(Compare(cmp, l, r), c) == CompareDatum(cmp, Eval(l, c), Eval(r, c))
  {
    hide Run, EvalArgs, Apply, Aggregate, Values, Partition, AndDatum, OrDatum, NotDatum, CompareDatum, InDatum;
  }

  lemma PlainMeaning(op: Op, negated: bool, x: Ast, v: Datum, t: LogicalType, c: Ctx)
    requires IsPlain(op) && Allowed(op, t, FilterProfile) && HasType(v, t) && Fits(Eval(x, c), t)
    ensures var d, r := Eval(x, c), Eval(Compare(Comparison(if negated then Opposite(op) else op), x, Hole(v)), c);
      Flag(r) && (IsTrue(r) <==> !d.Null? && Holds(op, d, [v]) != negated)
  {
    hide Eval;
    EvalCompare(Comparison(if negated then Opposite(op) else op), x, Hole(v), c);
    EvalHole(v, c);
  }

  lemma NotMeaning(negated: bool, a: Ast, c: Ctx)
    requires Flag(Eval(a, c))
    ensures var d, r := Eval(a, c), Eval(Signed(negated, a), c);
      Flag(r) && (IsTrue(r) <==> !d.Null? && IsTrue(d) != negated)
  {
  }

  lemma MembershipMeaning(op: Op, x: Ast, ds: seq<Datum>, t: LogicalType, c: Ctx)
    requires !IsPlain(op) && !op.Exists? && Allowed(op, t, FilterProfile) && (op.In? ==> t.TStringArray?)
    requires |ds| >= 1 && (op.Between? ==> |ds| == 2) && (op.StartsWith? || op.In? ==> |ds| == 1)
    requires Fits(Eval(x, c), t) && forall d :: d in ds ==> HasType(d, ElementType(t))
    ensures var d, r := Eval(x, c), Eval(Membership(op, x, ds), c);
      Flag(r) && (r.Null? <==> d.Null?) && (!d.Null? ==> (IsTrue(r) <==> Holds(op, d, ds)))
  {
    assert ds[0] in ds && ds[|ds| - 1] in ds;
    if op.Between? {
      BetweenMeaning(x, ds, c);
    } else if op.HasAny? || op.HasAll? {
      ListMeaning(op, x, ds, c);
    } else {
      assert ds == [ds[0]];
      OneMeaning(op, x, ds[0], c);
    }
  }

  lemma ListMeaning(op: Op, x: Ast, ds: seq<Datum>, c: Ctx)
    requires (op.HasAny? || op.HasAll?) && ds != []
    requires Eval(x, c).Arr? && forall d :: d in ds ==> d.Str?
    ensures var d, r := Eval(x, c), Eval(Membership(op, x, ds), c);
      r.Bool? && (IsTrue(r) <==> Holds(op, d, ds))
  {
    hide Eval, EvalArgs;
    var list := List(Holes(ds));
    HolesValues(ds, c);
    StringsOf(ds);
    EvalTwo(x, list, c);
    EvalList(ds, c);
    HasMeaning(Eval(x, c).elems, ds);
    EvalApply(if op.HasAny? then Fn.HasAny else Fn.HasAll, Two(x, list), c);
  }

  lemma EvalApply(fn: Fn, args: Args, c: Ctx)
    requires !IsAggregate(fn) && !fn.ArgMin?
    ensures Eval(Call(fn, args), c) == Apply(fn, EvalArgs(args, c), c.conv)
  {
  }

  lemma EvalList(ds: seq<Datum>, c: Ctx)
    requires forall d :: d in ds ==> d.Str?
    ensures Strings(ds).Some? && Eval(List(Holes(ds)), c) == Arr(Strings(ds).value)
  {
    HolesValues(ds, c);
    StringsOf(ds);
  }

  lemma OneMeaning(op: Op, x: Ast, v: Datum, c: Ctx)
    requires v.Str? && if op.In? then Eval(x, c).Arr? else op.StartsWith? && Eval(x, c).Str?
    ensures var d, r := Eval(x, c), Eval(Membership(op, x, [v]), c);
      r.Bool? && (IsTrue(r) <==> Holds(op, d, [v]))
  {
    hide Eval, EvalArgs;
    EvalHole(v, c);
    EvalTwo(x, Hole(v), c);
    EvalApply(if op.In? then Fn.Has else Fn.StartsWith, Two(x, Hole(v)), c);
  }

  lemma EvalHole(v: Datum, c: Ctx)
    ensures Eval(Hole(v), c) == v
  {
  }

  lemma HasMeaning(elems: seq<string>, ds: seq<Datum>)
    requires forall d :: d in ds ==> d.Str?
    requires Strings(ds).Some? && forall s :: s in Strings(ds).value <==> Str(s) in ds
    ensures (exists s :: s in Strings(ds).value && s in elems) <==> Holds(Op.HasAny, Arr(elems), ds)
    ensures (forall s :: s in Strings(ds).value ==> s in elems) <==> Holds(Op.HasAll, Arr(elems), ds)
  {
    if x :| x in ds && x.Str? && x.s in elems { assert x.s in Strings(ds).value; }
    if s :| s in Strings(ds).value && s in elems { assert Str(s) in ds; }
    if forall s :: s in Strings(ds).value ==> s in elems {
      forall x | x in ds ensures x.Str? && x.s in elems { assert Str(x.s) in ds; }
    }
    if forall x :: x in ds ==> x.Str? && x.s in elems {
      forall s | s in Strings(ds).value ensures s in elems { assert Str(s) in ds; }
    }
  }

  lemma BetweenMeaning(x: Ast, ds: seq<Datum>, c: Ctx)
    requires |ds| == 2 && ds[0].Num? && ds[1].Num? && (Eval(x, c).Num? || Eval(x, c).Null?)
    ensures var d, r := Eval(x, c), Eval(Membership(Op.Between, x, ds), c);
      Flag(r) && (r.Null? <==> d.Null?) && (!d.Null? ==> (IsTrue(r) <==> Holds(Op.Between, d, ds)))
  {
    var b := Ast.Between(x, Hole(ds[0]), Hole(ds[1]));
    EvalTwo(b, b, c);
    assert Eval(Membership(Op.Between, x, ds), c) == Eval(b, c);
  }

  lemma InMeaning(negated: bool, x: Ast, ds: seq<Datum>, c: Ctx)
    requires Eval(x, c).Str? && forall d :: d in ds ==> d.Str?
    ensures var d, r := Eval(x, c), Eval(InList(negated, x, Holes(ds)), c);
      Flag(r) && (IsTrue(r) <==> Holds(Op.In, d, ds) != negated)
  {
    HolesValues(ds, c);
    InStrings(Eval(x, c), ds);
  }

  lemma TestMeaning(op: Op, negated: bool, f: Field, ds: seq<Datum>, c: Ctx)
    requires Allowed(op, f.Type(), FilterProfile) && !op.Exists? && Fits(Eval(Operand(f), c), f.Type())
    requires |ds| >= 1 && (op.Between? ==> |ds| == 2) && (!TakesList(op, f.Type()) ==> |ds| == 1)
    requires forall d :: d in ds ==> HasType(d, ElementType(f.Type()))
    ensures var d, r := Eval(Operand(f), c), Eval(Test(op, negated, f, ds), c);
      Flag(r) && (IsTrue(r) <==> !d.Null? && Holds(op, d, ds) != negated)
  {
    hide Eval, Holds, Operand;
    assert ds[0] in ds;
    if IsPlain(op) {
      assert ds == [ds[0]];
      PlainMeaning(op, negated, Operand(f), ds[0], f.Type(), c);
    } else if op.In? && !f.Type().TStringArray? {
      InMeaning(negated, Operand(f), ds, c);
    } else {
      MembershipMeaning(op, Operand(f), ds, f.Type(), c);
      NotMeaning(negated, Membership(op, Operand(f), ds), c);
    }
  }

  /** The verdict that makes a predicate, or its negation, TRUE. */
  function Wanted(negated: bool): Verdict {
    if negated then False else True
  }

  lemma GuardMeaning(f: Field, c: Ctx)
    requires !f.Scalar() && FieldFits(f, c.row)
    ensures Eval(Guard(f), c) == Bool(f.name in c.row[f.map_].entries)
  {
    EvalTwo(Col(f.map_), Hole(Str(f.name)), c);
  }

  lemma ParensMeaning(a: Ast, c: Ctx)
    ensures Eval(Parens(a), c) == Eval(a, c)
  {
    EvalTwo(a, a, c);
  }

  lemma LeafMeaning(e: Expr, negated: bool, attrs: map<string, string>, c: Ctx)
    requires Valid(e, FilterProfile) && !IsConnective(e.op) && !e.op.Always? && !e.op.Never? && !e.op.Exists?
    requires RowFits(e, c.row) && ResolveAll(Operands(e), attrs).Some?
    ensures var r := Eval(Leaf(e, negated, ResolveAll(Operands(e), attrs).value), c);
      Flag(r) && (IsTrue(r) <==> Meaning(e, c.row, attrs, c.conv) == Wanted(negated))
  {
    hide Test, Operand, Guard, Holds, Eval, Lookup;
    var f, ds := e.field, ResolveAll(Operands(e), attrs).value;
    ResolvedTypes(Operands(e), attrs, ElementType(f.Type()));
    OperandValue(f, c);
    TestMeaning(e.op, negated, f, ds, c);
    var test := Test(e.op, negated, f, ds);
    if f.Scalar() {
      ParensMeaning(test, c);
    } else {
      GuardMeaning(f, c);
      ParensMeaning(Ast.And(Guard(f), test), c);
      EvalAnd(Guard(f), test, c);
      MissingKey(f, c);
    }
  }

  lemma EvalAnd(l: Ast, r: Ast, c: Ctx)
    ensures Eval(Ast.And(l, r), c) == AndDatum(Eval(l, c), Eval(r, c))
  {
    hide Run, EvalArgs, Apply, Aggregate, Values, Partition, AndDatum, OrDatum, NotDatum, CompareDatum, InDatum;
  }

  lemma MissingKey(f: Field, c: Ctx)
    requires !f.Scalar() && FieldFits(f, c.row)
    ensures f.name !in c.row[f.map_].entries ==> Lookup(f, c.row, c.conv).None?
  {
  }

  lemma ExistsMeaning(f: Field, negated: bool, c: Ctx)
    requires FieldFits(f, c.row)
    ensures var r := Eval(ExistsAst(f, negated), c);
      Flag(r) && (IsTrue(r) <==> (f.Scalar() || f.name in c.row[f.map_].entries) != negated)
  {
    if !f.Scalar() {
      GuardMeaning(f, c);
      ParensMeaning(Ast.Not(Guard(f)), c);
    }
  }

  // ---- chains ---------------------------------------------------------------------------------------

  lemma PairMeaning(l: Ast, r: Ast, disj: bool, c: Ctx)
    requires Flag(Eval(l, c)) && Flag(Eval(r, c))
    ensures var d := Eval(if disj then Or(l, r) else And(l, r), c);
      Flag(d) && (IsTrue(d) <==> if disj then IsTrue(Eval(l, c)) || IsTrue(Eval(r, c))
                                    else IsTrue(Eval(l, c)) && IsTrue(Eval(r, c)))
  {
    hide Run, EvalArgs, Apply, Aggregate, Values, Partition, NotDatum, CompareDatum, InDatum;
  }

  lemma {:induction false} ChainMeaning(as_: seq<Ast>, disj: bool, c: Ctx)
    requires as_ != [] && forall a :: a in as_ ==> Flag(Eval(a, c))
    ensures var r := Eval(Chain(as_, disj), c);
      Flag(r) && (IsTrue(r) <==> if disj then exists a :: a in as_ && IsTrue(Eval(a, c))
                                    else forall a :: a in as_ ==> IsTrue(Eval(a, c)))
  {
    hide Eval, Flag, IsTrue;
    if |as_| > 1 {
      assert as_ == [as_[0]] + as_[1..];
      ChainMeaning(as_[1..], disj, c);
      PairMeaning(as_[0], Chain(as_[1..], disj), disj, c);
    } else {
      assert as_ == [as_[0]];
    }
  }

  lemma {:induction false} AllTrue(es: seq<Expr>, row: Row, attrs: map<string, string>, conv: Conv)
    requires RowFitsAll(es, row)
    ensures MeaningAll(es, row, attrs, conv) == True <==>
      forall i :: 0 <= i < |es| ==> Meaning(es[i], row, attrs, conv) == True
    ensures MeaningAll(es, row, attrs, conv) == False <==>
      exists i :: 0 <= i < |es| && Meaning(es[i], row, attrs, conv) == False
  {
    hide Meaning, RowFits;
    if es != [] {
      var rest := es[1..];
      AllTrue(rest, row, attrs, conv);
      assert es == [es[0]] + rest;
      assert forall i :: 0 <= i < |rest| ==> rest[i] == es[i + 1];
    }
  }

  lemma {:induction false} AnyTrue(es: seq<Expr>, row: Row, attrs: map<string, string>, conv: Conv)
    requires RowFitsAll(es, row)
    ensures MeaningAny(es, row, attrs, conv) == True <==>
      exists i :: 0 <= i < |es| && Meaning(es[i], row, attrs, conv) == True
    ensures MeaningAny(es, row, attrs, conv) == False <==>
      forall i :: 0 <= i < |es| ==> Meaning(es[i], row, attrs, conv) == False
  {
    hide Meaning, RowFits;
    if es != [] {
      var rest := es[1..];
      AnyTrue(rest, row, attrs, conv);
      assert es == [es[0]] + rest;
      assert forall i :: 0 <= i < |rest| ==> rest[i] == es[i + 1];
    }
  }

  // ---- the compiler preserves meaning ------------------------------------------------------------

  /** In either polarity, the emitted SQL is TRUE exactly when CEL's verdict is the wanted one: true for the
      predicate itself, false for its negation. An error satisfies neither, and the SQL raises none. */
  lemma {:induction false} LowerMeaning(e: Expr, negated: bool, attrs: map<string, string>, c: Ctx)
    requires Valid(e, FilterProfile) && RowFits(e, c.row) && Lower(e, negated, attrs, FilterProfile).Some?
    ensures var r := Eval(Lower(e, negated, attrs, FilterProfile).value, c);
      Flag(r) && (IsTrue(r) <==> Meaning(e, c.row, attrs, c.conv) == Wanted(negated))
    decreases e, 2
  {
    match e.op
    case Always =>
    case Never =>
    case Negation => LowerMeaning(e.children[0], !negated, attrs, c);
    case AllOf => ConnectiveMeaning(e, negated, negated, attrs, c);
    case AnyOf => ConnectiveMeaning(e, negated, !negated, attrs, c);
    case Exists => ExistsMeaning(e.field, negated, c);
    case _ => LeafMeaning(e, negated, attrs, c);
  }

  lemma {:induction false} ConnectiveMeaning(e: Expr, negated: bool, disj: bool, attrs: map<string, string>, c: Ctx)
    requires Valid(e, FilterProfile) && RowFits(e, c.row) && (e.op.AllOf? || e.op.AnyOf?)
    requires disj == (e.op.AnyOf? != negated) && LowerAll(e.children, negated, attrs, FilterProfile).Some?
    ensures var r := Eval(Parens(Chain(LowerAll(e.children, negated, attrs, FilterProfile).value, disj)), c);
      Flag(r) && (IsTrue(r) <==> Meaning(e, c.row, attrs, c.conv) == Wanted(negated))
    decreases e, 1
  {
    hide Eval, Lower;
    var es := e.children;
    var as_ := LowerAll(es, negated, attrs, FilterProfile).value;
    LowerAllMeaning(es, negated, attrs, c);
    ChainMeaning(as_, disj, c);
    ParensMeaning(Chain(as_, disj), c);
    if e.op.AllOf? { AllTrue(es, c.row, attrs, c.conv); } else { AnyTrue(es, c.row, attrs, c.conv); }
    assert as_ != [] && |as_| == |es|;
    if disj {
      assert (exists a :: a in as_ && IsTrue(Eval(a, c))) <==> exists i :: 0 <= i < |es| && IsTrue(Eval(as_[i], c));
    } else {
      assert forall i :: 0 <= i < |es| ==> as_[i] in as_;
      assert (forall a :: a in as_ ==> IsTrue(Eval(a, c))) <==> forall i :: 0 <= i < |es| ==> IsTrue(Eval(as_[i], c));
    }
  }

  lemma {:induction false} LowerAllMeaning(es: seq<Expr>, negated: bool, attrs: map<string, string>, c: Ctx)
    requires ValidAll(es, FilterProfile) && RowFitsAll(es, c.row) && LowerAll(es, negated, attrs, FilterProfile).Some?
    ensures var as_ := LowerAll(es, negated, attrs, FilterProfile).value;
      forall i :: 0 <= i < |es| ==>
        (Flag(Eval(as_[i], c))
        && (IsTrue(Eval(as_[i], c)) <==> Meaning(es[i], c.row, attrs, c.conv) == Wanted(negated)))
    decreases es, 0
  {
    if es != [] {
      LowerMeaning(es[0], negated, attrs, c);
      LowerAllMeaning(es[1..], negated, attrs, c);
      var as_ := LowerAll(es, negated, attrs, FilterProfile).value;
      assert as_[1..] == LowerAll(es[1..], negated, attrs, FilterProfile).value;
      forall i | 0 < i < |es|
        ensures Flag(Eval(as_[i], c))
        ensures IsTrue(Eval(as_[i], c)) <==> Meaning(es[i], c.row, attrs, c.conv) == Wanted(negated)
      {
        assert as_[i] == as_[1..][i - 1] && es[i] == es[1..][i - 1];
      }
    }
  }

  // ---- profiles and attributes ---------------------------------------------------------------------

  /** Whatever a policy may say a filter may say too, and it is lowered alike. */
  lemma {:induction false} PolicyIsFilter(e: Expr, negated: bool, attrs: map<string, string>)
    requires Valid(e, PolicyProfile)
    ensures Valid(e, FilterProfile)
    ensures Lower(e, negated, attrs, PolicyProfile) == Lower(e, negated, attrs, FilterProfile)
    decreases e, 1
  {
    match e.op
    case Negation => PolicyIsFilter(e.children[0], !negated, attrs);
    case AllOf => PolicyIsFilterAll(e.children, negated, attrs);
    case AnyOf => PolicyIsFilterAll(e.children, negated, attrs);
    case _ =>
  }

  lemma {:induction false} PolicyIsFilterAll(es: seq<Expr>, negated: bool, attrs: map<string, string>)
    requires ValidAll(es, PolicyProfile)
    ensures ValidAll(es, FilterProfile)
    ensures LowerAll(es, negated, attrs, PolicyProfile) == LowerAll(es, negated, attrs, FilterProfile)
    decreases es, 0
  {
    if es != [] {
      PolicyIsFilter(es[0], negated, attrs);
      PolicyIsFilterAll(es[1..], negated, attrs);
      assert es == [es[0]] + es[1..];
    }
  }

  /** What policies are confined to: equality and membership, and no numbers. */
  predicate Plain(e: Expr)
    decreases e
  {
    if IsConnective(e.op) then forall c :: c in e.children ==> Plain(c)
    else e.op.Always? || e.op.Never? || ((e.op.Equal? || e.op.NotEqual? || e.op.In?) && !e.field.Type().TNumber?)
  }

  /** The policy profile refuses exactly what of the filter profile is a prefix, existence, hasAny, hasAll, order or
      between, or is about a number. */
  lemma {:induction false} PolicyExactly(e: Expr)
    ensures Valid(e, PolicyProfile) <==> Valid(e, FilterProfile) && Plain(e)
    decreases e
  {
    if IsConnective(e.op) {
      forall c | c in e.children ensures Valid(c, PolicyProfile) <==> Valid(c, FilterProfile) && Plain(c) {
        PolicyExactly(c);
      }
    }
  }

  lemma {:induction false} ResolveRefs(vs: seq<Value>, attrs: map<string, string>)
    ensures ResolveAll(vs, attrs).Some? <==> RefsOf(vs) <= attrs.Keys
  {
    if vs != [] {
      ResolveRefs(vs[1..], attrs);
      assert vs == [vs[0]] + vs[1..];
      assert RefsOf(vs) == RefsOf(vs[1..]) + if vs[0].attr == "" then {} else {vs[0].attr};
    }
  }

  /** A predicate is refused exactly when it refers to an attribute the caller lacks, wherever it does so. */
  lemma {:induction false} LowerRefs(e: Expr, negated: bool, attrs: map<string, string>, profile: Profile)
    requires Valid(e, profile)
    ensures Lower(e, negated, attrs, profile).Some? <==> Refs(e) <= attrs.Keys
    decreases e, 1
  {
    ResolveRefs(Operands(e), attrs);
    match e.op
    case Negation => LowerRefs(e.children[0], !negated, attrs, profile);
      assert RefsAll(e.children[1..]) == {};
    case AllOf => LowerAllRefs(e.children, negated, attrs, profile);
    case AnyOf => LowerAllRefs(e.children, negated, attrs, profile);
    case _ =>
  }

  lemma {:induction false} LowerAllRefs(es: seq<Expr>, negated: bool, attrs: map<string, string>, profile: Profile)
    requires ValidAll(es, profile)
    ensures LowerAll(es, negated, attrs, profile).Some? <==> RefsAll(es) <= attrs.Keys
    decreases es, 0
  {
    if es != [] {
      LowerRefs(es[0], negated, attrs, profile);
      LowerAllRefs(es[1..], negated, attrs, profile);
    }
  }

  /** The caller has all attributes of another caller, with the same values. */
  predicate Extends(more: map<string, string>, attrs: map<string, string>) {
    forall k :: k in attrs ==> k in more && more[k] == attrs[k]
  }

  lemma {:induction false} ResolveExtended(vs: seq<Value>, attrs: map<string, string>, more: map<string, string>)
    requires Extends(more, attrs) && RefsOf(vs) <= attrs.Keys
    ensures ResolveAll(vs, more) == ResolveAll(vs, attrs)
  {
    if vs != [] {
      assert RefsOf(vs[1..]) <= RefsOf(vs);
      ResolveExtended(vs[1..], attrs, more);
      assert vs[0].attr == "" || vs[0].attr in RefsOf(vs);
    }
  }

  /** Attributes a predicate does not refer to do not matter to it. */
  lemma {:induction false} MeaningExtended(
    e: Expr, row: Row, attrs: map<string, string>, more: map<string, string>, conv: Conv)
    requires RowFits(e, row) && Extends(more, attrs) && Refs(e) <= attrs.Keys
    ensures Meaning(e, row, more, conv) == Meaning(e, row, attrs, conv)
    decreases e, 1
  {
    match e.op
    case Negation =>
      if |e.children| == 1 { MeaningExtended(e.children[0], row, attrs, more, conv); }
    case AllOf => MeaningAllExtended(e.children, row, attrs, more, conv);
    case AnyOf => MeaningAllExtended(e.children, row, attrs, more, conv);
    case Always =>
    case Never =>
    case _ => ResolveExtended(Operands(e), attrs, more);
  }

  lemma {:induction false} MeaningAllExtended(
    es: seq<Expr>, row: Row, attrs: map<string, string>, more: map<string, string>, conv: Conv)
    requires RowFitsAll(es, row) && Extends(more, attrs) && RefsAll(es) <= attrs.Keys
    ensures MeaningAll(es, row, more, conv) == MeaningAll(es, row, attrs, conv)
    ensures MeaningAny(es, row, more, conv) == MeaningAny(es, row, attrs, conv)
    decreases es, 0
  {
    if es != [] {
      MeaningExtended(es[0], row, attrs, more, conv);
      MeaningAllExtended(es[1..], row, attrs, more, conv);
    }
  }

  // ---- what a compiled fragment is -------------------------------------------------------------------

  /** A fragment reads as one operand that is TRUE on a row exactly when CEL's verdict is true, and never
      raises an error. */
  ghost predicate Means(q: Fragment, e: Expr, attrs: map<string, string>) {
    exists a :: MeansTree(q, a, e, attrs)
  }

  ghost predicate MeansTree(q: Fragment, a: Ast, e: Expr, attrs: map<string, string>) {
    && q == FragmentOf(a) && Wf(a) && Level(a) == 4
    && ReadAst(q.sql, q.args) == Some(a)
    && forall c: Ctx :: RowFits(e, c.row) ==>
         Flag(Eval(a, c)) && (IsTrue(Eval(a, c)) <==> Meaning(e, c.row, attrs, c.conv) == True)
  }

  /** Compilation, decided: an invalid predicate and one with a missing attribute are refused; any other
      becomes text and arguments that read back as one expression with the meaning CEL gives it. */
  lemma CompileMeaning(e: Expr, profile: Profile, attrs: map<string, string>)
    ensures Compiled(e, profile, attrs) == Err(Invalid) <==> !Valid(e, profile)
    ensures Compiled(e, profile, attrs) == Err(Unsatisfiable) <==> Valid(e, profile) && !(Refs(e) <= attrs.Keys)
    ensures Compiled(e, profile, attrs).Ok? ==> Means(Compiled(e, profile, attrs).value, e, attrs)
  {
    if Valid(e, profile) {
      LowerRefs(e, false, attrs, profile);
      var r := Lower(e, false, attrs, profile);
      if r.Some? {
        LowerWf(e, false, attrs, profile);
        ReadBackText(r.value);
        forall c: Ctx | RowFits(e, c.row)
          ensures Flag(Eval(r.value, c))
          ensures IsTrue(Eval(r.value, c)) <==> Meaning(e, c.row, attrs, c.conv) == True
        {
          if profile.PolicyProfile? { PolicyIsFilter(e, false, attrs); }
          LowerMeaning(e, false, attrs, c);
        }
        assert MeansTree(Compiled(e, profile, attrs).value, r.value, e, attrs);
      }
    }
  }

  /** A missing key, or a value that does not convert, satisfies no comparison in either polarity. */
  lemma MissingSatisfiesNothing(e: Expr, negated: bool, attrs: map<string, string>, c: Ctx)
    requires Valid(e, FilterProfile) && RowFits(e, c.row)
    requires !IsConnective(e.op) && !e.op.Always? && !e.op.Never? && !e.op.Exists?
    requires Lookup(e.field, c.row, c.conv).None? && Lower(e, negated, attrs, FilterProfile).Some?
    ensures !IsTrue(Eval(Lower(e, negated, attrs, FilterProfile).value, c))
  {
    LowerMeaning(e, negated, attrs, c);
  }
}
