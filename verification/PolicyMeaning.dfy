/** Converting a CEL tree preserves its meaning, names only what the environment declares, and does not
    depend on the order of the model's rows. */
module PolicyMeaning {
  import opened Basics
  import opened Schema
  import SqlSyntax
  import opened SqlSemantics
  import opened Expression
  import opened ExpressionMeaning
  import opened Policy

  // ---- CEL evaluation ------------------------------------------------------------------------------

  /** A CEL value; a map's values are of any scalar type, and evaluation that fails is a Fault. */
  datatype Val = D(d: Datum) | Tab(entries: map<string, Datum>) | Lst(elems: seq<Datum>) | Fault

  function Truth(b: bool): Val {
    D(SqlSyntax.Bool(b))
  }

  function VerdictOf(v: Val): Verdict {
    if v.D? && v.d.Bool? then Decide(v.d.b) else Error
  }

  function Answer(v: Verdict): Val {
    match v case True => Truth(true) case False => Truth(false) case Error => Fault
  }

  function Entry(v: Val, key: string): Val {
    if v.Tab? && key in v.entries then D(v.entries[key]) else Fault
  }

  function Relate(op: SqlSyntax.Cmp, l: Val, r: Val): Val {
    if !l.D? || !r.D? then Fault
    else if op.Eq? || op.Ne? then Truth((l.d == r.d) == op.Eq?)
    else if !SameKind(l.d, r.d) then Fault
    else
      Truth(if op.Gt? then ScalarLess(r.d, l.d) else if op.Ge? then !ScalarLess(l.d, r.d)
            else if op.Lt? then ScalarLess(l.d, r.d) else !ScalarLess(r.d, l.d))
  }

  function Among(x: Val, xs: Val): Val {
    if x.D? && xs.Lst? then Truth(x.d in xs.elems)
    else if x.D? && x.d.Str? && xs.D? && xs.d.Arr? then Truth(x.d.s in xs.d.elems)
    else Fault
  }

  function Invoke(fn: Function, target: Val, args: seq<Val>): Val {
    if fn.StartsWithFn? && |args| == 1 && target.D? && target.d.Str? && args[0].D? && args[0].d.Str? then
      Truth(args[0].d.s <= target.d.s)
    else if fn.HasAnyFn? && |args| == 1 && target.D? && target.d.Arr? && args[0].Lst? then
      Truth(exists x :: x in args[0].elems && x.Str? && x.s in target.d.elems)
    else if fn.HasAllFn? && |args| == 1 && target.D? && target.d.Arr? && args[0].Lst? then
      Truth(forall x :: x in args[0].elems ==> x.Str? && x.s in target.d.elems)
    else if fn.BetweenFn? && |args| == 2 && target.D? && target.d.Num?
      && args[0].D? && args[0].d.Num? && args[1].D? && args[1].d.Num? then
      Truth(args[0].d.n <= target.d.n <= args[1].d.n)
    else Fault
  }

  /** Evaluation with the values of the declared variables. Everything is strict in errors but && and ||,
      which absorb them, and exists, which asks for one. */
  function CelEval(n: Cel, act: map<string, Val>): Val
    decreases n, 1
  {
    match n
    case Const(v) => D(v)
    case Ident(x) => if x in act then act[x] else Fault
    case Select(o, f) => Entry(CelEval(o, act), f)
    case Index(l, r) =>
      var key := CelEval(r, act);
      if key.D? && key.d.Str? then Entry(CelEval(l, act), key.d.s) else Fault
    case ListOf(es) => (match Plain(CelEvalAll(es, act)) case None => Fault case Some(ds) => Lst(ds))
    case Junction(disj, args) =>
      var vs := CelEvalAll(args, act);
      Answer(if disj then AnyOfVerdicts(vs) else AllOfVerdicts(vs))
    case Complement(x) => Answer(NotVerdict(VerdictOf(CelEval(x, act))))
    case Relation(op, l, r) => Relate(op, CelEval(l, act), CelEval(r, act))
    case Membership(l, r) => Among(CelEval(l, act), CelEval(r, act))
    case Call(ExistsFn, _, args) =>
      var vs := CelEvalAll(args, act);
      if |vs| == 1 then Truth(!vs[0].Fault?) else Fault
    case Call(fn, Some(target), args) => Invoke(fn, CelEval(target, act), CelEvalAll(args, act))
    case _ => Fault
  }

  function CelEvalAll(ns: seq<Cel>, act: map<string, Val>): (vs: seq<Val>)
    ensures |vs| == |ns|
    decreases ns, 0
  {
    if ns == [] then [] else [CelEval(ns[0], act)] + CelEvalAll(ns[1..], act)
  }

  function Plain(vs: seq<Val>): Option<seq<Datum>> {
    if vs == [] then Some([])
    else match Plain(vs[1..]) case None => None case Some(rest) => if vs[0].D? then Some([vs[0].d] + rest) else None
  }

  function AllOfVerdicts(vs: seq<Val>): Verdict {
    if vs == [] then True else AndVerdict(VerdictOf(vs[0]), AllOfVerdicts(vs[1..]))
  }

  function AnyOfVerdicts(vs: seq<Val>): Verdict {
    if vs == [] then False else OrVerdict(VerdictOf(vs[0]), AnyOfVerdicts(vs[1..]))
  }

  // ---- what the variables stand for ------------------------------------------------------------------

  /** What every environment that NewEnv returns satisfies. */
  predicate Coherent(env: Env) {
    && (forall k :: k in env.fields ==>
          env.fields[k].Key() == k && env.fields[k].Valid() && env.fields[k].policy && Column(env.fields[k]) != USER
          && Column(env.fields[k]) in (if env.fields[k].Scalar() then env.scalars else env.maps))
    && (forall x :: x in env.scalars ==> KeyOf("", x) in env.fields)
    && (forall x :: x in env.maps ==> ValidIdent(x))
    && env.scalars !! env.maps && USER !in env.scalars && USER !in env.maps
  }

  /** The row has every declared column, with values of the declared types. */
  predicate EnvFits(env: Env, row: Row) {
    && (forall k :: k in env.fields ==> FieldFits(env.fields[k], row))
    && (forall m :: m in env.maps ==> m in row && row[m].Dict?)
  }

  /** What a key of a map column holds: its text, converted if the key is declared with another type. */
  function Stored(env: Env, column: string, key: string, text: string, conv: Conv): Option<Datum> {
    if KeyOf(column, key) in env.fields then Expression.Convert(text, env.fields[KeyOf(column, key)].Type(), conv)
    else Some(SqlSyntax.Str(text))
  }

  function MapValue(env: Env, column: string, texts: map<string, string>, conv: Conv): Val {
    Tab(map key | key in texts && Stored(env, column, key, texts[key], conv).Some?
        :: Stored(env, column, key, texts[key], conv).value)
  }

  /** The values of the variables on one span and for one caller. */
  function Bind(env: Env, row: Row, attrs: map<string, string>, conv: Conv): map<string, Val>
    requires EnvFits(env, row) && Coherent(env)
  {
    map x | x in env.scalars + env.maps + {USER} ::
      if x == USER then Tab(map a | a in attrs :: SqlSyntax.Str(attrs[a]))
      else if x in env.maps then MapValue(env, x, row[x].entries, conv)
      else ScalarValue(env, x, row)
  }

  function ScalarValue(env: Env, x: string, row: Row): Val
    requires EnvFits(env, row) && Coherent(env) && x in env.scalars
  {
    ScalarKey(env, x);
    D(row[x])
  }

  lemma ScalarKey(env: Env, x: string)
    requires Coherent(env) && x in env.scalars
    ensures KeyOf("", x) in env.fields && env.fields[KeyOf("", x)].Scalar() && env.fields[KeyOf("", x)].name == x
  {
    KeyIdentifies(Field("", x, Unset, false, false), env.fields[KeyOf("", x)]);
  }

  lemma MapKey(env: Env, column: string, key: string)
    requires Coherent(env) && column in env.maps && KeyOf(column, key) in env.fields
    ensures var f := env.fields[KeyOf(column, key)]; !f.Scalar() && f.map_ == column && f.name == key
  {
    KeyIdentifies(Field(column, key, Unset, false, false), env.fields[KeyOf(column, key)]);
  }

  function OrFault(d: Option<Datum>): Val {
    match d case None => Fault case Some(v) => D(v)
  }

  // ---- conversion preserves meaning --------------------------------------------------------------------

  lemma FieldRefMeaning(n: Cel, env: Env, row: Row, attrs: map<string, string>, conv: Conv)
    requires Coherent(env) && EnvFits(env, row) && FieldRef(n, env).Found?
    ensures var f := FieldRef(n, env).f;
      && f.Key() in env.fields && env.fields[f.Key()] == f && FieldFits(f, row)
      && CelEval(n, Bind(env, row, attrs, conv)) == OrFault(Lookup(f, row, conv))
  {
    var f := FieldRef(n, env).f;
    if n.Ident? {
      ScalarKey(env, n.name);
    } else {
      MapKey(env, n.l.name, n.r.v.s);
      assert CelEval(n.r, Bind(env, row, attrs, conv)) == D(n.r.v);
      assert CelEval(n.l, Bind(env, row, attrs, conv)) == MapValue(env, f.map_, row[f.map_].entries, conv);
    }
  }

  lemma ValueMeaning(n: Cel, want: LogicalType, t: LogicalType, env: Env, row: Row, attrs: map<string, string>,
    conv: Conv)
    requires Coherent(env) && EnvFits(env, row) && ConvertValue(n, want, env).Ok?
    requires ValidValue(ConvertValue(n, want, env).value, t)
    ensures CelEval(n, Bind(env, row, attrs, conv)) == OrFault(Resolve(ConvertValue(n, want, env).value, attrs))
  {
    if n.Select? {
      assert CelEval(n.operand, Bind(env, row, attrs, conv)) == Tab(map a | a in attrs :: SqlSyntax.Str(attrs[a]));
    }
  }

  lemma {:induction false} ValuesMeaning(
    ns: seq<Cel>, want: LogicalType, t: LogicalType, env: Env, row: Row, attrs: map<string, string>, conv: Conv)
    requires Coherent(env) && EnvFits(env, row) && ConvertValues(ns, want, env).Ok?
    requires forall v :: v in ConvertValues(ns, want, env).value ==> ValidValue(v, t)
    ensures Plain(CelEvalAll(ns, Bind(env, row, attrs, conv)))
      == ResolveAll(ConvertValues(ns, want, env).value, attrs)
  {
    if ns != [] {
      var vs := ConvertValues(ns, want, env).value;
      assert vs[0] in vs && vs[0] == ConvertValue(ns[0], want, env).value;
      assert vs[1..] == ConvertValues(ns[1..], want, env).value;
      ValueMeaning(ns[0], want, t, env, row, attrs, conv);
      ValuesMeaning(ns[1..], want, t, env, row, attrs, conv);
      var all := CelEvalAll(ns, Bind(env, row, attrs, conv));
      assert all[1..] == CelEvalAll(ns[1..], Bind(env, row, attrs, conv));
    }
  }

  /** The verdict of one comparison, from the value of its field and the values it is compared with. */
  function LeafVerdict(op: Op, d: Option<Datum>, ds: Option<seq<Datum>>): Verdict {
    match (d, ds) case (Some(x), Some(xs)) => Decide(Holds(op, x, xs)) case _ => Error
  }

  lemma LeafVerdictIs(e: Expr, row: Row, attrs: map<string, string>, conv: Conv)
    requires RowFits(e, row) && !IsConnective(e.op) && !e.op.Always? && !e.op.Never? && !e.op.Exists?
    ensures Meaning(e, row, attrs, conv)
      == LeafVerdict(e.op, Lookup(e.field, row, conv), ResolveAll(Operands(e), attrs))
  {
  }

  lemma LookupTyped(f: Field, row: Row, conv: Conv)
    requires FieldFits(f, row) && Lookup(f, row, conv).Some? && f.Valid()
    ensures HasType(Lookup(f, row, conv).value, f.Type())
  {
  }

  lemma ResolvedOne(v: Value, attrs: map<string, string>, t: LogicalType)
    requires ValidValue(v, t)
    ensures ResolveAll([v], attrs) == match Resolve(v, attrs) case None => None case Some(d) => Some([d])
    ensures Resolve(v, attrs).Some? ==> HasType(Resolve(v, attrs).value, t)
  {
    ResolveOne(v, attrs);
  }

  lemma FieldDeclared(f: Field, env: Env)
    requires Coherent(env) && f.Key() in env.fields && env.fields[f.Key()] == f
    ensures f.Valid() && f.policy
  {
  }

  lemma ComparisonMeaning(op: SqlSyntax.Cmp, l: Cel, r: Cel, env: Env, row: Row, attrs: map<string, string>, conv: Conv)
    requires Coherent(env) && EnvFits(env, row) && ConvertComparison(op, l, r, env).Ok?
    requires Valid(ConvertComparison(op, l, r, env).value, FilterProfile)
    ensures var e, act := ConvertComparison(op, l, r, env).value, Bind(env, row, attrs, conv);
      && RowFits(e, row)
      && Meaning(e, row, attrs, conv) == VerdictOf(Relate(op, CelEval(l, act), CelEval(r, act)))
  {
    hide CelEval, Bind, Coherent, EnvFits, Lookup, FieldRef, ConvertValue, Meaning, FieldFits, Resolve;
    var e := ConvertComparison(op, l, r, env).value;
    var reversed := FieldRef(l, env).NotField?;
    var field, other := if reversed then r else l, if reversed then l else r;
    assert FieldRef(field, env) == Found(e.field);
    assert ConvertValue(other, e.field.Type(), env) == Ok(e.value);
    FieldRefMeaning(field, env, row, attrs, conv);
    ValueMeaning(other, e.field.Type(), ElementType(e.field.Type()), env, row, attrs, conv);
    ResolvedOne(e.value, attrs, e.field.Type());
    LeafVerdictIs(e, row, attrs, conv);
    FieldDeclared(e.field, env);
    if Lookup(e.field, row, conv).Some? { LookupTyped(e.field, row, conv); }
  }

  lemma ListValue(es: seq<Cel>, act: map<string, Val>)
    ensures CelEval(ListOf(es), act)
      == match Plain(CelEvalAll(es, act)) case None => Fault case Some(ds) => Lst(ds)
  {
  }

  lemma InListVerdict(d: Option<Datum>, ds: Option<seq<Datum>>)
    requires d.Some? ==> HasType(d.value, TString)
    ensures LeafVerdict(Op.In, d, ds)
      == VerdictOf(Among(OrFault(d), match ds case None => Fault case Some(xs) => Lst(xs)))
  {
  }

  lemma InArrayVerdict(d: Option<Datum>, x: Option<Datum>)
    requires (d.Some? ==> HasType(d.value, TStringArray)) && (x.Some? ==> HasType(x.value, TString))
    ensures LeafVerdict(Op.In, d, match x case None => None case Some(v) => Some([v]))
      == VerdictOf(Among(OrFault(x), OrFault(d)))
  {
  }

  lemma MembershipMeaning(l: Cel, r: Cel, env: Env, row: Row, attrs: map<string, string>, conv: Conv)
    requires Coherent(env) && EnvFits(env, row) && ConvertMembership(l, r, env).Ok?
    requires Valid(ConvertMembership(l, r, env).value, FilterProfile)
    ensures var e, act := ConvertMembership(l, r, env).value, Bind(env, row, attrs, conv);
      && RowFits(e, row)
      && Meaning(e, row, attrs, conv) == VerdictOf(Among(CelEval(l, act), CelEval(r, act)))
  {
    hide Bind, Coherent, EnvFits, Lookup, FieldRef, ConvertValue, Meaning, FieldFits, Resolve, CelEval, ResolveAll,
      CelEvalAll, Plain, HasType, LeafVerdict, VerdictOf, Among, OrFault;
    var e := ConvertMembership(l, r, env).value;
    var field := if FieldRef(l, env).NotField? then r else l;
    assert FieldRef(field, env) == Found(e.field);
    FieldRefMeaning(field, env, row, attrs, conv);
    FieldDeclared(e.field, env);
    LeafVerdictIs(e, row, attrs, conv);
    if Lookup(e.field, row, conv).Some? { LookupTyped(e.field, row, conv); }
    if field == l {
      ValuesMeaning(r.elems, TString, TString, env, row, attrs, conv);
      ListValue(r.elems, Bind(env, row, attrs, conv));
      InListVerdict(Lookup(e.field, row, conv), ResolveAll(e.values, attrs));
    } else {
      assert ConvertValue(l, TString, env) == Ok(e.value);
      ValueMeaning(l, TString, TString, env, row, attrs, conv);
      ResolvedOne(e.value, attrs, TString);
      InArrayVerdict(Lookup(e.field, row, conv), Resolve(e.value, attrs));
    }
  }

  lemma MemberMeaning(fn: Function, target: Cel, args: seq<Cel>, env: Env, row: Row, attrs: map<string, string>,
    conv: Conv)
    requires Coherent(env) && EnvFits(env, row) && !fn.ExistsFn? && !fn.OtherFn?
    requires ConvertMember(fn, target, args, env).Ok?
    requires Valid(ConvertMember(fn, target, args, env).value, FilterProfile)
    ensures var e, act := ConvertMember(fn, target, args, env).value, Bind(env, row, attrs, conv);
      && RowFits(e, row)
      && Meaning(e, row, attrs, conv) == VerdictOf(Invoke(fn, CelEval(target, act), CelEvalAll(args, act)))
  {
    hide Bind, Coherent, EnvFits, Lookup, FieldRef, ConvertValue, Meaning, FieldFits, Resolve;
    var e, act := ConvertMember(fn, target, args, env).value, Bind(env, row, attrs, conv);
    assert FieldRef(target, env) == Found(e.field);
    FieldRefMeaning(target, env, row, attrs, conv);
    FieldDeclared(e.field, env);
    LeafVerdictIs(e, row, attrs, conv);
    if Lookup(e.field, row, conv).Some? { LookupTyped(e.field, row, conv); }
    if fn.StartsWithFn? {
      ValueMeaning(args[0], TString, TString, env, row, attrs, conv);
      ResolvedOne(e.value, attrs, TString);
    } else if fn.BetweenFn? {
      BetweenMeaning(e, target, args, env, row, attrs, conv);
    } else {
      assert ConvertList(args[0], TString, env) == Ok(e.values);
      ValuesMeaning(args[0].elems, TString, TString, env, row, attrs, conv);
    }
  }

  lemma BetweenMeaning(e: Expr, target: Cel, args: seq<Cel>, env: Env, row: Row, attrs: map<string, string>, conv: Conv)
    requires Coherent(env) && EnvFits(env, row) && |args| == 2 && FieldFits(e.field, row)
    requires e.op.Between? && Valid(e, FilterProfile) && ConvertValues(args, TNumber, env) == Ok(e.values)
    requires Lookup(e.field, row, conv).Some? ==> HasType(Lookup(e.field, row, conv).value, TNumber)
    requires var act := Bind(env, row, attrs, conv); CelEval(target, act) == OrFault(Lookup(e.field, row, conv))
    ensures var act := Bind(env, row, attrs, conv);
      LeafVerdict(e.op, Lookup(e.field, row, conv), ResolveAll(e.values, attrs))
        == VerdictOf(Invoke(BetweenFn, CelEval(target, act), CelEvalAll(args, act)))
  {
    hide Bind, Coherent, EnvFits, Lookup, ConvertValue, FieldFits, CelEval;
    ValuesMeaning(args, TNumber, TNumber, env, row, attrs, conv);
    PlainTwo(CelEvalAll(args, Bind(env, row, attrs, conv)));
    var ds := ResolveAll(e.values, attrs);
    if ds.Some? {
      ResolvedTypes(e.values, attrs, TNumber);
      assert ds.value[0] in ds.value && ds.value[1] in ds.value;
    }
  }

  lemma PlainTwo(vs: seq<Val>)
    requires |vs| == 2
    ensures Plain(vs) == if vs[0].D? && vs[1].D? then Some([vs[0].d, vs[1].d]) else None
  {
    assert vs[1..] == [vs[1]] && vs[1..][1..] == [];
    if vs[0].D? && vs[1].D? {
      assert [vs[1].d] + [] == [vs[1].d];
      assert Plain(vs[1..]) == Some([vs[1].d]);
      assert [vs[0].d] + [vs[1].d] == [vs[0].d, vs[1].d];
    }
  }

  lemma ExistsMeaning(args: seq<Cel>, env: Env, row: Row, attrs: map<string, string>, conv: Conv)
    requires Coherent(env) && EnvFits(env, row) && ConvertExists(args, env).Ok?
    requires Valid(ConvertExists(args, env).value, FilterProfile)
    ensures var e, act := ConvertExists(args, env).value, Bind(env, row, attrs, conv);
      && RowFits(e, row)
      && |args| == 1 && Meaning(e, row, attrs, conv) == Decide(!CelEvalAll(args, act)[0].Fault?)
  {
    FieldRefMeaning(args[0], env, row, attrs, conv);
  }

  /** The predicate an accepted tree is converted to says on every span, for every caller, what CEL says. */
  lemma {:induction false} ConvertMeaning(n: Cel, env: Env, row: Row, attrs: map<string, string>, conv: Conv)
    requires Coherent(env) && EnvFits(env, row) && Policy.Convert(n, env).Ok?
    requires Valid(Policy.Convert(n, env).value, FilterProfile)
    ensures var e := Policy.Convert(n, env).value;
      && RowFits(e, row)
      && Meaning(e, row, attrs, conv) == VerdictOf(CelEval(n, Bind(env, row, attrs, conv)))
    decreases n, 1
  {
    hide Bind, EnvFits, Coherent, Relate, Among, Invoke, FieldFits;
    hide ConvertComparison, ConvertMembership, ConvertMember, ConvertExists, Lookup, ResolveAll;
    match n
    case Const(_) =>
    case Junction(disj, args) =>
      ConvertAllMeaning(args, env, row, attrs, conv);
    case Complement(x) =>
      ConvertMeaning(x, env, row, attrs, conv);
    case Relation(op, l, r) => ComparisonMeaning(op, l, r, env, row, attrs, conv);
    case Membership(l, r) => MembershipMeaning(l, r, env, row, attrs, conv);
    case Call(fn, target, args) =>
      if fn.ExistsFn? {
        ExistsMeaning(args, env, row, attrs, conv);
      } else {
        MemberMeaning(fn, target.value, args, env, row, attrs, conv);
      }
  }

  lemma {:induction false} ConvertAllMeaning(ns: seq<Cel>, env: Env, row: Row, attrs: map<string, string>, conv: Conv)
    requires Coherent(env) && EnvFits(env, row) && ConvertAll(ns, env).Ok?
    requires ValidAll(ConvertAll(ns, env).value, FilterProfile)
    ensures var es, vs := ConvertAll(ns, env).value, CelEvalAll(ns, Bind(env, row, attrs, conv));
      && RowFitsAll(es, row)
      && MeaningAll(es, row, attrs, conv) == AllOfVerdicts(vs)
      && MeaningAny(es, row, attrs, conv) == AnyOfVerdicts(vs)
    decreases ns, 0
  {
    hide Bind, EnvFits, Coherent;
    if ns != [] {
      var es := ConvertAll(ns, env).value;
      assert es[0] == Policy.Convert(ns[0], env).value && es[1..] == ConvertAll(ns[1..], env).value;
      assert es == [es[0]] + es[1..];
      ConvertMeaning(ns[0], env, row, attrs, conv);
      ConvertAllMeaning(ns[1..], env, row, attrs, conv);
      var vs := CelEvalAll(ns, Bind(env, row, attrs, conv));
      assert vs[1..] == CelEvalAll(ns[1..], Bind(env, row, attrs, conv));
    }
  }

  /** Every field a predicate mentions is declared, and so is every attribute. */
  predicate Within(e: Expr, env: Env)
    decreases e
  {
    if IsConnective(e.op) then forall c :: c in e.children ==> Within(c, env)
    else if e.op.Always? || e.op.Never? then true
    else
      && e.field.Key() in env.fields && env.fields[e.field.Key()] == e.field
      && RefsOf(Operands(e)) <= env.userAttrs
  }

  lemma FieldRefDeclared(n: Cel, env: Env)
    requires Coherent(env) && FieldRef(n, env).Found?
    ensures var f := FieldRef(n, env).f; f.Key() in env.fields && env.fields[f.Key()] == f
  {
  }

  lemma {:induction false} ValuesWithin(ns: seq<Cel>, want: LogicalType, env: Env)
    requires ConvertValues(ns, want, env).Ok?
    ensures RefsOf(ConvertValues(ns, want, env).value) <= env.userAttrs
  {
    if ns != [] {
      ValuesWithin(ns[1..], want, env);
      var vs := ConvertValues(ns, want, env).value;
      assert vs[1..] == ConvertValues(ns[1..], want, env).value;
      assert vs == [vs[0]] + vs[1..];
      assert vs[0].attr == "" || vs[0].attr in env.userAttrs;
    }
  }

  /** The result names only declared fields, all of them marked for policies, and declared attributes. */
  lemma {:induction false} ConvertWithin(n: Cel, env: Env)
    requires Coherent(env) && Policy.Convert(n, env).Ok?
    ensures Within(Policy.Convert(n, env).value, env)
    decreases n, 1
  {
    hide Coherent, FieldRef;
    match n
    case Const(_) =>
    case Junction(_, args) => ConvertAllWithin(args, env);
    case Complement(x) => ConvertWithin(x, env);
    case Relation(op, l, r) =>
      FieldRefDeclared(if FieldRef(l, env).NotField? then r else l, env);
    case Membership(l, r) =>
      FieldRefDeclared(if FieldRef(l, env).NotField? then r else l, env);
      if FieldRef(l, env).Found? { ValuesWithin(r.elems, TString, env); }
    case Call(fn, target, args) =>
      if fn.ExistsFn? {
        FieldRefDeclared(args[0], env);
      } else {
        FieldRefDeclared(target.value, env);
        if fn.BetweenFn? {
          ValuesWithin(args, TNumber, env);
        } else if !fn.StartsWithFn? {
          ValuesWithin(args[0].elems, TString, env);
        }
      }
  }

  lemma {:induction false} ConvertAllWithin(ns: seq<Cel>, env: Env)
    requires Coherent(env) && ConvertAll(ns, env).Ok?
    ensures forall e :: e in ConvertAll(ns, env).value ==> Within(e, env)
    decreases ns, 0
  {
    if ns != [] {
      ConvertWithin(ns[0], env);
      ConvertAllWithin(ns[1..], env);
    }
  }

  // ---- more attributes --------------------------------------------------------------------------------

  predicate Grown(more: Env, env: Env) {
    more == env.(userAttrs := more.userAttrs) && env.userAttrs <= more.userAttrs
  }

  lemma {:induction false} ValuesGrow(ns: seq<Cel>, want: LogicalType, env: Env, more: Env)
    requires Grown(more, env) && ConvertValues(ns, want, env).Ok?
    ensures ConvertValues(ns, want, more) == ConvertValues(ns, want, env)
  {
    if ns != [] { ValuesGrow(ns[1..], want, env, more); }
  }

  /** Declaring more attributes keeps every accepted policy accepted, with the same result. */
  lemma {:induction false} ConvertGrows(n: Cel, env: Env, more: Env)
    requires Grown(more, env) && Policy.Convert(n, env).Ok?
    ensures Policy.Convert(n, more) == Policy.Convert(n, env)
    decreases n, 1
  {
    assert forall x: Cel :: FieldRef(x, more) == FieldRef(x, env);
    hide FieldRef;
    match n
    case Const(_) =>
    case Junction(_, args) => ConvertAllGrows(args, env, more);
    case Complement(x) => ConvertGrows(x, env, more);
    case Relation(_, l, r) =>
    case Membership(l, r) => if FieldRef(l, env).Found? { ValuesGrow(r.elems, TString, env, more); }
    case Call(fn, target, args) =>
      if fn.BetweenFn? {
        ValuesGrow(args, TNumber, env, more);
      } else if fn.HasAnyFn? || fn.HasAllFn? {
        ValuesGrow(args[0].elems, TString, env, more);
      }
  }

  lemma {:induction false} ConvertAllGrows(ns: seq<Cel>, env: Env, more: Env)
    requires Grown(more, env) && ConvertAll(ns, env).Ok?
    ensures ConvertAll(ns, more) == ConvertAll(ns, env)
    decreases ns, 0
  {
    if ns != [] {
      ConvertGrows(ns[0], env, more);
      ConvertAllGrows(ns[1..], env, more);
    }
  }
}
