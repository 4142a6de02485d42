/** Which policies are accepted: a grammar over CEL trees and the names a model declares, written down by itself,
    that conversion and compilation accept exactly. */
module PolicyAccepts {
  import opened Basics
  import opened Schema
  import SqlSyntax
  import opened Expression
  import opened ExpressionMeaning
  import opened Policy
  import opened PolicyMeaning

  // ---- names and values -----------------------------------------------------------------------------------

  /** The tree writes a declared field: a column by its name, a key of a map column in brackets. */
  predicate Refers(n: Cel, f: Field, env: Env) {
    && f.Key() in env.fields && env.fields[f.Key()] == f
    && n == if f.Scalar() then Ident(f.name) else Index(Ident(f.map_), Const(SqlSyntax.Str(f.name)))
  }

  ghost predicate IsField(n: Cel, env: Env) {
    exists f :: Refers(n, f, env)
  }

  /** A literal of the type or, for a string, an attribute of the caller. */
  predicate ValueFor(n: Cel, t: LogicalType, env: Env) {
    match n
    case Const(Str(_)) => t.TString?
    case Const(Bool(_)) => t.TBoolean?
    case Const(Num(_)) => t.TNumber?
    case Select(Ident(user), a) => user == USER && a in env.userAttrs && t.TString?
    case _ => false
  }

  predicate ListFor(n: Cel, t: LogicalType, env: Env) {
    n.ListOf? && forall x :: x in n.elems ==> ValueFor(x, t, env)
  }

  // ---- the names of a model --------------------------------------------------------------------------------

  const FOR_POLICIES := (f: Field) => f.policy

  /** The first field of a column, of those marked for policies. */
  predicate FirstOf(fields: seq<Field>, i: int, column: string) {
    && 0 <= i < |fields| && fields[i].policy && Column(fields[i]) == column
    && forall j :: 0 <= j < i && fields[j].policy ==> Column(fields[j]) != column
  }

  /** What a model declares: under each key the last field with it that is marked for policies, each column with the
      type of the first such field, and its attributes; nothing else. */
  lemma EnvHolds(fields: seq<Field>, userAttrs: seq<string>, name: string)
    ensures var env := EnvFrom(fields, userAttrs);
      && (name in env.fields <==> exists i :: LastMarked(FOR_POLICIES, fields, i, name))
      && (forall i :: LastMarked(FOR_POLICIES, fields, i, name) ==> env.fields[name] == fields[i])
      && (name in env.vars <==> exists i :: FirstOf(fields, i, name))
      && (forall i :: FirstOf(fields, i, name) ==> env.vars[name] == VarTypeOf(fields[i]))
      && (name in env.userAttrs <==> name in userAttrs)
  {
    FieldsHold(fields, name);
    VarsHold(fields, name);
  }

  lemma {:induction false} FieldsHold(fields: seq<Field>, key: string)
    ensures key in FieldMap(fields) <==> exists i :: LastMarked(FOR_POLICIES, fields, i, key)
    ensures forall i :: LastMarked(FOR_POLICIES, fields, i, key) ==>
      key in FieldMap(fields) && FieldMap(fields)[key] == fields[i]
  {
    if fields != [] {
      var n := |fields| - 1;
      FieldsHold(fields[..n], key);
      if fields[n].policy && fields[n].Key() == key {
        assert LastMarked(FOR_POLICIES, fields, n, key);
      } else {
        forall i ensures LastMarked(FOR_POLICIES, fields, i, key) <==> LastMarked(FOR_POLICIES, fields[..n], i, key) {
        }
      }
    }
  }

  lemma {:induction false} VarsHold(fields: seq<Field>, column: string)
    ensures column in Vars(fields) <==> exists i :: FirstOf(fields, i, column)
    ensures forall i :: FirstOf(fields, i, column) ==>
      column in Vars(fields) && Vars(fields)[column] == VarTypeOf(fields[i])
  {
    if fields != [] {
      VarsHold(fields[..|fields| - 1], column);
      FirstMore(fields, column);
    }
  }

  lemma FirstMore(fields: seq<Field>, column: string)
    requires fields != []
    ensures var n, front := |fields| - 1, fields[..|fields| - 1];
      && (forall i :: i != n ==> (FirstOf(fields, i, column) <==> FirstOf(front, i, column)))
      && (FirstOf(fields, n, column) <==>
            fields[n].policy && Column(fields[n]) == column && column !in Vars(front))
  {
    hide Vars, Column;
    var n, front := |fields| - 1, fields[..|fields| - 1];
    assert forall j :: 0 <= j < n ==> fields[j] == front[j];
    NoneBefore(front, column);
  }

  lemma NoneBefore(front: seq<Field>, column: string)
    ensures column !in Vars(front) <==> forall j :: 0 <= j < |front| && front[j].policy ==> Column(front[j]) != column
  {
    VarsColumns(front);
    forall j | 0 <= j < |front| && front[j].policy && Column(front[j]) == column ensures column in Vars(front) {
      assert front[j] in front && Column(front[j]) in Columns(front, front[j].Scalar());
    }
    if column in Vars(front) {
      var scalar := column in Columns(front, true);
      var f :| f in front && f.policy && f.Scalar() == scalar && Column(f) == column;
      var j :| 0 <= j < |front| && front[j] == f;
    }
  }

  // ---- what is converted ------------------------------------------------------------------------------------

  ghost predicate Comparable(l: Cel, r: Cel, env: Env) {
    exists f :: Refers(l, f, env) && ValueFor(r, f.Type(), env)
  }

  ghost predicate MemberOf(l: Cel, r: Cel, env: Env) {
    || (exists f :: Refers(l, f, env) && f.Type().TString? && ListFor(r, TString, env))
    || (exists f :: Refers(r, f, env) && f.Type().TStringArray? && ValueFor(l, TString, env))
  }

  predicate ArgumentsFit(fn: Function, args: seq<Cel>, env: Env) {
    match fn
    case StartsWithFn => |args| == 1 && ValueFor(args[0], TString, env)
    case BetweenFn => |args| == 2 && ValueFor(args[0], TNumber, env) && ValueFor(args[1], TNumber, env)
    case HasAnyFn => |args| == 1 && ListFor(args[0], TString, env)
    case HasAllFn => |args| == 1 && ListFor(args[0], TString, env)
    case _ => false
  }

  /** The trees that are converted: a truth value, a comparison of a field with a value on either side of it, a
      membership, a call on a field, a question whether a field exists, and what is built from these. */
  ghost predicate Converts(n: Cel, env: Env)
    decreases n
  {
    match n
    case Const(Bool(_)) => true
    case Junction(_, args) => forall a :: a in args ==> Converts(a, env)
    case Complement(x) => Converts(x, env)
    case Relation(_, l, r) => Comparable(l, r, env) || Comparable(r, l, env)
    case Membership(l, r) => MemberOf(l, r, env)
    case Call(ExistsFn, _, args) => |args| == 1 && IsField(args[0], env)
    case Call(fn, Some(target), args) => IsField(target, env) && ArgumentsFit(fn, args, env)
    case _ => false
  }

  lemma KeyIs(f: Field)
    ensures KeyOf(f.map_, f.name) == f.Key()
  {
  }

  /** References are looked up by the column and the key that are written. */
  lemma RefersIs(n: Cel, env: Env)
    requires Coherent(env)
    ensures FieldRef(n, env).Found? ==> Refers(n, FieldRef(n, env).f, env)
    ensures forall f :: Refers(n, f, env) ==> FieldRef(n, env) == Found(f)
  {
    forall f | Refers(n, f, env) ensures FieldRef(n, env) == Found(f) {
      KeyIs(f);
      assert Column(f) in (if f.Scalar() then env.scalars else env.maps);
    }
    if FieldRef(n, env).Found? { LooksUp(n, env); }
  }

  lemma LooksUp(n: Cel, env: Env)
    requires Coherent(env) && FieldRef(n, env).Found?
    ensures Refers(n, FieldRef(n, env).f, env)
  {
    var f := FieldRef(n, env).f;
    match n
    case Ident(name) =>
      var g := Field("", name, Unset, false, false);
      assert f.Key() == g.Key() && f.Valid();
      KeyIdentifies(f, g);
    case Index(Ident(column), key) =>
      var g := Field(column, key.v.s, Unset, false, false);
      assert column in env.maps && ValidIdent(column);
      assert f.Key() == g.Key() && f.Valid();
      KeyIdentifies(f, g);
  }

  lemma ValueIs(n: Cel, t: LogicalType, env: Env)
    requires !t.Unset?
    ensures ConvertValue(n, t, env).Ok? <==> ValueFor(n, t, env)
  {
  }

  lemma {:induction false} ValuesAre(ns: seq<Cel>, t: LogicalType, env: Env)
    requires !t.Unset?
    ensures ConvertValues(ns, t, env).Ok? <==> forall n :: n in ns ==> ValueFor(n, t, env)
    ensures ConvertValues(ns, t, env).Ok? ==> |ConvertValues(ns, t, env).value| == |ns|
  {
    hide ConvertValue, ValueFor;
    if ns != [] {
      ValueIs(ns[0], t, env);
      ValuesAre(ns[1..], t, env);
      assert ns == [ns[0]] + ns[1..];
    }
  }

  /** What is written as a value is written like no field. */
  lemma ValueIsNoField(n: Cel, t: LogicalType, env: Env)
    requires ValueFor(n, t, env) || n.ListOf?
    ensures FieldRef(n, env).NotField?
  {
  }

  lemma ComparableIs(l: Cel, r: Cel, env: Env)
    requires Coherent(env)
    ensures Comparable(l, r, env) <==> FieldRef(l, env).Found? && ConvertValue(r, FieldRef(l, env).f.Type(), env).Ok?
    ensures Comparable(l, r, env) ==> FieldRef(r, env).NotField?
  {
    hide FieldRef, Refers, ValueFor, ConvertValue, Coherent;
    RefersIs(l, env);
    if FieldRef(l, env).Found? {
      var t := FieldRef(l, env).f.Type();
      ValueIs(r, t, env);
      if ValueFor(r, t, env) { ValueIsNoField(r, t, env); }
    }
  }

  lemma ComparisonAccepts(op: SqlSyntax.Cmp, l: Cel, r: Cel, env: Env)
    requires Coherent(env)
    ensures ConvertComparison(op, l, r, env).Ok? <==> Comparable(l, r, env) || Comparable(r, l, env)
  {
    hide FieldRef, Comparable, ConvertValue, Coherent;
    ComparableIs(l, r, env);
    ComparableIs(r, l, env);
  }

  lemma MembershipAccepts(l: Cel, r: Cel, env: Env)
    requires Coherent(env)
    ensures ConvertMembership(l, r, env).Ok? <==> MemberOf(l, r, env)
  {
    hide FieldRef, Refers, ValueFor, ConvertValue, ConvertValues, Coherent;
    RefersIs(l, env);
    RefersIs(r, env);
    ValueIs(l, TString, env);
    if ValueFor(l, TString, env) { ValueIsNoField(l, TString, env); }
    if r.ListOf? { ValuesAre(r.elems, TString, env); }
  }

  lemma MemberAccepts(fn: Function, target: Cel, args: seq<Cel>, env: Env)
    requires Coherent(env) && !fn.ExistsFn? && !fn.OtherFn?
    ensures ConvertMember(fn, target, args, env).Ok? <==> IsField(target, env) && ArgumentsFit(fn, args, env)
  {
    hide FieldRef, Refers, ValueFor, ConvertValue, ConvertValues, Coherent;
    RefersIs(target, env);
    if |args| == 1 {
      ValueIs(args[0], TString, env);
      if args[0].ListOf? { ValuesAre(args[0].elems, TString, env); }
    } else if |args| == 2 {
      ValuesAre(args, TNumber, env);
      assert args == [args[0], args[1]];
    }
  }

  /** Conversion accepts exactly these trees. */
  lemma {:induction false} ConvertAccepts(n: Cel, env: Env)
    requires Coherent(env)
    ensures Policy.Convert(n, env).Ok? <==> Converts(n, env)
    decreases n, 1
  {
    hide Coherent;
    match n
    case Junction(_, args) => ConvertAllAccepts(args, env);
    case Complement(x) => ConvertAccepts(x, env);
    case Relation(op, l, r) => ComparisonAccepts(op, l, r, env);
    case Membership(l, r) => MembershipAccepts(l, r, env);
    case Call(fn, target, args) =>
      if fn.ExistsFn? {
        if |args| == 1 { RefersIs(args[0], env); }
      } else if target.Some? && !fn.OtherFn? {
        MemberAccepts(fn, target.value, args, env);
      }
    case _ =>
  }

  lemma {:induction false} ConvertAllAccepts(ns: seq<Cel>, env: Env)
    requires Coherent(env)
    ensures ConvertAll(ns, env).Ok? <==> forall n :: n in ns ==> Converts(n, env)
    ensures ConvertAll(ns, env).Ok? ==> |ConvertAll(ns, env).value| == |ns|
    decreases ns, 0
  {
    hide Policy.Convert, Converts, Coherent;
    if ns != [] {
      ConvertAccepts(ns[0], env);
      ConvertAllAccepts(ns[1..], env);
      assert ns == [ns[0]] + ns[1..];
    }
  }

  /** A comparison turned round says the same. */
  function Turned(op: SqlSyntax.Cmp): SqlSyntax.Cmp {
    match op
    case Gt => SqlSyntax.Lt case Ge => SqlSyntax.Le case Lt => SqlSyntax.Gt case Le => SqlSyntax.Ge
    case _ => op
  }

  /** It does not matter on which side of a comparison the field is written. */
  lemma ComparisonTurns(op: SqlSyntax.Cmp, l: Cel, r: Cel, env: Env)
    requires Coherent(env)
    ensures Policy.Convert(Relation(op, l, r), env).Ok? ==>
      Policy.Convert(Relation(Turned(op), r, l), env) == Policy.Convert(Relation(op, l, r), env)
  {
    hide FieldRef, Comparable, ConvertValue, Coherent;
    ComparisonAccepts(op, l, r, env);
    ComparableIs(l, r, env);
    ComparableIs(r, l, env);
  }

  // ---- what is a policy -----------------------------------------------------------------------------------------

  /** user.x without a name for x, which CEL has no way to write. */
  predicate Nameless(n: Cel) {
    n == Select(Ident(USER), "")
  }

  /** The trees that are policies: of all that is converted, equality and its opposite on strings and truth values,
      and membership. No call is one, and nothing else compares. */
  ghost predicate IsPolicy(n: Cel, env: Env)
    decreases n
  {
    match n
    case Const(Bool(_)) => true
    case Junction(_, args) => args != [] && forall a :: a in args ==> IsPolicy(a, env)
    case Complement(x) => IsPolicy(x, env)
    case Relation(op, l, r) =>
      && (op.Eq? || op.Ne?) && (Comparable(l, r, env) || Comparable(r, l, env))
      && !Nameless(l) && !Nameless(r)
    case Membership(l, r) =>
      && MemberOf(l, r, env) && !Nameless(l)
      && (r.ListOf? ==> r.elems != [] && forall x :: x in r.elems ==> !Nameless(x))
    case _ => false
  }

  lemma ValueIsValid(n: Cel, t: LogicalType, env: Env)
    requires ConvertValue(n, t, env).Ok? && !t.Unset?
    ensures ValidValue(ConvertValue(n, t, env).value, t) <==> !Nameless(n)
    ensures !t.TStringArray?
  {
  }

  lemma {:induction false} ValuesAreValid(ns: seq<Cel>, t: LogicalType, env: Env)
    requires ConvertValues(ns, t, env).Ok? && !t.Unset?
    ensures (forall v :: v in ConvertValues(ns, t, env).value ==> ValidValue(v, t)) <==>
      forall n :: n in ns ==> !Nameless(n)
    ensures |ConvertValues(ns, t, env).value| == |ns|
  {
    hide ConvertValue, ValidValue, Nameless;
    if ns != [] {
      var v := ConvertValue(ns[0], t, env).value;
      ValueIsValid(ns[0], t, env);
      ValuesAreValid(ns[1..], t, env);
      assert ns == [ns[0]] + ns[1..];
      assert ConvertValues(ns, t, env).value == [v] + ConvertValues(ns[1..], t, env).value;
    }
  }

  lemma RelationIsPolicy(op: SqlSyntax.Cmp, l: Cel, r: Cel, env: Env)
    requires Coherent(env) && ConvertComparison(op, l, r, env).Ok?
    ensures Valid(ConvertComparison(op, l, r, env).value, PolicyProfile) <==> IsPolicy(Relation(op, l, r), env)
  {
    hide FieldRef, Refers, ValueFor, ConvertValue, ValidValue, Valid, Coherent, Nameless;
    var e := ConvertComparison(op, l, r, env).value;
    ComparisonAccepts(op, l, r, env);
    RefersIs(l, env);
    RefersIs(r, env);
    var field, other := if FieldRef(l, env).Found? then l else r, if FieldRef(l, env).Found? then r else l;
    assert FieldRef(field, env) == Found(e.field) && ConvertValue(other, e.field.Type(), env) == Ok(e.value);
    ValueIsValid(other, e.field.Type(), env);
    FieldIsNamed(field, env);
    assert Refers(field, e.field, env);
    RefersDeclared(field, e.field, env);
    FieldIsUsual(e.field, env);
    EqualityIsPolicy(op, FieldRef(l, env).NotField?, e.field, e.value);
  }

  lemma RefersDeclared(n: Cel, f: Field, env: Env)
    requires Refers(n, f, env)
    ensures f.Key() in env.fields && env.fields[f.Key()] == f
  {
  }

  /** Policies compare for equality only. */
  lemma EqualityIsPolicy(op: SqlSyntax.Cmp, turned: bool, f: Field, v: Value)
    requires f.Type().TString? || f.Type().TBoolean?
    ensures Valid(Expr(if turned then Mirror(OpOf(op)) else OpOf(op), f, v, [], []), PolicyProfile)
      <==> (op.Eq? || op.Ne?) && ValidValue(v, f.Type())
  {
  }

  lemma FieldIsNamed(n: Cel, env: Env)
    requires FieldRef(n, env).Found?
    ensures !Nameless(n) && !n.ListOf?
  {
  }

  /** Fields of policies are strings, arrays of strings or truth values. */
  lemma FieldIsUsual(f: Field, env: Env)
    requires Coherent(env) && f.Key() in env.fields && env.fields[f.Key()] == f
    ensures f.Type().TString? || f.Type().TStringArray? || f.Type().TBoolean?
  {
  }

  lemma MembershipIsPolicy(l: Cel, r: Cel, env: Env)
    requires Coherent(env) && ConvertMembership(l, r, env).Ok?
    ensures Valid(ConvertMembership(l, r, env).value, PolicyProfile) <==> IsPolicy(Membership(l, r), env)
  {
    hide FieldRef, Refers, ValueFor, ConvertValue, ConvertValues, ValidValue, Coherent;
    var e := ConvertMembership(l, r, env).value;
    MembershipAccepts(l, r, env);
    if FieldRef(l, env).Found? {
      FieldIsNamed(l, env);
      ValuesAreValid(r.elems, TString, env);
    } else {
      FieldIsNamed(r, env);
      ValueIsValid(l, TString, env);
    }
  }

  /** Of what is converted, the policy profile lets through exactly the policies. */
  lemma {:induction false} PolicyIsValid(n: Cel, env: Env)
    requires Coherent(env) && Policy.Convert(n, env).Ok?
    ensures Valid(Policy.Convert(n, env).value, PolicyProfile) <==> IsPolicy(n, env)
    decreases n, 1
  {
    hide Coherent;
    match n
    case Junction(_, args) => PoliciesAreValid(args, env);
    case Complement(x) => PolicyIsValid(x, env);
    case Relation(op, l, r) => RelationIsPolicy(op, l, r, env);
    case Membership(l, r) => MembershipIsPolicy(l, r, env);
    case _ =>
  }

  lemma {:induction false} PoliciesAreValid(ns: seq<Cel>, env: Env)
    requires Coherent(env) && ConvertAll(ns, env).Ok?
    ensures ValidAll(ConvertAll(ns, env).value, PolicyProfile) <==> forall n :: n in ns ==> IsPolicy(n, env)
    ensures |ConvertAll(ns, env).value| == |ns|
    decreases ns, 0
  {
    hide Policy.Convert, IsPolicy, Coherent, Valid;
    if ns != [] {
      PolicyIsValid(ns[0], env);
      PoliciesAreValid(ns[1..], env);
      assert ns == [ns[0]] + ns[1..];
      assert ConvertAll(ns, env).value == [Policy.Convert(ns[0], env).value] + ConvertAll(ns[1..], env).value;
    }
  }

  /** Every policy is converted. */
  lemma {:induction false} PolicyConverts(n: Cel, env: Env)
    requires IsPolicy(n, env)
    ensures Converts(n, env)
    decreases n
  {
    match n
    case Junction(_, args) => forall a | a in args ensures Converts(a, env) { PolicyConverts(a, env); }
    case Complement(x) => PolicyConverts(x, env);
    case _ =>
  }

  /** A text compiles exactly if it parses to a policy. */
  lemma CompileAccepts(source: string, env: Env, parse: Parser)
    requires Coherent(env)
    ensures CompilePolicy(source, env, parse).Ok? <==>
      parse(env.vars, source).Some? && IsPolicy(parse(env.vars, source).value, env)
  {
    hide Coherent, Policy.Convert, IsPolicy, Valid;
    if parse(env.vars, source).Some? {
      var n := parse(env.vars, source).value;
      ConvertAccepts(n, env);
      if IsPolicy(n, env) { PolicyConverts(n, env); }
      if Policy.Convert(n, env).Ok? { PolicyIsValid(n, env); }
    }
  }

  /** Part of a tree that is built up with and, or and not. */
  predicate PartOf(x: Cel, n: Cel)
    decreases n
  {
    x == n || match n
      case Junction(_, args) => exists a :: a in args && PartOf(x, a)
      case Complement(y) => PartOf(x, y)
      case _ => false
  }

  /** A text with a call in it anywhere, or with a comparison other than for equality, is no policy. */
  lemma {:induction false} BroaderIsRefused(x: Cel, n: Cel, env: Env)
    requires x.Call? || (x.Relation? && !x.op.Eq? && !x.op.Ne?)
    requires PartOf(x, n)
    ensures !IsPolicy(n, env)
    decreases n
  {
    if x != n {
      match n
      case Junction(_, args) =>
        var a :| a in args && PartOf(x, a);
        BroaderIsRefused(x, a, env);
      case Complement(y) => BroaderIsRefused(x, y, env);
    }
  }

  /** So it does not compile. */
  lemma BroaderDoesNotCompile(x: Cel, source: string, env: Env, parse: Parser)
    requires Coherent(env) && (x.Call? || (x.Relation? && !x.op.Eq? && !x.op.Ne?))
    requires parse(env.vars, source).Some? && PartOf(x, parse(env.vars, source).value)
    ensures CompilePolicy(source, env, parse).Err?
  {
    hide CompilePolicy, IsPolicy, PartOf, Coherent;
    CompileAccepts(source, env, parse);
    BroaderIsRefused(x, parse(env.vars, source).value, env);
  }

  // ---- the attributes of a policy -----------------------------------------------------------------------------------

  /** The caller attributes a tree mentions. */
  function Mentioned(n: Cel): set<string>
    decreases n, 1
  {
    match n
    case Select(Ident(user), a) => if user == USER then {a} else {}
    case Junction(_, args) => MentionedAll(args)
    case Complement(x) => Mentioned(x)
    case Relation(_, l, r) => Mentioned(l) + Mentioned(r)
    case Membership(l, r) => Mentioned(l) + Mentioned(r)
    case ListOf(elems) => MentionedAll(elems)
    case _ => {}
  }

  function MentionedAll(ns: seq<Cel>): set<string>
    decreases ns, 0
  {
    if ns == [] then {} else Mentioned(ns[0]) + MentionedAll(ns[1..])
  }

  lemma ValueMentions(n: Cel, t: LogicalType, env: Env)
    requires ConvertValue(n, t, env).Ok? && !Nameless(n)
    ensures RefsOf([ConvertValue(n, t, env).value]) == Mentioned(n)
  {
    var v := ConvertValue(n, t, env).value;
    assert v in [v];
    assert forall w :: w in [v] ==> w == v;
  }

  lemma {:induction false} ValuesMention(ns: seq<Cel>, t: LogicalType, env: Env)
    requires ConvertValues(ns, t, env).Ok? && forall n :: n in ns ==> !Nameless(n)
    ensures RefsOf(ConvertValues(ns, t, env).value) == MentionedAll(ns)
  {
    hide ConvertValue, Nameless, Mentioned;
    if ns != [] {
      ValueMentions(ns[0], t, env);
      ValuesMention(ns[1..], t, env);
      var v, rest := ConvertValue(ns[0], t, env).value, ConvertValues(ns[1..], t, env).value;
      assert ConvertValues(ns, t, env).value == [v] + rest;
      RefsJoin([v], rest);
    }
  }

  lemma RefsJoin(vs: seq<Value>, ws: seq<Value>)
    ensures RefsOf(vs + ws) == RefsOf(vs) + RefsOf(ws)
  {
    assert forall v :: v in vs + ws <==> v in vs || v in ws;
  }

  lemma FieldMentionsNothing(n: Cel, env: Env)
    requires FieldRef(n, env).Found?
    ensures Mentioned(n) == {}
  {
  }

  /** A compiled policy refers to the attributes its text mentions, and to no other. */
  lemma {:induction false} ConvertMentions(n: Cel, env: Env)
    requires Coherent(env) && Policy.Convert(n, env).Ok? && IsPolicy(n, env)
    ensures Refs(Policy.Convert(n, env).value) == Mentioned(n)
    decreases n, 1
  {
    hide Coherent, ConvertValue, ConvertValues, FieldRef, RefsOf, ValueFor, Refers;
    match n
    case Junction(_, args) => AllMention(args, env);
    case Complement(x) =>
      ConvertMentions(x, env);
      var child := Policy.Convert(x, env).value;
      assert RefsAll([child]) == Refs(child) + RefsAll([]);
    case Relation(op, l, r) =>
      var e := Policy.Convert(n, env).value;
      var field, other := if FieldRef(l, env).Found? then l else r, if FieldRef(l, env).Found? then r else l;
      assert FieldRef(field, env) == Found(e.field) && ConvertValue(other, e.field.Type(), env) == Ok(e.value);
      FieldMentionsNothing(field, env);
      ValueMentions(other, e.field.Type(), env);
    case Membership(l, r) =>
      if FieldRef(l, env).Found? {
        FieldMentionsNothing(l, env);
        ValuesMention(r.elems, TString, env);
      } else {
        FieldMentionsNothing(r, env);
        ValueMentions(l, TString, env);
      }
    case _ =>
  }

  lemma {:induction false} AllMention(ns: seq<Cel>, env: Env)
    requires Coherent(env) && ConvertAll(ns, env).Ok? && forall n :: n in ns ==> IsPolicy(n, env)
    ensures RefsAll(ConvertAll(ns, env).value) == MentionedAll(ns)
    decreases ns, 0
  {
    hide Coherent, Policy.Convert, IsPolicy, Refs, Mentioned;
    if ns != [] {
      ConvertMentions(ns[0], env);
      AllMention(ns[1..], env);
      assert ConvertAll(ns, env).value == [Policy.Convert(ns[0], env).value] + ConvertAll(ns[1..], env).value;
    }
  }
}
