/** Policies written in CEL: which names an environment declares, how a checked CEL tree becomes a predicate,
    and the registry of a model's programs. */
module Policy {
  import opened Basics
  import opened Schema
  import SqlSyntax
  import opened SqlSemantics
  import opened Expression

  type Datum = SqlSyntax.Datum

  // ---- CEL syntax --------------------------------------------------------------------------------

  datatype Function = StartsWithFn | HasAnyFn | HasAllFn | BetweenFn | ExistsFn | OtherFn(name: string)

  /** A parsed and type-checked CEL expression. A literal of any kind but string, bool and number is Null. */
  datatype Cel =
    | Const(v: Datum)
    | Ident(name: string)
    | Select(operand: Cel, field: string)
    | ListOf(elems: seq<Cel>)
    | Comprehension
    | Other
    | Junction(disj: bool, args: seq<Cel>)
    | Complement(x: Cel)
    | Relation(op: SqlSyntax.Cmp, l: Cel, r: Cel)
    | Membership(l: Cel, r: Cel)
    | Index(l: Cel, r: Cel)
    | Call(fn: Function, target: Option<Cel>, args: seq<Cel>)

  /** The type a CEL environment declares a column with. */
  datatype VarType = StringVar | ListVar | BoolVar | DynVar | MapVar

  /** The CEL parser and type checker, for the declared variables. */
  type Parser = (map<string, VarType>, string) -> Option<Cel>

  datatype Complaint =
    | NotCel | BareLiteral | BareIdentifier(name: string) | DotAccess | Macro | BareReference | Unsupported
    | NotOnField(fn: Function) | WrongArity(fn: Function) | NotAField
    | MapColumn(name: string) | BadKey | NotReferable(column: string, key: string)
    | WriteBrackets(column: string, key: string)
    | UnknownAttribute(name: string) | AttributeNotString | NotAValue | UnsupportedLiteral
    | WrongType(want: LogicalType) | ExpectedList | LeftNotString | NotMembership | NotAPolicy

  // ---- the environment -----------------------------------------------------------------------------

  const USER := "user"

  datatype Env = Env(
    vars: map<string, VarType>, fields: map<string, Field>, maps: set<string>, scalars: set<string>,
    userAttrs: set<string>)

  datatype EnvError = BadField(f: Field) | Reserved(f: Field) | Overlapping

  function VarTypeOf(f: Field): VarType {
    if !f.Scalar() then MapVar
    else match f.Type() case TString => StringVar case TStringArray => ListVar case TBoolean => BoolVar case _ => DynVar
  }

  /** The identifier a field is reached through. */
  function Column(f: Field): string {
    if f.Scalar() then f.name else f.map_
  }

  predicate FieldAccepted(f: Field) {
    f.policy ==> f.Valid() && Column(f) != USER
  }

  /** A column is not both a scalar and a map, counting only fields marked for policies. */
  predicate Apart(fields: seq<Field>) {
    forall f, g :: f in fields && g in fields && f.policy && g.policy && Column(f) == Column(g) ==>
      f.Scalar() == g.Scalar()
  }

  predicate Acceptable(fields: seq<Field>) {
    (forall f :: f in fields ==> FieldAccepted(f)) && Apart(fields)
  }

  /** The policy fields by key; the last one wins. */
  function FieldMap(fields: seq<Field>): map<string, Field> {
    if fields == [] then map[]
    else
      var f, before := fields[|fields| - 1], FieldMap(fields[..|fields| - 1]);
      if f.policy then before[f.Key() := f] else before
  }

  /** The declared columns with their types; the first field of a column decides. */
  function Vars(fields: seq<Field>): map<string, VarType> {
    if fields == [] then map[]
    else
      var f, before := fields[|fields| - 1], Vars(fields[..|fields| - 1]);
      if f.policy && Column(f) !in before then before[Column(f) := VarTypeOf(f)] else before
  }

  function Columns(fields: seq<Field>, scalar: bool): set<string> {
    set f | f in fields && f.policy && f.Scalar() == scalar :: Column(f)
  }

  function EnvFrom(fields: seq<Field>, userAttrs: seq<string>): Env {
    Env(Vars(fields), FieldMap(fields), Columns(fields, false), Columns(fields, true), set a | a in userAttrs)
  }

  /** What has been declared for some fields. */
  datatype Declared = Declared(
    vars: map<string, VarType>, fields: map<string, Field>, maps: set<string>, scalars: set<string>, overlap: bool)

  ghost function DeclaredFor(fields: seq<Field>): Declared {
    Declared(Vars(fields), FieldMap(fields), Columns(fields, false), Columns(fields, true), !Apart(fields))
  }

  /** Declares one more field; a map column that is a scalar already is refused at once. */
  method Declare(f: Field, d: Declared, ghost before: seq<Field>) returns (r: Result<Declared, EnvError>)
    requires d == DeclaredFor(before)
    ensures r.Ok? ==> FieldAccepted(f) && r.value == DeclaredFor(before + [f])
    ensures r.Err? ==> !FieldAccepted(f) || !Apart(before + [f])
  {
    hide Apart, Columns, FieldMap, Vars, ValidIdent, Field.Key;
    ColumnsOneMore(before, f, false);
    ColumnsOneMore(before, f, true);
    DeclareOneMore(before, f);
    ApartOneMore(before, f);
    VarsColumns(before);
    if !f.policy { return Ok(d); }
    if !f.Valid() { return Err(BadField(f)); }
    var next := d.(fields := d.fields[f.Key() := f]);
    if Column(f) == USER { return Err(Reserved(f)); }
    if f.Scalar() {
      // CEL refuses to declare a name a second time with another type.
      next := next.(overlap := d.overlap || f.name in d.maps);
      if f.name !in d.scalars {
        next := next.(scalars := d.scalars + {f.name});
        if f.name !in d.vars { next := next.(vars := d.vars[f.name := VarTypeOf(f)]); }
      }
    } else {
      if f.map_ in d.scalars { return Err(Overlapping); }
      if f.map_ !in d.maps {
        next := next.(maps := d.maps + {f.map_}, vars := d.vars[f.map_ := MapVar]);
      }
    }
    return Ok(next);
  }

  /** Accepts exactly the acceptable field lists, and then declares what their policy fields say. */
  method NewEnv(m: Model) returns (r: Result<Env, EnvError>)
    ensures r.Ok? <==> Acceptable(m.fields)
    ensures r.Ok? ==> r.value == EnvFrom(m.fields, m.userAttrs)
  {
    var d := Declared(map[], map[], {}, {}, false);
    for i := 0 to |m.fields|
      invariant d == DeclaredFor(m.fields[..i])
      invariant forall f :: f in m.fields[..i] ==> FieldAccepted(f)
    {
      hide DeclaredFor, Apart, FieldAccepted;
      assert m.fields[..i + 1] == m.fields[..i] + [m.fields[i]];
      var next := Declare(m.fields[i], d, m.fields[..i]);
      if next.Err? {
        if FieldAccepted(m.fields[i]) { ApartPrefix(m.fields, i + 1); }
        return Err(next.error);
      }
      d := next.value;
    }
    assert m.fields[..|m.fields|] == m.fields;
    if d.overlap { return Err(Overlapping); }
    return Ok(Env(d.vars, d.fields, d.maps, d.scalars, set a | a in m.userAttrs));
  }

  lemma ColumnsOneMore(fields: seq<Field>, f: Field, scalar: bool)
    ensures Columns(fields + [f], scalar)
      == Columns(fields, scalar) + (if f.policy && f.Scalar() == scalar then {Column(f)} else {})
  {
    forall x | x in Columns(fields, scalar) ensures x in Columns(fields + [f], scalar) {
      var g :| g in fields && g.policy && g.Scalar() == scalar && x == Column(g);
      assert g in fields + [f];
    }
    if f.policy && f.Scalar() == scalar { assert f in fields + [f]; }
  }

  lemma DeclareOneMore(fields: seq<Field>, f: Field)
    ensures FieldMap(fields + [f]) == if f.policy then FieldMap(fields)[f.Key() := f] else FieldMap(fields)
    ensures Vars(fields + [f]) ==
      if f.policy && Column(f) !in Vars(fields) then Vars(fields)[Column(f) := VarTypeOf(f)] else Vars(fields)
  {
    assert (fields + [f])[..|fields|] == fields;
  }

  lemma {:induction false} VarsColumns(fields: seq<Field>)
    ensures Vars(fields).Keys == Columns(fields, false) + Columns(fields, true)
  {
    if fields != [] {
      var n := |fields| - 1;
      assert fields == fields[..n] + [fields[n]];
      VarsColumns(fields[..n]);
      ColumnsOneMore(fields[..n], fields[n], false);
      ColumnsOneMore(fields[..n], fields[n], true);
    }
  }

  lemma ApartOneMore(fields: seq<Field>, f: Field)
    ensures Apart(fields + [f]) <==> Apart(fields) && !(f.policy && Column(f) in Columns(fields, !f.Scalar()))
  {
    if Apart(fields + [f]) {
      forall g, h | g in fields && h in fields && g.policy && h.policy && Column(g) == Column(h)
        ensures g.Scalar() == h.Scalar()
      {
        assert g in fields + [f] && h in fields + [f];
      }
      forall g | f.policy && g in fields && g.policy && g.Scalar() == !f.Scalar() ensures Column(f) != Column(g) {
        assert g in fields + [f] && f in fields + [f];
      }
    } else if Apart(fields) {
      var g, h :| g in fields + [f] && h in fields + [f] && g.policy && h.policy && Column(g) == Column(h)
        && g.Scalar() != h.Scalar();
      assert g == f || h == f;
      assert (if g == f then h else g) in fields;
    }
  }

  lemma ApartPrefix(fields: seq<Field>, n: nat)
    requires n <= |fields| && !Apart(fields[..n])
    ensures !Apart(fields)
  {
    var f, g :| f in fields[..n] && g in fields[..n] && f.policy && g.policy && Column(f) == Column(g)
      && f.Scalar() != g.Scalar();
    assert f in fields && g in fields;
  }

  // ---- references -----------------------------------------------------------------------------------

  datatype Reference = NotField | Found(f: Field) | Faulty(why: Complaint)

  function KeyOf(column: string, key: string): string {
    Field(column, key, Unset, false, false).Key()
  }

  function FieldRef(n: Cel, env: Env): Reference {
    match n
    case Ident(name) =>
      if name in env.maps then Faulty(MapColumn(name))
      else if name !in env.scalars || KeyOf("", name) !in env.fields then NotField
      else Found(env.fields[KeyOf("", name)])
    case Index(Ident(column), key) =>
      if column !in env.maps then NotField
      else if !key.Const? || !key.v.Str? then Faulty(BadKey)
      else if KeyOf(column, key.v.s) !in env.fields then Faulty(NotReferable(column, key.v.s))
      else Found(env.fields[KeyOf(column, key.v.s)])
    case _ => NotField
  }

  // ---- values ----------------------------------------------------------------------------------------

  const NO_FIELD := Field("", "", Unset, false, false)
  const NO_VALUE := Value(SqlSyntax.Null, "")

  function Node(op: Op, children: seq<Expr>): Expr {
    Expr(op, NO_FIELD, NO_VALUE, [], children)
  }

  /** Whether a literal is of a type is decided by validating a comparison with it. */
  function Probe(v: Datum, want: LogicalType): Expr {
    Expr(Equal, Field("", "value", want, false, false), Value(v, ""), [], [])
  }

  function ConvertValue(n: Cel, want: LogicalType, env: Env): Result<Value, Complaint> {
    if n.Select? && n.operand == Ident(USER) then
      if n.field !in env.userAttrs then Err(UnknownAttribute(n.field))
      else if want != TString then Err(AttributeNotString)
      else Ok(Value(SqlSyntax.Null, n.field))
    else if !n.Const? then Err(NotAValue)
    else if !n.v.Str? && !n.v.Bool? && !n.v.Num? then Err(UnsupportedLiteral)
    else if !Valid(Probe(n.v, want), FilterProfile) then Err(WrongType(want))
    else Ok(Value(n.v, ""))
  }

  function ConvertValues(ns: seq<Cel>, want: LogicalType, env: Env): Result<seq<Value>, Complaint> {
    if ns == [] then Ok([])
    else
      var v :- ConvertValue(ns[0], want, env);
      var rest :- ConvertValues(ns[1..], want, env);
      Ok([v] + rest)
  }

  function ConvertList(n: Cel, want: LogicalType, env: Env): Result<seq<Value>, Complaint> {
    if !n.ListOf? then Err(ExpectedList) else ConvertValues(n.elems, want, env)
  }

  // ---- predicates -------------------------------------------------------------------------------------

  function OpOf(op: SqlSyntax.Cmp): Op {
    match op
    case Eq => Equal case Ne => NotEqual case Gt => Greater case Ge => GreaterEq case Lt => Less case Le => LessEq
  }

  /** The comparison that says the same with its sides exchanged. */
  function Mirror(op: Op): Op {
    match op
    case Greater => Less case GreaterEq => LessEq case Less => Greater case LessEq => GreaterEq
    case _ => op
  }

  /** Suggests brackets for the first side written as column.key. */
  function BracketHint(l: Cel, r: Cel, env: Env): Complaint {
    if l.Select? && l.operand.Ident? && l.operand.name in env.maps then WriteBrackets(l.operand.name, l.field)
    else if r.Select? && r.operand.Ident? && r.operand.name in env.maps then WriteBrackets(r.operand.name, r.field)
    else NotAField
  }

  function ConvertComparison(op: SqlSyntax.Cmp, l: Cel, r: Cel, env: Env): Result<Expr, Complaint> {
    match FieldRef(l, env)
    case Faulty(why) => Err(why)
    case Found(f) =>
      var v :- ConvertValue(r, f.Type(), env);
      Ok(Expr(OpOf(op), f, v, [], []))
    case NotField =>
      match FieldRef(r, env)
      case Faulty(why) => Err(why)
      case Found(f) =>
        var v :- ConvertValue(l, f.Type(), env);
        Ok(Expr(Mirror(OpOf(op)), f, v, [], []))
      case NotField => Err(BracketHint(l, r, env))
  }

  function ConvertMembership(l: Cel, r: Cel, env: Env): Result<Expr, Complaint> {
    match FieldRef(l, env)
    case Faulty(why) => Err(why)
    case Found(f) =>
      if f.Type() != TString then Err(LeftNotString) else
      var vs :- ConvertList(r, TString, env);
      Ok(Expr(Op.In, f, NO_VALUE, vs, []))
    case NotField =>
      match FieldRef(r, env)
      case Faulty(why) => Err(why)
      case NotField => Err(NotMembership)
      case Found(f) =>
        if f.Type() != TStringArray then Err(NotMembership) else
        var v :- ConvertValue(l, TString, env);
        Ok(Expr(Op.In, f, v, [], []))
  }

  function ConvertMember(fn: Function, target: Cel, args: seq<Cel>, env: Env): Result<Expr, Complaint> {
    match FieldRef(target, env)
    case Faulty(why) => Err(why)
    case NotField => Err(NotAField)
    case Found(f) =>
      match fn
      case StartsWithFn =>
        if |args| != 1 then Err(WrongArity(fn)) else
        var v :- ConvertValue(args[0], TString, env);
        Ok(Expr(Op.StartsWith, f, v, [], []))
      case BetweenFn =>
        if |args| != 2 then Err(WrongArity(fn)) else
        var vs :- ConvertValues(args, TNumber, env);
        Ok(Expr(Op.Between, f, NO_VALUE, vs, []))
      case _ =>
        if |args| != 1 then Err(WrongArity(fn)) else
        var vs :- ConvertList(args[0], TString, env);
        Ok(Expr(if fn.HasAnyFn? then Op.HasAny else Op.HasAll, f, NO_VALUE, vs, []))
  }

  function ConvertExists(args: seq<Cel>, env: Env): Result<Expr, Complaint> {
    if |args| != 1 then Err(WrongArity(ExistsFn)) else
    match FieldRef(args[0], env)
    case Faulty(why) => Err(why)
    case NotField => Err(NotAField)
    case Found(f) => Ok(Expr(Exists, f, NO_VALUE, [], []))
  }

  function Convert(n: Cel, env: Env): Result<Expr, Complaint>
    decreases n, 1
  {
    match n
    case Const(Bool(b)) => Ok(Node(if b then Always else Never, []))
    case Const(_) => Err(BareLiteral)
    case Ident(name) => Err(BareIdentifier(name))
    case Select(_, _) => Err(DotAccess)
    case Comprehension => Err(Macro)
    case Junction(disj, args) =>
      var children :- ConvertAll(args, env);
      Ok(Node(if disj then AnyOf else AllOf, children))
    case Complement(x) =>
      var child :- Convert(x, env);
      Ok(Node(Negation, [child]))
    case Relation(op, l, r) => ConvertComparison(op, l, r, env)
    case Membership(l, r) => ConvertMembership(l, r, env)
    case Index(_, _) => Err(BareReference)
    case Call(ExistsFn, _, args) => ConvertExists(args, env)
    case Call(OtherFn(_), _, _) => Err(Unsupported)
    case Call(fn, None, _) => Err(NotOnField(fn))
    case Call(fn, Some(target), args) => ConvertMember(fn, target, args, env)
    case _ => Err(Unsupported)
  }

  function ConvertAll(ns: seq<Cel>, env: Env): Result<seq<Expr>, Complaint>
    decreases ns, 0
  {
    if ns == [] then Ok([])
    else
      var e :- Convert(ns[0], env);
      var rest :- ConvertAll(ns[1..], env);
      Ok([e] + rest)
  }

  // ---- programs and the registry ------------------------------------------------------------------------

  datatype Program = Program(source: string, root: Expr)

  function CompilePolicy(source: string, env: Env, parse: Parser): (r: Result<Program, Complaint>)
    ensures r.Ok? ==> Valid(r.value.root, PolicyProfile)
  {
    match parse(env.vars, source)
    case None => Err(NotCel)
    case Some(n) =>
      var root :- Convert(n, env);
      if Valid(root, PolicyProfile) then Ok(Program(source, root)) else Err(NotAPolicy)
  }

  type Registry = map<string, seq<Program>>

  predicate PolicyCompiles(p: Schema.Policy, env: Env, parse: Parser) {
    CompilePolicy(p.expression, env, parse).Ok?
  }

  predicate RoleCompiles(r: Role, env: Env, parse: Parser) {
    forall p :: p in r.policies ==> PolicyCompiles(p, env, parse)
  }

  /** The programs of some policies, in order; a policy that does not compile has none. */
  function ProgramsOf(ps: seq<Schema.Policy>, env: Env, parse: Parser): seq<Program> {
    if ps == [] then []
    else
      var before := ProgramsOf(ps[..|ps| - 1], env, parse);
      match CompilePolicy(ps[|ps| - 1].expression, env, parse)
      case Ok(program) => before + [program]
      case Err(_) => before
  }

  /** The programs of the roles of one name. */
  function Granted(name: string, roles: seq<Role>, env: Env, parse: Parser): seq<Program> {
    if roles == [] then []
    else
      var r, before := roles[|roles| - 1], Granted(name, roles[..|roles| - 1], env, parse);
      if r.name == name then before + ProgramsOf(r.policies, env, parse) else before
  }

  function Programs(reg: Registry, name: string): seq<Program> {
    if name in reg then reg[name] else []
  }

  /** The registry with some more programs of one role. */
  function Added(reg: Registry, name: string, programs: seq<Program>): Registry {
    if programs == [] then reg else reg[name := Programs(reg, name) + programs]
  }

  lemma AddedOneMore(reg: Registry, name: string, programs: seq<Program>, p: Program)
    ensures Added(reg, name, programs + [p])
      == Added(reg, name, programs)[name := Programs(Added(reg, name, programs), name) + [p]]
  {
    assert Programs(reg, name) + [] == Programs(reg, name);
    assert (Programs(reg, name) + programs) + [p] == Programs(reg, name) + (programs + [p]);
  }

  /** The role has a policy of that title that does not compile. */
  predicate Fails(e: (string, string), role: Role, env: Env, parse: Parser) {
    e.0 == role.name && exists p :: p in role.policies && p.title == e.1 && !PolicyCompiles(p, env, parse)
  }

  /** Accepts exactly the roles all of whose policies compile, and then holds, for every name, its programs; otherwise
      tells which policies do not. */
  method BuildRegistry(env: Env, roles: seq<Role>, parse: Parser) returns (r: Result<Registry, seq<(string, string)>>)
    ensures r.Ok? <==> forall role :: role in roles ==> RoleCompiles(role, env, parse)
    ensures r.Ok? ==> forall name :: Programs(r.value, name) == Granted(name, roles, env, parse)
    ensures r.Err? ==> forall e :: e in r.error <==> exists role :: role in roles && Fails(e, role, env, parse)
  {
    var reg: Registry := map[];
    var errs: seq<(string, string)> := [];
    for i := 0 to |roles|
      invariant errs == [] <==> forall role :: role in roles[..i] ==> RoleCompiles(role, env, parse)
      invariant forall name :: Programs(reg, name) == Granted(name, roles[..i], env, parse)
      invariant forall e :: e in errs <==> exists role :: role in roles[..i] && Fails(e, role, env, parse)
    {
      hide Fails;
      assert roles[..i + 1] == roles[..i] + [roles[i]] && roles[..i + 1][..i] == roles[..i];
      reg, errs := AddRole(env, roles[i], parse, reg, errs);
    }
    assert roles[..|roles|] == roles;
    if errs != [] { return Err(errs); }
    return Ok(reg);
  }

  /** Adds the programs of one role and collects the policies that do not compile. */
  method AddRole(env: Env, role: Role, parse: Parser, before: Registry, failed: seq<(string, string)>)
    returns (reg: Registry, errs: seq<(string, string)>)
    ensures errs == [] <==> failed == [] && RoleCompiles(role, env, parse)
    ensures forall e :: e in errs <==> e in failed || Fails(e, role, env, parse)
    ensures reg == Added(before, role.name, ProgramsOf(role.policies, env, parse))
  {
    hide CompilePolicy, Programs;
    reg, errs := before, failed;
    for j := 0 to |role.policies|
      invariant errs == [] <==> failed == [] && forall p :: p in role.policies[..j] ==> PolicyCompiles(p, env, parse)
      invariant reg == Added(before, role.name, ProgramsOf(role.policies[..j], env, parse))
      invariant forall e :: e in errs <==> e in failed || Fails(e, Role(role.name, role.policies[..j]), env, parse)
    {
      var p := role.policies[j];
      assert role.policies[..j + 1] == role.policies[..j] + [p] && role.policies[..j + 1][..j] == role.policies[..j];
      assert p in role.policies[..j + 1];
      match CompilePolicy(p.expression, env, parse) {
        case Err(_) =>
          assert !PolicyCompiles(p, env, parse);
          errs := errs + [(role.name, p.title)];
        case Ok(program) =>
          assert PolicyCompiles(p, env, parse);
          AddedOneMore(before, role.name, ProgramsOf(role.policies[..j], env, parse), program);
          reg := reg[role.name := Programs(reg, role.name) + [program]];
      }
    }
    assert role.policies[..|role.policies|] == role.policies;
  }
}
