/** A stored access model turned into a usable snapshot, and why neither the order of its rows nor further
    attribute keys can break it. */
module AccessModel {
  import opened Basics
  import opened Schema
  import SqlSyntax
  import opened SqlSemantics
  import opened Expression
  import opened ExpressionMeaning
  import opened Policy
  import opened PolicyMeaning

  datatype Snapshot = Snapshot(schema: Model, env: Env, registry: Registry, admin: Program)

  datatype CompileError = BadEnv(e: EnvError) | BadPolicies(errs: seq<(string, string)>) | BadAdmin(why: Complaint)

  predicate RolesCompile(roles: seq<Role>, env: Env, parse: Parser) {
    forall role :: role in roles ==> RoleCompiles(role, env, parse)
  }

  predicate Compiles(m: Model, parse: Parser) {
    && Acceptable(m.fields)
    && var env := EnvFrom(m.fields, m.userAttrs);
      RolesCompile(m.roles, env, parse) && CompilePolicy("true", env, parse).Ok?
  }

  ghost predicate Reflects(s: Snapshot, m: Model, parse: Parser) {
    && s.schema == m
    && s.env == EnvFrom(m.fields, m.userAttrs)
    && (forall name :: Programs(s.registry, name) == Granted(name, m.roles, s.env, parse))
    && CompilePolicy("true", s.env, parse) == Ok(s.admin)
  }

  /** The parser reads true as the literal, whatever is declared. */
  ghost predicate ReadsTrue(parse: Parser) {
    forall vars :: parse(vars, "true") == Some(Const(SqlSyntax.Bool(true)))
  }

  method Compile(m: Model, parse: Parser) returns (r: Result<Snapshot, CompileError>)
    ensures r.Ok? <==> Compiles(m, parse)
    ensures r.Ok? ==> Reflects(r.value, m, parse) && Coherent(r.value.env)
  {
    hide Coherent, CompilePolicy, EnvFrom;
    var env := NewEnv(m);
    if env.Err? { return Err(BadEnv(env.error)); }
    var reg := BuildRegistry(env.value, m.roles, parse);
    if reg.Err? { return Err(BadPolicies(reg.error)); }
    var admin := CompilePolicy("true", env.value, parse);
    if admin.Err? { return Err(BadAdmin(admin.error)); }
    EnvCoherent(m.fields, m.userAttrs);
    return Ok(Snapshot(m, env.value, reg.value, admin.value));
  }

  /** A snapshot can serve queries only once the source has been bound. */
  predicate Ready(s: Snapshot) {
    s.schema.binding.table != "" && s.schema.binding.Valid()
  }

  // ---- what an environment holds ----------------------------------------------------------------------

  /** No two fields a policy may mention share a key. */
  predicate KeysDistinct(fields: seq<Field>) {
    forall f, g :: f in fields && g in fields && f.policy && g.policy && f.Key() == g.Key() ==> f == g
  }

  lemma {:induction false} FieldMapIs(fields: seq<Field>)
    ensures forall k :: k in FieldMap(fields) ==>
      FieldMap(fields)[k] in fields && FieldMap(fields)[k].policy && FieldMap(fields)[k].Key() == k
    ensures forall f :: f in fields && f.policy ==> f.Key() in FieldMap(fields)
  {
    if fields != [] {
      var n := |fields| - 1;
      assert fields == fields[..n] + [fields[n]];
      FieldMapIs(fields[..n]);
    }
  }

  lemma {:induction false} VarsAre(fields: seq<Field>)
    ensures forall x :: x in Vars(fields) ==>
      exists f :: f in fields && f.policy && Column(f) == x && VarTypeOf(f) == Vars(fields)[x]
    ensures forall f :: f in fields && f.policy ==> Column(f) in Vars(fields)
  {
    if fields != [] {
      var n := |fields| - 1;
      var f := fields[n];
      assert fields == fields[..n] + [f];
      VarsAre(fields[..n]);
      forall x | x in Vars(fields)
        ensures exists g :: g in fields && g.policy && Column(g) == x && VarTypeOf(g) == Vars(fields)[x]
      {
        if x in Vars(fields[..n]) {
          var g :| g in fields[..n] && g.policy && Column(g) == x && VarTypeOf(g) == Vars(fields[..n])[x];
          assert g in fields;
        } else {
          assert f in fields && f.policy && Column(f) == x;
        }
      }
    }
  }

  lemma EnvCoherent(fields: seq<Field>, userAttrs: seq<string>)
    requires Acceptable(fields)
    ensures Coherent(EnvFrom(fields, userAttrs))
  {
    hide Field.Key, ValidIdent;
    var env := EnvFrom(fields, userAttrs);
    FieldMapIs(fields);
    forall k | k in env.fields
      ensures Column(env.fields[k]) in (if env.fields[k].Scalar() then env.scalars else env.maps)
    {
      assert env.fields[k] in fields;
    }
    forall x | x in env.scalars ensures KeyOf("", x) in env.fields && x != USER {
      ScalarHasKey(fields, x);
    }
    forall x | x in env.maps ensures ValidIdent(x) && x != USER && x !in env.scalars {
      var f :| f in fields && f.policy && f.Scalar() == false && x == Column(f);
      assert FieldAccepted(f);
    }
  }

  lemma ScalarHasKey(fields: seq<Field>, x: string)
    requires Acceptable(fields) && x in Columns(fields, true)
    ensures KeyOf("", x) in FieldMap(fields) && x != USER
  {
    FieldMapIs(fields);
    var f :| f in fields && f.policy && f.Scalar() == true && x == Column(f);
    assert FieldAccepted(f) && f.Key() == KeyOf("", x);
  }

  // ---- the order of rows does not matter ------------------------------------------------------------------

  predicate SameElements<D(==)>(s: seq<D>, t: seq<D>) {
    (forall x :: x in s ==> x in t) && (forall x :: x in t ==> x in s)
  }

  /** The same model but for the order of its rows, for how policies are spread over roles, and for its
      version. */
  predicate SameRows(m: Model, n: Model) {
    && m.binding == n.binding && SameElements(m.fields, n.fields) && SameElements(m.userAttrs, n.userAttrs)
    && (forall r, p :: r in m.roles && p in r.policies ==> Carries(n.roles, p))
    && (forall r, p :: r in n.roles && p in r.policies ==> Carries(m.roles, p))
  }

  predicate Carries(roles: seq<Role>, p: Schema.Policy) {
    exists r :: r in roles && p in r.policies
  }

  lemma FieldMapOrder(fs: seq<Field>, gs: seq<Field>)
    requires SameElements(fs, gs) && KeysDistinct(fs)
    ensures FieldMap(fs) == FieldMap(gs)
  {
    FieldMapIs(fs);
    FieldMapIs(gs);
  }

  lemma VarsOrder(fs: seq<Field>, gs: seq<Field>)
    requires SameElements(fs, gs) && KeysDistinct(fs) && Apart(fs)
    ensures Vars(fs) == Vars(gs)
  {
    VarsAre(fs);
    VarsAre(gs);
    forall x | x in Vars(fs) ensures x in Vars(gs) && Vars(fs)[x] == Vars(gs)[x] {
      var f :| f in fs && f.policy && Column(f) == x && VarTypeOf(f) == Vars(fs)[x];
      assert f in gs;
      var g :| g in gs && g.policy && Column(g) == x && VarTypeOf(g) == Vars(gs)[x];
      assert g in fs;
      OneTypePerColumn(fs, f, g);
    }
    forall x | x in Vars(gs) ensures x in Vars(fs) {
      var g :| g in gs && g.policy && Column(g) == x && VarTypeOf(g) == Vars(gs)[x];
      assert g in fs;
    }
  }

  lemma OneTypePerColumn(fields: seq<Field>, f: Field, g: Field)
    requires KeysDistinct(fields) && Apart(fields) && f in fields && g in fields && f.policy && g.policy
    requires Column(f) == Column(g)
    ensures VarTypeOf(f) == VarTypeOf(g)
  {
    assert f.Scalar() == g.Scalar();
    if f.Scalar() { assert f.Key() == g.Key(); }
  }

  lemma ColumnsOrder(fs: seq<Field>, gs: seq<Field>, scalar: bool)
    requires SameElements(fs, gs)
    ensures Columns(fs, scalar) == Columns(gs, scalar)
  {
    forall x | x in Columns(fs, scalar) ensures x in Columns(gs, scalar) {
      var f :| f in fs && f.policy && f.Scalar() == scalar && x == Column(f);
      assert f in gs;
    }
    forall x | x in Columns(gs, scalar) ensures x in Columns(fs, scalar) {
      var f :| f in gs && f.policy && f.Scalar() == scalar && x == Column(f);
      assert f in fs;
    }
  }

  lemma AcceptableOrder(fs: seq<Field>, gs: seq<Field>)
    requires SameElements(fs, gs) && Acceptable(fs)
    ensures Acceptable(gs)
  {
    forall f, g | f in gs && g in gs && f.policy && g.policy && Column(f) == Column(g)
      ensures f.Scalar() == g.Scalar()
    {
      assert f in fs && g in fs;
    }
    forall f | f in gs ensures FieldAccepted(f) { assert f in fs; }
  }

  lemma EnvOrder(m: Model, n: Model)
    requires SameRows(m, n) && KeysDistinct(m.fields) && Acceptable(m.fields)
    ensures EnvFrom(m.fields, m.userAttrs) == EnvFrom(n.fields, n.userAttrs)
  {
    FieldMapOrder(m.fields, n.fields);
    VarsOrder(m.fields, n.fields);
    ColumnsOrder(m.fields, n.fields, true);
    ColumnsOrder(m.fields, n.fields, false);
    assert (set a | a in m.userAttrs) == (set a | a in n.userAttrs);
  }

  /** A model whose rows come in another order compiles as well. */
  lemma CompilesInAnyOrder(m: Model, n: Model, parse: Parser)
    requires SameRows(m, n) && KeysDistinct(m.fields) && Compiles(m, parse)
    ensures Compiles(n, parse) && EnvFrom(n.fields, n.userAttrs) == EnvFrom(m.fields, m.userAttrs)
  {
    EnvOrder(m, n);
    AcceptableOrder(m.fields, n.fields);
    var env := EnvFrom(m.fields, m.userAttrs);
    forall role | role in n.roles ensures RoleCompiles(role, env, parse) {
      forall p | p in role.policies ensures PolicyCompiles(p, env, parse) {
        assert Carries(m.roles, p);
        var r :| r in m.roles && p in r.policies;
        assert RoleCompiles(r, env, parse);
      }
    }
  }

  // ---- more attribute keys do no harm ---------------------------------------------------------------------

  lemma PolicyStaysCompiled(source: string, env: Env, more: Env, parse: Parser)
    requires Grown(more, env) && CompilePolicy(source, env, parse).Ok?
    ensures CompilePolicy(source, more, parse) == CompilePolicy(source, env, parse)
  {
    ConvertGrows(parse(env.vars, source).value, env, more);
  }

  /** Provisioning attribute keys keeps a compiling model compiling. */
  lemma CompilesWithMoreAttrs(m: Model, userAttrs: seq<string>, parse: Parser)
    requires Compiles(m, parse) && forall a :: a in m.userAttrs ==> a in userAttrs
    ensures Compiles(m.(userAttrs := userAttrs), parse)
  {
    var env, more := EnvFrom(m.fields, m.userAttrs), EnvFrom(m.fields, userAttrs);
    assert Grown(more, env);
    PolicyStaysCompiled("true", env, more, parse);
    forall role | role in m.roles ensures RoleCompiles(role, more, parse) {
      assert RoleCompiles(role, env, parse);
      forall p | p in role.policies ensures PolicyCompiles(p, more, parse) {
        assert PolicyCompiles(p, env, parse);
        PolicyStaysCompiled(p.expression, env, more, parse);
      }
    }
  }

  // ---- what a compiled policy says --------------------------------------------------------------------------

  /** A compiled policy was parsed from its text; on every span, for every caller, its predicate says what
      CEL says about the text, and it names only declared fields and attributes. */
  lemma ProgramMeaning(source: string, env: Env, parse: Parser, row: Row, attrs: map<string, string>, conv: Conv)
    requires Coherent(env) && EnvFits(env, row) && CompilePolicy(source, env, parse).Ok?
    ensures var root := CompilePolicy(source, env, parse).value.root;
      && parse(env.vars, source).Some?
      && Within(root, env) && RowFits(root, row)
      && Meaning(root, row, attrs, conv)
           == VerdictOf(CelEval(parse(env.vars, source).value, Bind(env, row, attrs, conv)))
  {
    var n := parse(env.vars, source).value;
    var root := Policy.Convert(n, env).value;
    PolicyIsFilter(root, false, attrs);
    ConvertMeaning(n, env, row, attrs, conv);
    ConvertWithin(n, env);
  }
}
