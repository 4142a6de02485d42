/** Who sees what, said about the stored model itself: the roles a session holds, the texts of their policies and
    what CEL says about them. */
module Entitled {
  import opened Basics
  import opened Schema
  import SqlSyntax
  import opened SqlSemantics
  import opened Expression
  import opened ExpressionMeaning
  import opened Policy
  import opened PolicyMeaning
  import opened PolicyAccepts
  import opened AccessModel
  import opened SqlRows
  import opened Translate
  import opened Traces
  import opened Visibility
  import opened ListMeaning
  import opened SpansMeaning
  import opened Access
  import Reader

  // ---- the registry ------------------------------------------------------------------------------------------

  /** The policies of all roles of one name, in the order of the model. */
  function PoliciesNamed(name: string, roles: seq<Role>): seq<Schema.Policy> {
    if roles == [] then []
    else (if roles[0].name == name then roles[0].policies else []) + PoliciesNamed(name, roles[1..])
  }

  /** One program for each policy, in the same order. */
  predicate ProgramEach(programs: seq<Program>, ps: seq<Schema.Policy>, env: Env, parse: Parser) {
    && |programs| == |ps|
    && forall i :: 0 <= i < |ps| ==> CompilePolicy(ps[i].expression, env, parse) == Ok(programs[i])
  }

  lemma {:induction false} ProgramsAre(ps: seq<Schema.Policy>, env: Env, parse: Parser)
    requires forall p :: p in ps ==> PolicyCompiles(p, env, parse)
    ensures ProgramEach(ProgramsOf(ps, env, parse), ps, env, parse)
  {
    hide CompilePolicy;
    if ps != [] {
      var n := |ps| - 1;
      ProgramsAre(ps[..n], env, parse);
      assert PolicyCompiles(ps[n], env, parse);
      forall i | 0 <= i < n ensures ps[..n][i] == ps[i] {}
    }
  }

  lemma EachJoined(
    ps: seq<Program>, qs: seq<Program>, xs: seq<Schema.Policy>, ys: seq<Schema.Policy>, env: Env, parse: Parser)
    requires ProgramEach(ps, xs, env, parse) && ProgramEach(qs, ys, env, parse)
    ensures ProgramEach(ps + qs, xs + ys, env, parse)
  {
    hide CompilePolicy;
  }

  lemma {:induction false} NamedOneMore(name: string, roles: seq<Role>, role: Role)
    ensures PoliciesNamed(name, roles + [role])
      == PoliciesNamed(name, roles) + (if role.name == name then role.policies else [])
  {
    if roles == [] {
      assert PoliciesNamed(name, [role][1..]) == [];
    } else {
      assert (roles + [role])[1..] == roles[1..] + [role];
      NamedOneMore(name, roles[1..], role);
    }
  }

  lemma {:induction false} GrantedAre(name: string, roles: seq<Role>, env: Env, parse: Parser)
    requires RolesCompile(roles, env, parse)
    ensures ProgramEach(Granted(name, roles, env, parse), PoliciesNamed(name, roles), env, parse)
  {
    hide CompilePolicy, ProgramEach;
    if roles == [] {
      NoneEach(env, parse);
    } else {
      var n := |roles| - 1;
      var r := roles[n];
      assert roles == roles[..n] + [r];
      GrantedAre(name, roles[..n], env, parse);
      NamedOneMore(name, roles[..n], r);
      assert RoleCompiles(r, env, parse);
      ProgramsAre(r.policies, env, parse);
      EachJoined(Granted(name, roles[..n], env, parse), ProgramsOf(r.policies, env, parse),
        PoliciesNamed(name, roles[..n]), r.policies, env, parse);
      assert PoliciesNamed(name, roles[..n]) + [] == PoliciesNamed(name, roles[..n]);
    }
  }

  lemma NoneEach(env: Env, parse: Parser)
    ensures ProgramEach([], [], env, parse)
  {
  }

  lemma {:induction false} NamedHas(name: string, roles: seq<Role>, p: Schema.Policy)
    ensures p in PoliciesNamed(name, roles) <==> exists r :: r in roles && r.name == name && p in r.policies
  {
    if roles != [] {
      NamedHas(name, roles[1..], p);
      assert roles == [roles[0]] + roles[1..];
    }
  }

  /** A role of that name has a policy that compiles to the program. */
  ghost predicate Yields(r: Role, name: string, p: Program, env: Env, parse: Parser) {
    r.name == name && exists pol :: pol in r.policies && CompilePolicy(pol.expression, env, parse) == Ok(p)
  }

  /** The registry of a model holds, under every name, one program for each policy of the roles of that name, in
      their order; so it has a program exactly if some such policy compiles to it. */
  lemma RegistryHolds(s: Snapshot, m: Model, name: string, parse: Parser)
    requires Compiles(m, parse) && Reflects(s, m, parse)
    ensures ProgramEach(Programs(s.registry, name), PoliciesNamed(name, m.roles), s.env, parse)
    ensures forall p ::
      p in Programs(s.registry, name) <==> exists r :: r in m.roles && Yields(r, name, p, s.env, parse)
  {
    hide CompilePolicy, RolesCompile;
    GrantedAre(name, m.roles, s.env, parse);
    var programs, ps := Programs(s.registry, name), PoliciesNamed(name, m.roles);
    forall p ensures p in programs <==> exists r :: r in m.roles && Yields(r, name, p, s.env, parse) {
      if p in programs {
        var i :| 0 <= i < |programs| && programs[i] == p;
        assert ps[i] in ps;
        NamedHas(name, m.roles, ps[i]);
      }
      if r :| r in m.roles && Yields(r, name, p, s.env, parse) {
        var pol :| pol in r.policies && CompilePolicy(pol.expression, s.env, parse) == Ok(p);
        NamedHas(name, m.roles, pol);
        var i :| 0 <= i < |ps| && ps[i] == pol;
        assert programs[i] == p;
      }
    }
  }

  /** A model compiles exactly if its fields are acceptable and the text of every policy, and of the admin program,
      parses to a policy. */
  lemma CompilesExactly(m: Model, parse: Parser)
    ensures Compiles(m, parse) <==>
      && Acceptable(m.fields)
      && IsPolicyText("true", EnvFrom(m.fields, m.userAttrs), parse)
      && forall r, p :: r in m.roles && p in r.policies ==>
           IsPolicyText(p.expression, EnvFrom(m.fields, m.userAttrs), parse)
  {
    hide CompilePolicy, Coherent, EnvFrom, IsPolicyText;
    if Acceptable(m.fields) {
      var env := EnvFrom(m.fields, m.userAttrs);
      EnvCoherent(m.fields, m.userAttrs);
      forall source ensures CompilePolicy(source, env, parse).Ok? <==> IsPolicyText(source, env, parse) {
        TextAccepts(source, env, parse);
      }
      if RolesCompile(m.roles, env, parse) {
        forall r, p | r in m.roles && p in r.policies ensures IsPolicyText(p.expression, env, parse) {
          assert RoleCompiles(r, env, parse) && PolicyCompiles(p, env, parse);
        }
      }
    }
  }

  ghost predicate IsPolicyText(source: string, env: Env, parse: Parser) {
    parse(env.vars, source).Some? && IsPolicy(parse(env.vars, source).value, env)
  }

  lemma TextAccepts(source: string, env: Env, parse: Parser)
    requires Coherent(env)
    ensures CompilePolicy(source, env, parse).Ok? <==> IsPolicyText(source, env, parse)
  {
    hide CompilePolicy, IsPolicy;
    CompileAccepts(source, env, parse);
  }

  // ---- what a session may see ----------------------------------------------------------------------------------

  /** CEL says that the text is true of the span for this caller, who has every attribute the text mentions. */
  ghost predicate TextGrants(source: string, env: Env, attrs: map<string, string>, row: Row, conv: Conv, parse: Parser)
    requires Coherent(env) && EnvFits(env, row)
  {
    var n := parse(env.vars, source);
    && n.Some? && Mentioned(n.value) <= attrs.Keys
    && CelEval(n.value, Bind(env, row, attrs, conv)) == Truth(true)
  }

  /** The session holds the admin role, or some other role of the model with a policy that grants the span. */
  ghost predicate MaySee(sess: Session, m: Model, row: Row, conv: Conv, parse: Parser)
    requires Acceptable(m.fields) && EnvFits(EnvFrom(m.fields, m.userAttrs), row)
  {
    EnvCoherent(m.fields, m.userAttrs);
    || ADMIN_ROLE in sess.roles
    || exists r, p :: r in m.roles && r.name in sess.roles && r.name != ADMIN_ROLE && p in r.policies
         && TextGrants(p.expression, EnvFrom(m.fields, m.userAttrs), sess.attrs, row, conv, parse)
  }

  /** A program grants a span to a caller exactly if its text does. */
  lemma ProgramGrants(
    source: string, env: Env, attrs: map<string, string>, row: Row, conv: Conv, parse: Parser, p: Program)
    requires Coherent(env) && EnvFits(env, row) && CompilePolicy(source, env, parse) == Ok(p)
    ensures RowFits(p.root, row)
    ensures Applies(p, attrs) && Meaning(p.root, row, attrs, conv) == True <==>
      TextGrants(source, env, attrs, row, conv, parse)
  {
    hide Coherent, EnvFits, Bind, Meaning, CelEval, IsPolicy, Valid;
    ProgramMeaning(source, env, parse, row, attrs, conv);
    CompileAccepts(source, env, parse);
    ConvertMentions(parse(env.vars, source).value, env);
    var v := CelEval(parse(env.vars, source).value, Bind(env, row, attrs, conv));
    assert VerdictOf(v) == True <==> v == Truth(true);
  }

  /** The admin program applies to everyone and is true of every span. */
  lemma AdminGrants(env: Env, attrs: map<string, string>, row: Row, conv: Conv, parse: Parser, p: Program)
    requires ReadsTrue(parse) && CompilePolicy("true", env, parse) == Ok(p)
    ensures Applies(p, attrs) && RowFits(p.root, row) && Meaning(p.root, row, attrs, conv) == True
  {
    assert p.root == Node(Always, []);
  }

  /** A span is permitted to a request exactly if the session behind it may see the span: through the admin role,
      or through a policy of a role it holds that CEL says grants it. */
  lemma PermittedExactly(
    q: Request, sess: Session, s: Snapshot, m: Model, row: Row, conv: Conv, parse: Parser)
    requires Compiles(m, parse) && Reflects(s, m, parse) && ReadsTrue(parse) && Assembled(q, sess, s)
    requires EnvFits(EnvFrom(m.fields, m.userAttrs), row)
    ensures Permits(q.programs, row, q.attrs, conv) <==> MaySee(sess, m, row, conv, parse)
  {
    hide Coherent, EnvFits, EnvFrom, CompilePolicy, Meaning, Applies, TextGrants, RolesCompile, ReadsTrue, Programs,
      RowFits;
    var env, attrs := EnvFrom(m.fields, m.userAttrs), sess.attrs;
    EnvCoherent(m.fields, m.userAttrs);
    if Permits(q.programs, row, attrs, conv) {
      var p :|
        p in q.programs && Applies(p, attrs) && RowFits(p.root, row) && Meaning(p.root, row, attrs, conv) == True;
      if ADMIN_ROLE !in sess.roles {
        var role :| role in sess.roles && role != ADMIN_ROLE && p in Programs(s.registry, role);
        RegistryHolds(s, m, role, parse);
        var r :| r in m.roles && Yields(r, role, p, env, parse);
        var pol :| pol in r.policies && CompilePolicy(pol.expression, env, parse) == Ok(p);
        ProgramGrants(pol.expression, env, attrs, row, conv, parse, p);
      }
    }
    if ADMIN_ROLE in sess.roles {
      AdminGrants(env, attrs, row, conv, parse, s.admin);
      assert Access.Holds(sess, s, s.admin);
    } else if MaySee(sess, m, row, conv, parse) {
      var r, pol :| r in m.roles && r.name in sess.roles && r.name != ADMIN_ROLE && pol in r.policies
        && TextGrants(pol.expression, env, attrs, row, conv, parse);
      PolicyOfModel(m, r, pol, parse);
      var p := CompilePolicy(pol.expression, env, parse).value;
      RegistryHolds(s, m, r.name, parse);
      ProgramGrants(pol.expression, env, attrs, row, conv, parse, p);
      assert Access.Holds(sess, s, p);
    }
  }

  lemma PolicyOfModel(m: Model, r: Role, p: Schema.Policy, parse: Parser)
    requires Compiles(m, parse) && r in m.roles && p in r.policies
    ensures CompilePolicy(p.expression, EnvFrom(m.fields, m.userAttrs), parse).Ok?
  {
    hide CompilePolicy;
    assert RoleCompiles(r, EnvFrom(m.fields, m.userAttrs), parse);
    assert PolicyCompiles(p, EnvFrom(m.fields, m.userAttrs), parse);
  }

  /** A question about a span: may the session see it? */
  ghost function Sees(sess: Session, m: Model, conv: Conv, parse: Parser): Row -> bool
    requires Acceptable(m.fields)
  {
    (r: Row) => EnvFits(EnvFrom(m.fields, m.userAttrs), r) && MaySee(sess, m, r, conv, parse)
  }

  /** The table has spans, with every column the model declares. */
  predicate Described(b: Binding, m: Model, db: Db) {
    && b.Valid() && b.table in db && AllSpans(b, db[b.table]) && NoMarkers(db[b.table])
    && forall r :: r in db[b.table] ==> EnvFits(EnvFrom(m.fields, m.userAttrs), r)
  }

  lemma DescribedIsReadable(q: Request, sess: Session, s: Snapshot, m: Model, conv: Conv, db: Db, parse: Parser)
    requires Compiles(m, parse) && Reflects(s, m, parse) && ReadsTrue(parse) && Assembled(q, sess, s)
    requires Described(q.binding, m, db)
    ensures Readable(q, db)
    ensures forall r :: r in db[q.binding.table] ==> PermitsOf(q, conv)(r) == Sees(sess, m, conv, parse)(r)
  {
    hide Coherent, EnvFits, EnvFrom, CompilePolicy, MaySee, RolesCompile, ReadsTrue, Programs, RowFits, Permits,
      Binding.Valid, AllSpans, NoMarkers;
    var env := EnvFrom(m.fields, m.userAttrs);
    EnvCoherent(m.fields, m.userAttrs);
    forall r | r in db[q.binding.table]
      ensures RowFitsPrograms(q.programs, r)
      ensures PermitsOf(q, conv)(r) == Sees(sess, m, conv, parse)(r)
    {
      PermittedExactly(q, sess, s, m, r, conv, parse);
      forall p | p in q.programs ensures RowFits(p.root, r) {
        ProgramOfModel(p, sess, s, m, r, conv, parse);
      }
    }
  }

  lemma ProgramOfModel(p: Program, sess: Session, s: Snapshot, m: Model, row: Row, conv: Conv, parse: Parser)
    requires Compiles(m, parse) && Reflects(s, m, parse) && ReadsTrue(parse) && Access.Holds(sess, s, p)
    requires EnvFits(EnvFrom(m.fields, m.userAttrs), row)
    ensures RowFits(p.root, row)
  {
    hide Coherent, EnvFits, EnvFrom, CompilePolicy, RolesCompile, ReadsTrue, Programs, RowFits, TextGrants;
    var env := EnvFrom(m.fields, m.userAttrs);
    EnvCoherent(m.fields, m.userAttrs);
    if p == s.admin {
      AdminGrants(env, sess.attrs, row, conv, parse, p);
    } else {
      var role :| role in sess.roles && role != ADMIN_ROLE && p in Programs(s.registry, role);
      RegistryHolds(s, m, role, parse);
      var r :| r in m.roles && Yields(r, role, p, env, parse);
      var pol :| pol in r.policies && CompilePolicy(pol.expression, env, parse) == Ok(p);
      ProgramGrants(pol.expression, env, sess.attrs, row, conv, parse, p);
    }
  }

  /** From the stored model to the list: a page is the next page of exactly the traces that have, in the window, a
      span the session may see and one that matches the filter. */
  lemma ListShows(
    conn: Connection, conv: Conv, db: Db, q: Request, sess: Session, s: Snapshot, m: Model, parse: Parser,
    w: Window, t: Option<SqlSyntax.Ast>, matches: Row -> bool, cur: Option<Cursor>, limit: nat)
    requires Compiles(m, parse) && Reflects(s, m, parse) && ReadsTrue(parse) && Assembled(q, sess, s)
    requires Described(q.binding, m, db) && Faithful(conn, conv, db)
    requires FilterIs(t, matches, conv, db, db[q.binding.table])
    ensures var r := Reader.ListOf(conn, q, w, t, cur, limit);
      && r.Ok? && r.value == Reader.ResultOf(r.value.traces)
      && IsPage(PositionsOf(r.value.traces),
                Positions(q.binding, w, db[q.binding.table], Sees(sess, m, conv, parse), matches), cur, limit)
      && forall x :: x in r.value.traces ==> Truthful(q.binding, w, db[q.binding.table], x)
  {
    assert Acceptable(m.fields);
    hide Compiles, Reflects, ReadsTrue, Assembled, Described, Faithful, FilterIs, IsPage, Positions, Reader.ListOf,
      MaySee, EnvFits, EnvFrom, Permits, Truthful;
    DescribedIsReadable(q, sess, s, m, conv, db, parse);
    ListAnswers(conn, conv, db, q, w, t, matches, cur, limit);
    SamePositions(q.binding, w, db[q.binding.table], PermitsOf(q, conv), Sees(sess, m, conv, parse), matches, matches);
  }

  /** And to one trace: it is open exactly if the session may see some span of it. */
  lemma OpenExactly(
    q: Request, sess: Session, s: Snapshot, m: Model, conv: Conv, db: Db, parse: Parser, id: string)
    requires Compiles(m, parse) && Reflects(s, m, parse) && ReadsTrue(parse) && Assembled(q, sess, s)
    requires Described(q.binding, m, db)
    ensures Open(q.binding, db[q.binding.table], PermitsOf(q, conv), id) <==>
      exists r :: r in Whole(q.binding, db[q.binding.table], id) && Sees(sess, m, conv, parse)(r)
  {
    hide Compiles, Reflects, ReadsTrue, Assembled, MaySee, EnvFits, EnvFrom, Permits;
    DescribedIsReadable(q, sess, s, m, conv, db, parse);
    SelectIs((r: Row) => OfTrace(q.binding, id, r), db[q.binding.table]);
  }

  /** So a trace is returned whole to whoever may see some span of it, and is not found by anyone else. */
  lemma DetailShows(
    conn: Connection, conv: Conv, db: Db, q: Request, sess: Session, s: Snapshot, m: Model, parse: Parser, id: string,
    columns: Reader.Projection)
    returns (order: seq<Row>)
    requires Compiles(m, parse) && Reflects(s, m, parse) && ReadsTrue(parse) && Assembled(q, sess, s)
    requires Described(q.binding, m, db) && Faithful(conn, conv, db)
    requires Reader.Usable(columns) && HasColumns(columns, db[q.binding.table])
    ensures var r, whole := Reader.DetailOf(conn, q, id, columns), Whole(q.binding, db[q.binding.table], id);
      if exists x :: x in whole && Sees(sess, m, conv, parse)(x)
      then r == Ok(Map((x: Row) => Shown(columns, x), order)) && multiset(order) == multiset(whole)
      else r == Err(NotVisible)
    ensures forall i, j :: 0 <= i < j < |order| ==> Time(q.binding, order[i]) <= Time(q.binding, order[j])
  {
    assert Acceptable(m.fields);
    hide Compiles, Reflects, ReadsTrue, Assembled, Faithful, MaySee, EnvFits, EnvFrom, Permits, Reader.DetailOf, Open,
      Whole;
    DescribedIsReadable(q, sess, s, m, conv, db, parse);
    OpenExactly(q, sess, s, m, conv, db, parse, id);
    order := DetailAnswers(conn, conv, db, q, id, columns);
  }
}
