/** Every interleaving of model writers, attribute provisioning and admin bootstrap: the stored model always
    compiles, a committed change is the proposal that was validated, and the version identifies the model. */
module ModelRuns {
  import opened Basics
  import opened Schema
  import opened SqlRows
  import opened Policy
  import opened PolicyMeaning
  import opened AccessModel
  import opened Store

  // ---- readings of the same rows -------------------------------------------------------------------------

  ghost predicate Usable(c: Content, parse: Parser) {
    exists m :: Reads(m, c) && Compiles(m, parse)
  }

  lemma ReadingsDistinct(m: Model, c: Content)
    requires Reads(m, c) && Acceptable(m.fields)
    ensures KeysDistinct(m.fields)
  {
    forall f, g | f in m.fields && g in m.fields && f.policy && g.policy && f.Key() == g.Key() ensures f == g {
      assert FieldAccepted(f) && FieldAccepted(g);
      KeyIdentifies(f, g);
      assert HasField(c, f) && HasField(c, g);
    }
  }

  lemma RowsCarry(m: Model, n: Model, c: Content, r: Role, p: Schema.Policy)
    requires Reads(m, c) && Reads(n, c) && r in m.roles && p in r.policies
    ensures Carries(n.roles, p)
  {
    assert HasPolicy(c, r.name, p);
    var s :| s in n.roles && s.name == r.name;
    assert p in s.policies;
  }

  lemma ReadingsAgree(m: Model, n: Model, c: Content)
    requires Reads(m, c) && Reads(n, c)
    ensures SameRows(m, n)
  {
    forall f ensures f in m.fields <==> f in n.fields { assert f in m.fields <==> HasField(c, f); }
    forall a ensures a in m.userAttrs <==> a in n.userAttrs {}
    forall r, p | r in m.roles && p in r.policies ensures Carries(n.roles, p) { RowsCarry(m, n, c, r, p); }
    forall r, p | r in n.roles && p in r.policies ensures Carries(m.roles, p) { RowsCarry(n, m, c, r, p); }
  }

  /** If one reading of some rows compiles, every reading does. */
  lemma EveryReadingCompiles(m: Model, c: Content, parse: Parser)
    requires Usable(c, parse) && Reads(m, c)
    ensures Compiles(m, parse)
  {
    hide Reads, SameRows;
    var n :| Reads(n, c) && Compiles(n, parse);
    ReadingsDistinct(n, c);
    ReadingsAgree(n, m, c);
    CompilesInAnyOrder(n, m, parse);
  }

  // ---- proposals -------------------------------------------------------------------------------------------

  /** The roles with one of them replaced, or added at the end. */
  function Replaced(roles: seq<Role>, role: Role): seq<Role> {
    if exists r :: r in roles && r.name == role.name
    then Map((r: Role) => if r.name == role.name then role else r, roles)
    else roles + [role]
  }

  method ReplaceInPlace(roles: seq<Role>, role: Role) returns (next: seq<Role>)
    ensures next == Replaced(roles, role)
  {
    next := roles;
    var replaced := false;
    for i := 0 to |next|
      invariant |next| == |roles|
      invariant replaced <==> exists k :: 0 <= k < i && roles[k].name == role.name
      invariant forall k :: 0 <= k < |next| ==>
        next[k] == if k < i && roles[k].name == role.name then role else roles[k]
    {
      if next[i].name == role.name {
        next := next[i := role];
        replaced := true;
      }
    }
    if replaced {
      assert exists r :: r in roles && r.name == role.name;
      assert next == Map((r: Role) => if r.name == role.name then role else r, roles);
    } else {
      forall r | r in roles ensures r.name != role.name {
        var k :| 0 <= k < |roles| && roles[k] == r;
      }
      assert next == roles;
      next := next + [role];
    }
  }

  function Kept(roles: seq<Role>, name: string): seq<Role> {
    SqlRows.Select((r: Role) => r.name != name, roles)
  }

  /** The model a change proposes: the one that was read, with the change made to a copy of it. */
  function Proposal(ch: Change, m: Model): Model {
    match ch
    case SetBinding(b) => m.(binding := b)
    case PutFields(fields) => m.(fields := fields)
    case PutRole(role) => m.(roles := Replaced(m.roles, role))
    case DeleteRole(name) => m.(roles := Kept(m.roles, name))
  }

  /** Every field of a proposal states its type. */
  predicate Stated(ch: Change) {
    ch.PutFields? ==> forall f :: f in ch.fields ==> !f.logical.Unset?
  }

  lemma {:induction false} FieldRowsAre(fs: seq<Field>)
    requires FieldRows(fs).Ok? && forall f :: f in fs ==> !f.logical.Unset?
    ensures NoRepeats(fs)
    ensures forall k :: k in FieldRows(fs).value <==> exists f :: f in fs && (f.map_, f.name) == k
    ensures forall f :: f in fs ==>
      (f.map_, f.name) in FieldRows(fs).value
        && FieldRows(fs).value[(f.map_, f.name)] == FieldRow(f.logical, f.filterable, f.policy)
  {
    if fs != [] {
      var n := |fs| - 1;
      assert fs == fs[..n] + [fs[n]];
      FieldRowsAre(fs[..n]);
    }
  }

  lemma {:induction false} PolicyRowsAre(ps: seq<Schema.Policy>)
    requires PolicyRows(ps).Ok?
    ensures NoRepeats(ps)
    ensures forall t :: t in PolicyRows(ps).value ==> exists p :: p in ps && p.title == t
    ensures forall p :: p in ps ==>
      p.title in PolicyRows(ps).value && PolicyRows(ps).value[p.title] == PolicyRow(p.description, p.expression)
  {
    if ps != [] {
      var n := |ps| - 1;
      assert ps == ps[..n] + [ps[n]];
      PolicyRowsAre(ps[..n]);
    }
  }

  lemma FieldsStored(fs: seq<Field>, c: Content)
    requires FieldRows(fs).Ok? && forall f :: f in fs ==> !f.logical.Unset?
    ensures NoRepeats(fs) && forall f :: f in fs <==> HasField(c.(fields := FieldRows(fs).value), f)
  {
    FieldRowsAre(fs);
    var d := c.(fields := FieldRows(fs).value);
    forall f | HasField(d, f) ensures f in fs {
      var g :| g in fs && (g.map_, g.name) == (f.map_, f.name);
      assert HasField(d, g);
    }
  }

  /** The roles of a reading, whichever they are. */
  ghost predicate ReadsRoles(roles: seq<Role>, c: Content) {
    && (forall i, j :: 0 <= i < j < |roles| ==> roles[i].name != roles[j].name)
    && (forall name :: name in c.roles <==> exists r :: r in roles && r.name == name)
    && (forall r :: r in roles ==> NoRepeats(r.policies) && forall p :: p in r.policies <==> HasPolicy(c, r.name, p))
  }

  lemma PoliciesStored(role: Role, c: Content, p: Schema.Policy)
    requires PolicyRows(role.policies).Ok?
    ensures var d := c.(roles := c.roles[role.name := PolicyRows(role.policies).value]);
      NoRepeats(role.policies) && (p in role.policies <==> HasPolicy(d, role.name, p))
  {
    PolicyRowsAre(role.policies);
    var d := c.(roles := c.roles[role.name := PolicyRows(role.policies).value]);
    if HasPolicy(d, role.name, p) {
      var q :| q in role.policies && q.title == p.title;
      assert q == p;
    }
  }

  lemma RoleStored(roles: seq<Role>, role: Role, c: Content)
    requires ReadsRoles(roles, c) && PolicyRows(role.policies).Ok?
    ensures ReadsRoles(Replaced(roles, role), c.(roles := c.roles[role.name := PolicyRows(role.policies).value]))
  {
    hide NoRepeats, Replaced, PolicyRows;
    var next := Replaced(roles, role);
    var d := c.(roles := c.roles[role.name := PolicyRows(role.policies).value]);
    forall name ensures name in d.roles <==> exists r :: r in next && r.name == name {
      NextNames(roles, role, name);
    }
    forall r | r in next ensures NoRepeats(r.policies) && forall p :: p in r.policies <==> HasPolicy(d, r.name, p) {
      NextPolicies(roles, role, c, r);
    }
    NextDistinct(roles, role);
  }

  lemma NextPolicies(roles: seq<Role>, role: Role, c: Content, r: Role)
    requires ReadsRoles(roles, c) && PolicyRows(role.policies).Ok? && r in Replaced(roles, role)
    ensures var d := c.(roles := c.roles[role.name := PolicyRows(role.policies).value]);
      NoRepeats(r.policies) && forall p :: p in r.policies <==> HasPolicy(d, r.name, p)
  {
    hide NoRepeats, Replaced;
    var d := c.(roles := c.roles[role.name := PolicyRows(role.policies).value]);
    if r == role {
      PoliciesStored(role, c, Schema.Policy("", "", ""));
      forall p ensures p in r.policies <==> HasPolicy(d, r.name, p) { PoliciesStored(role, c, p); }
    } else {
      NextOther(roles, role, r);
      forall p ensures HasPolicy(d, r.name, p) <==> HasPolicy(c, r.name, p) {}
    }
  }

  lemma NextAt(roles: seq<Role>, role: Role)
    ensures var next := Replaced(roles, role);
      |next| >= |roles| && forall i :: 0 <= i < |roles| ==>
        next[i] == (if roles[i].name == role.name then role else roles[i])
  {
    assert forall i :: 0 <= i < |roles| ==> roles[i] in roles;
  }

  lemma NextNames(roles: seq<Role>, role: Role, name: string)
    ensures (exists r :: r in Replaced(roles, role) && r.name == name)
      <==> name == role.name || exists r :: r in roles && r.name == name
  {
    var next := Replaced(roles, role);
    NextAt(roles, role);
    if r :| r in next && r.name == name {
      var i :| 0 <= i < |next| && next[i] == r;
      if i < |roles| { assert roles[i] in roles; }
    }
    if r :| r in roles && r.name == name {
      var i :| 0 <= i < |roles| && roles[i] == r;
      assert next[i] in next && next[i].name == name;
    }
    if name == role.name {
      if r :| r in roles && r.name == role.name {
      } else {
        assert next[|roles|] == role;
      }
    }
  }

  lemma NextOther(roles: seq<Role>, role: Role, r: Role)
    requires r in Replaced(roles, role) && r != role
    ensures r in roles && r.name != role.name
  {
    var next := Replaced(roles, role);
    NextAt(roles, role);
    var i :| 0 <= i < |next| && next[i] == r;
    if i < |roles| { assert roles[i] in roles; }
  }

  lemma NextDistinct(roles: seq<Role>, role: Role)
    requires forall i, j :: 0 <= i < j < |roles| ==> roles[i].name != roles[j].name
    ensures var next := Replaced(roles, role); forall i, j :: 0 <= i < j < |next| ==> next[i].name != next[j].name
  {
    NextAt(roles, role);
    assert forall i :: 0 <= i < |roles| ==> roles[i] in roles;
  }

  lemma RolesKept(roles: seq<Role>, name: string, c: Content)
    requires ReadsRoles(roles, c)
    ensures ReadsRoles(Kept(roles, name), c.(roles := c.roles - {name}))
  {
    hide NoRepeats;
    var keep := (r: Role) => r.name != name;
    var next, d := Kept(roles, name), c.(roles := c.roles - {name});
    SelectIs(keep, roles);
    SelectDistinctNames(keep, roles);
    forall r, p | r in next ensures HasPolicy(d, r.name, p) <==> HasPolicy(c, r.name, p) {}
  }

  lemma {:induction false} SelectDistinctNames(keep: Role -> bool, roles: seq<Role>)
    requires forall i, j :: 0 <= i < j < |roles| ==> roles[i].name != roles[j].name
    ensures var next := SqlRows.Select(keep, roles); forall i, j :: 0 <= i < j < |next| ==> next[i].name != next[j].name
  {
    if roles != [] {
      SelectDistinctNames(keep, roles[1..]);
      SelectIs(keep, roles[1..]);
      var rest := SqlRows.Select(keep, roles[1..]);
      forall j | 0 <= j < |rest| ensures rest[j].name != roles[0].name {
        assert rest[j] in roles[1..];
      }
    }
  }

  /** The fields and keys of a reading. */
  ghost predicate ReadsFields(fields: seq<Field>, c: Content) {
    NoRepeats(fields) && forall f :: f in fields <==> HasField(c, f)
  }

  lemma Unchanged(fields: seq<Field>, roles: seq<Role>, c: Content, d: Content)
    ensures ReadsFields(fields, c) && d.fields == c.fields ==> ReadsFields(fields, d)
    ensures ReadsRoles(roles, c) && d.roles == c.roles ==> ReadsRoles(roles, d)
  {
    hide NoRepeats;
    if d.fields == c.fields { assert forall f :: HasField(d, f) <==> HasField(c, f); }
    if d.roles == c.roles { assert forall r, p :: HasPolicy(d, r, p) <==> HasPolicy(c, r, p); }
  }

  /** What is stored after a change is a reading of the proposal: nothing more, nothing less, but for the order
      of rows. */
  lemma ProposalStored(ch: Change, m: Model, c: Content)
    requires Reads(m, c) && Applied(ch, c).Ok? && Stated(ch)
    ensures Reads(Proposal(ch, m), Applied(ch, c).value)
  {
    hide NoRepeats, HasField, HasPolicy, Replaced, Kept, PolicyRows, FieldRows;
    assert ReadsFields(m.fields, c) && ReadsRoles(m.roles, c);
    var n, d := Proposal(ch, m), Applied(ch, c).value;
    Unchanged(m.fields, m.roles, c, d);
    match ch {
      case SetBinding(_) =>
      case PutFields(fields) => FieldsStored(fields, c);
      case PutRole(role) => RoleStored(m.roles, role, c);
      case DeleteRole(name) => RolesKept(m.roles, name, c);
    }
    assert ReadsFields(n.fields, d) && ReadsRoles(n.roles, d);
  }

  // ---- what keeps a model usable ----------------------------------------------------------------------------

  /** Removing a role takes nothing that other policies need. */
  lemma RemovalCompiles(m: Model, name: string, parse: Parser)
    requires Compiles(m, parse)
    ensures Compiles(Proposal(DeleteRole(name), m), parse)
  {
    SelectIs((r: Role) => r.name != name, m.roles);
  }

  lemma KeysStored(m: Model, keys: seq<string>, c: Content)
    requires Reads(m, c) && NoRepeats(keys)
    ensures Reads(m.(userAttrs := keys), c.(keys := set a | a in keys))
  {
    hide NoRepeats;
    var d := c.(keys := set a | a in keys);
    assert forall f :: HasField(d, f) <==> HasField(c, f);
    assert forall r, p :: HasPolicy(d, r, p) <==> HasPolicy(c, r, p);
  }

  lemma {:induction false} Listed(s: set<string>) returns (keys: seq<string>)
    ensures NoRepeats(keys) && (set a | a in keys) == s
  {
    if s == {} {
      keys := [];
    } else {
      var a :| a in s;
      var rest := Listed(s - {a});
      keys := [a] + rest;
      assert a !in rest;
      assert forall x :: x in keys <==> x == a || x in s - {a};
    }
  }

  /** Provisioning keys keeps the model usable. */
  lemma KeysUsable(c: Content, more: set<string>, parse: Parser)
    requires Usable(c, parse)
    ensures Usable(c.(keys := c.keys + more), parse)
  {
    hide Reads, Compiles;
    var m :| Reads(m, c) && Compiles(m, parse);
    var keys := Listed(c.keys + more);
    KeysStored(m, keys, c);
    AttrsRead(m, c);
    CompilesWithMoreAttrs(m, keys, parse);
    assert Reads(m.(userAttrs := keys), c.(keys := c.keys + more));
  }

  lemma AttrsRead(m: Model, c: Content)
    requires Reads(m, c)
    ensures forall a :: a in m.userAttrs <==> a in c.keys
  {
  }

  /** The admin role in a model. */
  ghost predicate ReadsAdmin(m: Model, n: Model) {
    && n == m.(roles := n.roles)
    && forall r, p :: r in n.roles && p in r.policies ==> Carries(m.roles, p) || p.expression == "true"
  }

  lemma AdminCompiles(m: Model, n: Model, parse: Parser)
    requires Compiles(m, parse) && ReadsAdmin(m, n)
    ensures Compiles(n, parse)
  {
    hide Acceptable, CompilePolicy;
    var env := EnvFrom(m.fields, m.userAttrs);
    forall role | role in n.roles ensures RoleCompiles(role, env, parse) {
      forall p | p in role.policies ensures PolicyCompiles(p, env, parse) {
        if Carries(m.roles, p) {
          var r :| r in m.roles && p in r.policies;
          assert RoleCompiles(r, env, parse);
        }
      }
    }
  }

  /** The policies of the admin role after bootstrap, as a list. */
  lemma AdminRole(m: Model, c: Content) returns (role: Role)
    requires Reads(m, c)
    ensures role.name == ADMIN && PolicyRows(role.policies) == Ok(WithAdmin(c).roles[ADMIN])
    ensures forall p :: p in role.policies ==> Carries(m.roles, p) || p.expression == "true"
  {
    var policies: seq<Schema.Policy> := [];
    if ADMIN in c.roles {
      var r :| r in m.roles && r.name == ADMIN;
      policies := r.policies;
      assert forall p :: p in policies ==> Carries(m.roles, p);
      forall p ensures p in policies <==> HasPolicy(c, ADMIN, p) {}
      policies := Bypassed(policies, c);
    } else {
      policies := [Schema.Policy(BYPASS, "sees every row", "true")];
      assert policies[..0] == [];
      assert PolicyRows(policies) == Ok(map[BYPASS := PolicyRow("sees every row", "true")]);
    }
    role := Role(ADMIN, policies);
  }

  /** Some policies of the admin role with the bypass set to true. */
  lemma Bypassed(ps: seq<Schema.Policy>, c: Content) returns (next: seq<Schema.Policy>)
    requires ADMIN in c.roles && NoRepeats(ps) && forall p :: p in ps <==> HasPolicy(c, ADMIN, p)
    ensures PolicyRows(next) == Ok(WithAdmin(c).roles[ADMIN])
    ensures forall p :: p in next ==> p in ps || p.expression == "true"
  {
    var others := SqlRows.Select((p: Schema.Policy) => p.title != BYPASS, ps);
    SelectIs((p: Schema.Policy) => p.title != BYPASS, ps);
    SelectNoRepeats((p: Schema.Policy) => p.title != BYPASS, ps);
    var rows := c.roles[ADMIN];
    var description := if BYPASS in rows then rows[BYPASS].description else "sees every row";
    next := others + [Schema.Policy(BYPASS, description, "true")];
    forall p
      ensures p in others <==>
        p.title in (rows - {BYPASS}) && (rows - {BYPASS})[p.title] == PolicyRow(p.description, p.expression)
    {
      assert p in ps <==> HasPolicy(c, ADMIN, p);
    }
    RowsOf(others, rows - {BYPASS});
    assert next[..|others|] == others;
    assert (rows - {BYPASS})[BYPASS := PolicyRow(description, "true")]
      == rows[BYPASS := PolicyRow(description, "true")];
  }

  lemma RowsListed(ps: seq<Schema.Policy>, rows: map<string, PolicyRow>)
    requires forall p :: p in ps <==> p.title in rows && rows[p.title] == PolicyRow(p.description, p.expression)
    ensures rows != map[] ==> ps != []
  {
    if rows != map[] {
      var t :| t in rows;
      assert Schema.Policy(t, rows[t].description, rows[t].expression) in ps;
    }
  }

  lemma {:induction false} RowsOf(ps: seq<Schema.Policy>, rows: map<string, PolicyRow>)
    requires NoRepeats(ps)
    requires forall p :: p in ps <==> p.title in rows && rows[p.title] == PolicyRow(p.description, p.expression)
    ensures PolicyRows(ps) == Ok(rows)
    decreases |ps|
  {
    RowsListed(ps, rows);
    if ps != [] {
      var n := |ps| - 1;
      var last := ps[n];
      assert ps == ps[..n] + [last];
      RowsOf(ps[..n], rows - {last.title});
      assert rows == (rows - {last.title})[last.title := PolicyRow(last.description, last.expression)];
    }
  }

  /** Bootstrapping the admin role keeps the model usable. */
  lemma AdminUsable(c: Content, parse: Parser)
    requires Usable(c, parse)
    ensures Usable(WithAdmin(c), parse)
  {
    hide Reads, Compiles;
    var m :| Reads(m, c) && Compiles(m, parse);
    var role := AdminRole(m, c);
    var n := m.(roles := Replaced(m.roles, role));
    AdminReads(m, c, role);
    forall r, p | r in n.roles && p in r.policies ensures Carries(m.roles, p) || p.expression == "true" {
      if r != role {
        NextOther(m.roles, role, r);
      }
    }
    AdminCompiles(m, n, parse);
  }

  lemma AdminReads(m: Model, c: Content, role: Role)
    requires Reads(m, c) && role.name == ADMIN && PolicyRows(role.policies) == Ok(WithAdmin(c).roles[ADMIN])
    ensures Reads(m.(roles := Replaced(m.roles, role)), WithAdmin(c))
  {
    hide NoRepeats, Reads, ReadsRoles, WithAdmin, Replaced, PolicyRows;
    OnlyAdmin(c);
    RolesRead(m, c);
    RoleStored(m.roles, role, c);
    var rows := WithAdmin(c).roles[ADMIN];
    OtherRoles(m, c, Replaced(m.roles, role), c.roles[ADMIN := rows]);
  }

  lemma RolesRead(m: Model, c: Content)
    requires Reads(m, c)
    ensures ReadsRoles(m.roles, c)
  {
  }

  lemma OnlyAdmin(c: Content)
    ensures ADMIN in WithAdmin(c).roles && WithAdmin(c) == c.(roles := c.roles[ADMIN := WithAdmin(c).roles[ADMIN]])
  {
  }

  /** A reading with its roles exchanged is a reading of the rows with theirs exchanged. */
  lemma OtherRoles(m: Model, c: Content, roles: seq<Role>, rows: map<string, map<string, PolicyRow>>)
    requires Reads(m, c) && ReadsRoles(roles, c.(roles := rows))
    ensures Reads(m.(roles := roles), c.(roles := rows))
  {
    hide NoRepeats;
    assert forall f :: HasField(c.(roles := rows), f) <==> HasField(c, f);
  }

  // ---- one request -----------------------------------------------------------------------------------------

  datatype ApplyError = Invalid(e: CompileError) | Failed(why: StoreError)

  /** The change a request makes on the model it has read: compiled first, stored only then, and only if nothing
      has changed in between. */
  method Apply(db: Database, ch: Change, m: Model, parse: Parser) returns (r: Result<(), ApplyError>)
    modifies db
    ensures !ch.DeleteRole? && !Compiles(Proposal(ch, m), parse) <==> r.Err? && r.error.Invalid?
    ensures r.Ok? <==>
      && (ch.DeleteRole? || Compiles(Proposal(ch, m), parse))
      && Applied(ch, old(db.Rows())).Ok? && old(db.version) == m.version
    ensures r.Ok? ==> Applied(ch, old(db.Rows())) == Ok(db.Rows()) && db.version == old(db.version) + 1
    ensures r.Err? ==> db.Rows() == old(db.Rows()) && db.version == old(db.version)
  {
    hide Compiles, Reflects, Proposal;
    if !ch.DeleteRole? {
      var next := NextModel(ch, m);
      var compiled := AccessModel.Compile(next, parse);
      if compiled.Err? { return Err(Invalid(compiled.error)); }
    }
    var stored: Result<(), StoreError>;
    match ch {
      case SetBinding(b) => stored := db.ReplaceBinding(b, m.version);
      case PutFields(fields) => stored := db.ReplaceFields(fields, m.version);
      case PutRole(role) => stored := db.ReplaceRole(role, m.version);
      case DeleteRole(name) => stored := db.RemoveRole(name, m.version);
    }
    if stored.Err? { return Err(Failed(stored.error)); }
    return Ok(());
  }

  method NextModel(ch: Change, m: Model) returns (next: Model)
    requires !ch.DeleteRole?
    ensures next == Proposal(ch, m)
  {
    match ch {
      case SetBinding(b) => next := m.(binding := b);
      case PutFields(fields) => next := m.(fields := fields);
      case PutRole(role) =>
        var roles := ReplaceInPlace(m.roles, role);
        next := m.(roles := roles);
    }
  }
}
