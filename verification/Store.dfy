/** The stored access model: its rows, how a snapshot of them is read, and the transactions that change them. */
module Store {
  import opened Basics
  import opened Schema
  import opened SqlRows
  import opened Policy
  import opened PolicyMeaning
  import opened AccessModel

  const ADMIN := "admin"
  const ADMIN_USER := "admin"
  const BYPASS := "admin bypass"
  const NO_BINDING := Binding("", "", "", "", "", "")

  datatype FieldRow = FieldRow(logical: LogicalType, filterable: bool, policy: bool)

  datatype PolicyRow = PolicyRow(description: string, expression: string)

  /** The rows of the access model, by their unique keys. */
  datatype Content = Content(
    binding: Option<Binding>, fields: map<(string, string), FieldRow>, keys: set<string>,
    roles: map<string, map<string, PolicyRow>>)

  datatype StoreError = Conflict | Protected | NotFound | Constraint | BadAttribute | Exists

  // ---- reading -----------------------------------------------------------------------------------------

  function FieldAt(c: Content, k: (string, string)): Field
    requires k in c.fields
  {
    Field(k.0, k.1, c.fields[k].logical, c.fields[k].filterable, c.fields[k].policy)
  }

  predicate HasField(c: Content, f: Field) {
    (f.map_, f.name) in c.fields && FieldAt(c, (f.map_, f.name)) == f
  }

  predicate HasPolicy(c: Content, role: string, p: Schema.Policy) {
    role in c.roles && p.title in c.roles[role] && c.roles[role][p.title] == PolicyRow(p.description, p.expression)
  }

  /** A model is a snapshot of some rows: all of them, each once, in any order. */
  ghost predicate Reads(m: Model, c: Content) {
    && m.binding == (match c.binding case None => NO_BINDING case Some(b) => b)
    && NoRepeats(m.fields) && (forall f :: f in m.fields <==> HasField(c, f))
    && NoRepeats(m.userAttrs) && (forall a :: a in m.userAttrs <==> a in c.keys)
    && (forall i, j :: 0 <= i < j < |m.roles| ==> m.roles[i].name != m.roles[j].name)
    && (forall name :: name in c.roles <==> exists r :: r in m.roles && r.name == name)
    && (forall r :: r in m.roles ==>
          NoRepeats(r.policies) && forall p :: p in r.policies <==> HasPolicy(c, r.name, p))
  }

  /** One row of the join of roles and policies; a role without policies has one row without a policy. */
  datatype RoleRow = RoleRow(name: string, policy: Option<Schema.Policy>)

  predicate Mentions(rows: seq<RoleRow>, name: string) {
    exists r :: r in rows && r.name == name
  }

  /** The policies of one role among some rows, in order. */
  function PoliciesOf(rows: seq<RoleRow>, name: string): seq<Schema.Policy> {
    if rows == [] then [] else PoliciesOf(rows[..|rows| - 1], name) + OwnPolicy(rows[|rows| - 1], name)
  }

  /** Roles by name, each with its policies among some rows. */
  ghost predicate Grouped(rows: seq<RoleRow>, roles: seq<Role>, byName: map<string, nat>) {
    && (forall name :: name in byName <==> Mentions(rows, name))
    && (forall name :: name in byName ==> byName[name] < |roles| && roles[byName[name]].name == name)
    && forall i :: 0 <= i < |roles| ==>
         roles[i].name in byName && byName[roles[i].name] == i && roles[i].policies == PoliciesOf(rows, roles[i].name)
  }

  /** Groups the rows of the join by role, in order of first appearance. */
  method GroupRoles(rows: seq<RoleRow>) returns (roles: seq<Role>)
    ensures forall i, j :: 0 <= i < j < |roles| ==> roles[i].name != roles[j].name
    ensures forall name :: Mentions(rows, name) <==> exists r :: r in roles && r.name == name
    ensures forall r :: r in roles ==> r.policies == PoliciesOf(rows, r.name)
  {
    roles := [];
    var byName: map<string, nat> := map[];
    for n := 0 to |rows|
      invariant Grouped(rows[..n], roles, byName)
    {
      hide Mentions, PoliciesOf;
      var row := rows[n];
      ghost var roles0, byName0 := roles, byName;
      if row.name !in byName {
        byName := byName[row.name := |roles|];
        roles := roles + [Role(row.name, [])];
      }
      var i := byName[row.name];
      if row.policy.Some? {
        roles := roles[i := Role(row.name, roles[i].policies + [row.policy.value])];
      }
      assert rows[..n + 1] == rows[..n] + [row];
      GroupedMore(rows[..n], row, roles0, byName0, roles, byName);
    }
    assert rows[..|rows|] == rows;
    GroupedAll(rows, roles, byName);
  }

  lemma GroupedMore(
    rows: seq<RoleRow>, row: RoleRow, roles: seq<Role>, byName: map<string, nat>, next: seq<Role>,
    index: map<string, nat>)
    requires Grouped(rows, roles, byName)
    requires index == if row.name in byName then byName else byName[row.name := |roles|]
    requires |next| == |roles| + if row.name in byName then 0 else 1
    requires forall i :: 0 <= i < |next| ==>
      var before := if i < |roles| then roles[i] else Role(row.name, []);
      next[i] == Role(before.name, before.policies + OwnPolicy(row, before.name))
    ensures Grouped(rows + [row], next, index)
  {
    hide Mentions, PoliciesOf, OwnPolicy;
    forall name ensures name in index <==> Mentions(rows + [row], name) { MentionsMore(rows, row, name); }
    forall i | 0 <= i < |next| ensures next[i].policies == PoliciesOf(rows + [row], next[i].name) {
      PoliciesMore(rows, row, next[i].name);
      if i == |roles| { NoneMentioned(rows, row.name); }
    }
  }

  /** What a row adds to the policies of a role. */
  function OwnPolicy(row: RoleRow, name: string): seq<Schema.Policy> {
    if row.name == name && row.policy.Some? then [row.policy.value] else []
  }

  lemma PoliciesMore(rows: seq<RoleRow>, row: RoleRow, name: string)
    ensures PoliciesOf(rows + [row], name) == PoliciesOf(rows, name) + OwnPolicy(row, name)
  {
    assert (rows + [row])[..|rows|] == rows;
  }

  lemma MentionsMore(rows: seq<RoleRow>, row: RoleRow, name: string)
    ensures Mentions(rows + [row], name) <==> Mentions(rows, name) || row.name == name
  {
    if r :| r in rows && r.name == name { assert r in rows + [row]; }
    assert row in rows + [row];
  }

  lemma GroupedAll(rows: seq<RoleRow>, roles: seq<Role>, byName: map<string, nat>)
    requires Grouped(rows, roles, byName)
    ensures forall i, j :: 0 <= i < j < |roles| ==> roles[i].name != roles[j].name
    ensures forall name :: Mentions(rows, name) <==> exists r :: r in roles && r.name == name
    ensures forall r :: r in roles ==> r.policies == PoliciesOf(rows, r.name)
  {
    hide PoliciesOf, Mentions;
    forall name ensures Mentions(rows, name) <==> exists r :: r in roles && r.name == name {
      if r :| r in roles && r.name == name {
        var i :| 0 <= i < |roles| && roles[i] == r;
      }
      if Mentions(rows, name) { assert roles[byName[name]] in roles; }
    }
    forall r | r in roles ensures r.policies == PoliciesOf(rows, r.name) {
      var i :| 0 <= i < |roles| && roles[i] == r;
    }
  }

  lemma {:induction false} NoneMentioned(rows: seq<RoleRow>, name: string)
    requires !Mentions(rows, name)
    ensures PoliciesOf(rows, name) == []
  {
    if rows != [] {
      var n := |rows| - 1;
      assert rows == rows[..n] + [rows[n]];
      assert forall r :: r in rows[..n] ==> r in rows;
      NoneMentioned(rows[..n], name);
    }
  }

  /** The result of the left join of roles and policies, in any order. */
  ghost predicate Joins(rows: seq<RoleRow>, c: Content) {
    && NoRepeats(rows)
    && (forall r :: r in rows <==>
          && r.name in c.roles
          && match r.policy case Some(p) => HasPolicy(c, r.name, p) case None => c.roles[r.name] == map[])
  }

  lemma {:induction false} PoliciesAre(rows: seq<RoleRow>, name: string)
    requires NoRepeats(rows)
    ensures NoRepeats(PoliciesOf(rows, name))
    ensures forall p :: p in PoliciesOf(rows, name) <==> RoleRow(name, Some(p)) in rows
  {
    if rows != [] {
      var n := |rows| - 1;
      assert rows == rows[..n] + [rows[n]];
      PoliciesAre(rows[..n], name);
      assert rows[n] !in rows[..n];
    }
  }

  /** Reads the rows of one snapshot into a model: every row once, policies grouped by role. */
  method LoadModel(
    binding: Option<Binding>, fieldRows: seq<Field>, keyRows: seq<string>, roleRows: seq<RoleRow>, version: nat,
    ghost c: Content)
    returns (m: Model)
    requires binding == c.binding && NoRepeats(fieldRows) && forall f :: f in fieldRows <==> HasField(c, f)
    requires NoRepeats(keyRows) && (forall a :: a in keyRows <==> a in c.keys) && Joins(roleRows, c)
    ensures Reads(m, c) && m.version == version
  {
    var b := NO_BINDING;
    if binding.Some? { b := binding.value; }
    var roles := GroupRoles(roleRows);
    forall name ensures name in c.roles <==> Mentions(roleRows, name) {
      if name in c.roles {
        if c.roles[name] == map[] {
          assert RoleRow(name, None) in roleRows;
        } else {
          var title :| title in c.roles[name];
          var row := c.roles[name][title];
          assert HasPolicy(c, name, Schema.Policy(title, row.description, row.expression));
          assert RoleRow(name, Some(Schema.Policy(title, row.description, row.expression))) in roleRows;
        }
      }
    }
    forall r | r in roles
      ensures NoRepeats(r.policies) && forall p :: p in r.policies <==> HasPolicy(c, r.name, p)
    {
      PoliciesAre(roleRows, r.name);
      forall p ensures p in r.policies <==> HasPolicy(c, r.name, p) {
        assert p in r.policies <==> RoleRow(r.name, Some(p)) in roleRows;
      }
    }
    return Model(b, fieldRows, keyRows, roles, version);
  }

  // ---- what the changes do -----------------------------------------------------------------------------------

  datatype Change =
    | SetBinding(b: Binding) | PutFields(fields: seq<Field>) | PutRole(role: Role) | DeleteRole(name: string)

  /** Inserting fields one by one, as the constraints of the table allow. */
  function FieldRows(fields: seq<Field>): Result<map<(string, string), FieldRow>, StoreError> {
    if fields == [] then Ok(map[])
    else
      var before :- FieldRows(fields[..|fields| - 1]);
      var f := fields[|fields| - 1];
      if (f.map_, f.name) in before || f.Type().Unknown? then Err(Constraint)
      else Ok(before[(f.map_, f.name) := FieldRow(f.Type(), f.filterable, f.policy)])
  }

  function PolicyRows(ps: seq<Schema.Policy>): Result<map<string, PolicyRow>, StoreError> {
    if ps == [] then Ok(map[])
    else
      var before :- PolicyRows(ps[..|ps| - 1]);
      var p := ps[|ps| - 1];
      if p.title in before then Err(Constraint) else Ok(before[p.title := PolicyRow(p.description, p.expression)])
  }

  function Applied(ch: Change, c: Content): Result<Content, StoreError> {
    match ch
    case SetBinding(b) => Ok(c.(binding := Some(b)))
    case PutFields(fields) =>
      var rows :- FieldRows(fields);
      Ok(c.(fields := rows))
    case PutRole(role) =>
      if role.name == ADMIN then Err(Protected)
      else
        var rows :- PolicyRows(role.policies);
        Ok(c.(roles := c.roles[role.name := rows]))
    case DeleteRole(name) =>
      if name == ADMIN then Err(Protected)
      else if name !in c.roles then Err(NotFound)
      else Ok(c.(roles := c.roles - {name}))
  }

  /** The admin role with its policy; a description that is stored already stays. */
  function WithAdmin(c: Content): Content {
    var policies := if ADMIN in c.roles then c.roles[ADMIN] else map[];
    var description := if BYPASS in policies then policies[BYPASS].description else "sees every row";
    c.(roles := c.roles[ADMIN := policies[BYPASS := PolicyRow(description, "true")]])
  }

  /** The policies of the admin role, if there is one. */
  function AdminOf(c: Content): Option<map<string, PolicyRow>> {
    if ADMIN in c.roles then Some(c.roles[ADMIN]) else None
  }

  /** The admin role has the policy that sees every row. */
  predicate HasBypass(c: Content) {
    ADMIN in c.roles && BYPASS in c.roles[ADMIN] && c.roles[ADMIN][BYPASS].expression == "true"
  }

  /** Two contents differ in nothing but the bypass of the admin role. */
  predicate OnlyBypassDiffers(c: Content, d: Content) {
    && d.binding == c.binding && d.fields == c.fields && d.keys == c.keys
    && d.roles.Keys == c.roles.Keys + {ADMIN}
    && (forall name :: name in c.roles && name != ADMIN ==> d.roles[name] == c.roles[name])
    && d.roles[ADMIN] - {BYPASS} == (if ADMIN in c.roles then c.roles[ADMIN] else map[]) - {BYPASS}
  }

  /** A change that names the admin role. */
  predicate OfAdmin(ch: Change) {
    (ch.PutRole? && ch.role.name == ADMIN) || (ch.DeleteRole? && ch.name == ADMIN)
  }

  /** The constraints of the tables on what a change stores. */
  predicate Storable(ch: Change, c: Content) {
    match ch
    case SetBinding(_) => true
    case PutFields(fs) =>
      && (forall i, j :: 0 <= i < j < |fs| ==> (fs[i].map_, fs[i].name) != (fs[j].map_, fs[j].name))
      && forall f :: f in fs ==> !f.logical.Unknown?
    case PutRole(role) =>
      forall i, j :: 0 <= i < j < |role.policies| ==> role.policies[i].title != role.policies[j].title
    case DeleteRole(name) => name in c.roles
  }

  lemma {:induction false} FieldRowsAccept(fs: seq<Field>, c: Content)
    ensures FieldRows(fs).Ok? <==> Storable(PutFields(fs), c)
    ensures FieldRows(fs).Ok? ==> forall k :: k in FieldRows(fs).value <==> exists f :: f in fs && (f.map_, f.name) == k
  {
    if fs != [] {
      var n := |fs| - 1;
      assert fs == fs[..n] + [fs[n]];
      FieldRowsAccept(fs[..n], c);
      if Storable(PutFields(fs), c) {
        assert Storable(PutFields(fs[..n]), c);
      }
      if FieldRows(fs).Ok? {
        forall i | 0 <= i < n ensures (fs[i].map_, fs[i].name) != (fs[n].map_, fs[n].name) {
          assert fs[i] in fs[..n];
        }
      }
    }
  }

  lemma {:induction false} PolicyRowsAccept(role: Role, c: Content)
    ensures PolicyRows(role.policies).Ok? <==> Storable(PutRole(role), c)
    ensures PolicyRows(role.policies).Ok? ==>
      forall t :: t in PolicyRows(role.policies).value <==> exists p :: p in role.policies && p.title == t
    decreases |role.policies|
  {
    var ps := role.policies;
    if ps != [] {
      var n := |ps| - 1;
      assert ps == ps[..n] + [ps[n]];
      PolicyRowsAccept(Role(role.name, ps[..n]), c);
      if PolicyRows(ps).Ok? {
        forall i | 0 <= i < n ensures ps[i].title != ps[n].title {
          assert ps[i] in ps[..n];
        }
      }
    }
  }

  /** A change is applied exactly if it does not name the admin role and the tables can hold what it stores. */
  lemma AppliesExactly(ch: Change, c: Content)
    ensures Applied(ch, c).Ok? <==> !OfAdmin(ch) && Storable(ch, c)
    ensures Applied(ch, c) == Err(Protected) <==> OfAdmin(ch)
    ensures Applied(ch, c) == Err(NotFound) <==> !OfAdmin(ch) && ch.DeleteRole? && !Storable(ch, c)
    ensures Applied(ch, c).Ok? ==> AdminOf(Applied(ch, c).value) == AdminOf(c)
  {
    hide Storable;
    match ch {
      case SetBinding(_) => NoConstraint(ch, c);
      case PutFields(fs) => FieldRowsAccept(fs, c); FieldErrors(fs);
      case PutRole(role) => PolicyRowsAccept(role, c); PolicyErrors(role.policies);
      case DeleteRole(_) => NoConstraint(ch, c);
    }
  }

  lemma NoConstraint(ch: Change, c: Content)
    requires ch.SetBinding? || ch.DeleteRole?
    ensures Storable(ch, c) <==> ch.SetBinding? || ch.name in c.roles
  {
  }

  /** The attributes a patch sets. */
  function Given(patch: map<string, Option<string>>): map<string, string> {
    map k | k in patch && patch[k].Some? :: patch[k].value
  }

  datatype Inserted = Inserted(keys: set<string>, held: map<string, string>, addedKey: bool)

  /** Attributes with some of others over them. */
  function Overlaid(held: map<string, string>, attrs: map<string, string>, done: set<string>): map<string, string> {
    held + (map k | k in attrs && k in done :: attrs[k])
  }

  lemma OverlaidMore(held: map<string, string>, attrs: map<string, string>, done: set<string>, k: string)
    requires k in attrs
    ensures Overlaid(held, attrs, done + {k}) == Overlaid(held, attrs, done)[k := attrs[k]]
  {
  }

  lemma OverlaidWhole(held: map<string, string>, attrs: map<string, string>)
    ensures Overlaid(held, attrs, {}) == held && Overlaid(held, attrs, attrs.Keys) == held + attrs
  {
    assert (map k | k in attrs && k in attrs.Keys :: attrs[k]) == attrs;
  }

  /** Inserts attributes one by one and notes whether a key is new. */
  method InsertAttrs(keys: set<string>, held: map<string, string>, attrs: map<string, string>)
    returns (r: Result<Inserted, StoreError>)
    ensures r.Ok? <==> forall k :: k in attrs ==> ValidIdent(k)
    ensures r.Ok? ==> r.value == Inserted(keys + attrs.Keys, held + attrs, !(attrs.Keys <= keys))
    ensures r.Err? ==> r.error == BadAttribute
  {
    hide ValidIdent, Overlaid;
    var inserted, mine, addedKey, left := keys, held, false, attrs.Keys;
    ghost var done := {};
    OverlaidWhole(held, attrs);
    while left != {}
      invariant done + left == attrs.Keys
      invariant forall k :: k in done ==> ValidIdent(k)
      invariant inserted == keys + done && addedKey == !(done <= keys)
      invariant mine == Overlaid(held, attrs, done)
      decreases left
    {
      var k :| k in left;
      if !ValidIdent(k) { return Err(BadAttribute); }
      OverlaidMore(held, attrs, done, k);
      addedKey := addedKey || k !in inserted;
      inserted, mine, left, done := inserted + {k}, mine[k := attrs[k]], left - {k}, done + {k};
    }
    assert done == attrs.Keys;
    return Ok(Inserted(inserted, mine, addedKey));
  }

  /** What a patch leaves of some attributes, and what it sets. */
  method SplitPatch(held: map<string, string>, patch: map<string, Option<string>>)
    returns (kept: map<string, string>, given: map<string, string>)
    ensures kept == held - (set k | k in patch && patch[k].None?) && given == Given(patch)
  {
    kept, given := held, map[];
    var left := patch.Keys;
    while left != {}
      invariant left <= patch.Keys
      invariant kept.Keys == set k | k in held && !(k in patch && k !in left && patch[k].None?)
      invariant forall k :: k in kept ==> kept[k] == held[k]
      invariant given.Keys == set k | k in patch && k !in left && patch[k].Some?
      invariant forall k :: k in given ==> given[k] == patch[k].value
      decreases |left|
    {
      var k :| k in left;
      if patch[k].None? { kept := kept - {k}; } else { given := given[k := patch[k].value]; }
      left := left - {k};
    }
  }

  // ---- the transactions ---------------------------------------------------------------------------------------

  class Database {
    var binding: Option<Binding>
    var fields: map<(string, string), FieldRow>
    var keys: set<string>
    var roles: map<string, map<string, PolicyRow>>
    var version: nat
    /** The attributes of each user; who may be provisioned with what is no part of the model. */
    var users: map<string, map<string, string>>

    constructor ()
      ensures Rows() == Content(None, map[], {}, map[]) && version == 1 && users == map[]
    {
      binding, fields, keys, roles, version, users := None, map[], {}, map[], 1, map[];
    }

    function Rows(): Content
      reads this
    {
      Content(binding, fields, keys, roles)
    }

    /** A change takes effect as a whole, with the next version, or not at all. */
    twostate predicate Changed(ch: Change, expected: nat, new r: Result<(), StoreError>)
      reads this
    {
      && r == (if Applied(ch, old(Rows())) == Err(Protected) then Err(Protected)
               else if old(version) != expected then Err(Conflict)
               else match Applied(ch, old(Rows())) case Ok(_) => Ok(()) case Err(e) => Err(e))
      && (if r.Ok? then Applied(ch, old(Rows())) == Ok(Rows()) && version == old(version) + 1
          else Rows() == old(Rows()) && version == old(version))
    }

    method ReplaceBinding(b: Binding, expected: nat) returns (r: Result<(), StoreError>)
      modifies this
      ensures Changed(SetBinding(b), expected, r)
    {
      if version != expected { return Err(Conflict); }
      binding := Some(b);
      version := version + 1;
      return Ok(());
    }

    method ReplaceFields(fs: seq<Field>, expected: nat) returns (r: Result<(), StoreError>)
      modifies this
      ensures Changed(PutFields(fs), expected, r)
    {
      FieldErrors(fs);
      if version != expected { return Err(Conflict); }
      var inserted: map<(string, string), FieldRow> := map[];
      for i := 0 to |fs|
        invariant FieldRows(fs[..i]) == Ok(inserted)
        invariant Rows() == old(Rows()) && version == old(version)
      {
        var f := fs[i];
        assert fs[..i + 1][..i] == fs[..i];
        if (f.map_, f.name) in inserted || f.Type().Unknown? {
          FieldsPrefix(fs, i + 1);
          return Err(Constraint);
        }
        inserted := inserted[(f.map_, f.name) := FieldRow(f.Type(), f.filterable, f.policy)];
      }
      assert fs[..|fs|] == fs;
      fields := inserted;
      version := version + 1;
      return Ok(());
    }

    method ReplaceRole(role: Role, expected: nat) returns (r: Result<(), StoreError>)
      modifies this
      ensures Changed(PutRole(role), expected, r)
      ensures role.name == ADMIN ==> r == Err(Protected) && Rows() == old(Rows()) && version == old(version)
    {
      if role.name == ADMIN { return Err(Protected); }
      if version != expected { PolicyErrors(role.policies); return Err(Conflict); }
      var inserted: map<string, PolicyRow> := map[];
      for i := 0 to |role.policies|
        invariant PolicyRows(role.policies[..i]) == Ok(inserted)
        invariant Rows() == old(Rows()) && version == old(version)
      {
        var p := role.policies[i];
        assert role.policies[..i + 1][..i] == role.policies[..i];
        if p.title in inserted {
          PoliciesPrefix(role.policies, i + 1);
          return Err(Constraint);
        }
        inserted := inserted[p.title := PolicyRow(p.description, p.expression)];
      }
      assert role.policies[..|role.policies|] == role.policies;
      roles := roles[role.name := inserted];
      version := version + 1;
      return Ok(());
    }

    method RemoveRole(name: string, expected: nat) returns (r: Result<(), StoreError>)
      modifies this
      ensures Changed(DeleteRole(name), expected, r)
      ensures name == ADMIN ==> r == Err(Protected) && Rows() == old(Rows()) && version == old(version)
    {
      if name == ADMIN { return Err(Protected); }
      if version != expected { return Err(Conflict); }
      if name !in roles { return Err(NotFound); }
      roles := roles - {name};
      version := version + 1;
      return Ok(());
    }

    function AttrsOf(user: string): map<string, string>
      reads this
    {
      if user in users then users[user] else map[]
    }

    /** What registering some keys does to the model: they are added, and the version goes up if and only if one of
        them is new. */
    twostate predicate Registered(added: set<string>)
      reads this
    {
      && Rows() == old(Rows()).(keys := old(keys) + added)
      && version == if added <= old(keys) then old(version) else old(version) + 1
    }

    /** Sets some attributes of a user, keeping the others, and registers their keys. */
    method SetAttrs(user: string, attrs: map<string, string>) returns (r: Result<(), StoreError>)
      modifies this
      ensures r == if forall k :: k in attrs ==> ValidIdent(k) then Ok(()) else Err(BadAttribute)
      ensures r.Ok? ==> users == old(users)[user := old(AttrsOf(user)) + attrs] && Registered(attrs.Keys)
      ensures r.Err? ==> Rows() == old(Rows()) && version == old(version) && users == old(users)
    {
      var inserted := InsertAttrs(keys, AttrsOf(user), attrs);
      if inserted.Err? { return Err(inserted.error); }
      var addedKey := inserted.value.addedKey;
      keys, users := inserted.value.keys, users[user := inserted.value.held];
      if addedKey { version := version + 1; }
      return Ok(());
    }

    /** Adds a user with their attributes, or changes nothing. */
    method CreateUser(user: string, attrs: map<string, string>) returns (r: Result<(), StoreError>)
      modifies this
      ensures r == (if user == ADMIN_USER then Err(Protected)
                    else if user in old(users) then Err(Exists)
                    else if exists k :: k in attrs && !ValidIdent(k) then Err(BadAttribute)
                    else Ok(()))
      ensures r.Ok? ==> users == old(users)[user := attrs] && Registered(attrs.Keys)
      ensures r.Err? ==> Rows() == old(Rows()) && version == old(version) && users == old(users)
    {
      if user == ADMIN_USER { return Err(Protected); }
      if user in users { return Err(Exists); }
      assert map[] + attrs == attrs;
      r := SetAttrs(user, attrs);
    }

    /** Changes the attributes a patch names, removes those it names without a value and leaves the rest alone; a
        patch that cannot be applied as a whole changes nothing. Returns what the user holds afterwards. */
    method PatchAttributes(user: string, patch: map<string, Option<string>>)
      returns (r: Result<map<string, string>, StoreError>)
      modifies this
      ensures r.Err? ==>
        r.error == if user == ADMIN_USER then Protected else if user !in old(users) then NotFound else BadAttribute
      ensures r.Ok? <==>
        && user != ADMIN_USER && user in old(users)
        && forall k :: k in patch && patch[k].Some? ==> ValidIdent(k)
      ensures r.Ok? ==> users == old(users)[user := r.value] && Registered(Given(patch).Keys)
      ensures r.Ok? ==> forall k ::
        && (k in r.value <==> if k in patch then patch[k].Some? else k in old(AttrsOf(user)))
        && (k in r.value ==> r.value[k] == if k in patch then patch[k].value else old(AttrsOf(user))[k])
      ensures r.Err? ==> Rows() == old(Rows()) && version == old(version) && users == old(users)
    {
      if user == ADMIN_USER { return Err(Protected); }
      if user !in users { return Err(NotFound); }
      var before := users;
      var kept, given := SplitPatch(users[user], patch);
      users := users[user := kept];
      var set_ := SetAttrs(user, given);
      if set_.Err? {
        users := before;
        return Err(set_.error);
      }
      return Ok(users[user]);
    }

    method EnsureAdminRole()
      modifies this
      ensures Rows() == WithAdmin(old(Rows())) && version == old(version) + 1
      ensures HasBypass(Rows()) && OnlyBypassDiffers(old(Rows()), Rows())
    {
      if ADMIN !in roles { roles := roles[ADMIN := map[]]; }
      var policies := roles[ADMIN];
      if BYPASS in policies {
        policies := policies[BYPASS := PolicyRow(policies[BYPASS].description, "true")];
      } else {
        policies := policies[BYPASS := PolicyRow("sees every row", "true")];
      }
      roles := roles[ADMIN := policies];
      version := version + 1;
    }
  }

  lemma {:induction false} FieldsPrefix(fs: seq<Field>, n: nat)
    requires n <= |fs| && FieldRows(fs[..n]) == Err(Constraint)
    ensures FieldRows(fs) == Err(Constraint)
    decreases |fs|
  {
    if n < |fs| {
      assert fs[..|fs| - 1][..n] == fs[..n];
      FieldsPrefix(fs[..|fs| - 1], n);
    } else {
      assert fs[..n] == fs;
    }
  }

  lemma {:induction false} PoliciesPrefix(ps: seq<Schema.Policy>, n: nat)
    requires n <= |ps| && PolicyRows(ps[..n]) == Err(Constraint)
    ensures PolicyRows(ps) == Err(Constraint)
    decreases |ps|
  {
    if n < |ps| {
      assert ps[..|ps| - 1][..n] == ps[..n];
      PoliciesPrefix(ps[..|ps| - 1], n);
    } else {
      assert ps[..n] == ps;
    }
  }

  lemma {:induction false} PolicyErrors(ps: seq<Schema.Policy>)
    ensures PolicyRows(ps).Err? ==> PolicyRows(ps) == Err(Constraint)
  {
    if ps != [] { PolicyErrors(ps[..|ps| - 1]); }
  }

  lemma {:induction false} FieldErrors(fs: seq<Field>)
    ensures FieldRows(fs).Err? ==> FieldRows(fs) == Err(Constraint)
  {
    if fs != [] { FieldErrors(fs[..|fs| - 1]); }
  }
}
