/** The administrator's credential over boots, environment values, password changes and logins. */
module Admin {
  import opened Basics

  /** The administrator's row: the password hash, the environment hash applied last, and whether the first login
      on a generated password is still to come. */
  datatype Row = Row(password: Option<string>, tracker: Option<string>, pending: bool)

  datatype Account = Account(row: Option<Row>, sessions: set<string>) {
    predicate HasPassword() {
      row.Some? && row.value.password.Some? && row.value.password.value != ""
    }

    function Tracker(): Option<string> {
      if row.None? then None else row.value.tracker
    }
  }

  /** What a boot makes of the account. The environment hash is empty if none is configured; drawn is the hash
      of a password drawn for this boot. */
  function Booted(a: Account, env: string, drawn: string): Account {
    if env != "" then
      if a.Tracker() == Some(env) then a
      else Account(Some(Row(Some(env), Some(env), false)),
                   if a.HasPassword() && a.row.value.password != Some(env) then {} else a.sessions)
    else if a.HasPassword() then a.(row := Some(a.row.value.(tracker := None)))
    else a.(row := Some(Row(Some(drawn), a.Tracker(), true)))
  }

  predicate Generates(a: Account, env: string) {
    env == "" && !a.HasPassword()
  }

  class AdminStore {
    var row: Option<Row>
    var sessions: set<string>

    constructor ()
      ensures Value() == Account(None, {})
    {
      row, sessions := None, {};
    }

    function Value(): Account
      reads this
    {
      Account(row, sessions)
    }

    /** Applies the configured hash, keeps the stored password, or generates one. A hash that is not valid stops
        the boot. */
    method EnsureAdmin(env: string, valid: bool, drawn: string) returns (ok: bool, generated: bool)
      modifies this
      ensures ok == (env == "" || valid)
      ensures ok ==> Value() == Booted(old(Value()), env, drawn) && generated == Generates(old(Value()), env)
      ensures !ok ==> Value() == old(Value()) && !generated
    {
      generated := false;
      if env != "" && !valid { return false, false; }
      ok := true;
      var storedHash: Option<string>, storedEnvHash: Option<string> := None, None;
      if row.Some? { storedHash, storedEnvHash := row.value.password, row.value.tracker; }
      var havePassword := row.Some? && storedHash.Some? && storedHash.value != "";
      if env != "" {
        var envChanged := storedEnvHash.None? || storedEnvHash.value != env;
        var rotating := envChanged && havePassword && storedHash.value != env;
        if envChanged { row := Some(Row(Some(env), Some(env), false)); }
        if rotating { sessions := {}; }
      } else if havePassword {
        if storedEnvHash.Some? { row := Some(row.value.(tracker := None)); }
      } else {
        row := Some(Row(Some(drawn), storedEnvHash, true));
        generated := true;
      }
    }

    /** Tells whether this login is the first on a generated password; only one login can be. */
    method ConsumeFirstLogin() returns (first: bool)
      modifies this
      ensures first == (old(row).Some? && old(row).value.pending)
      ensures row == if first then Some(old(row).value.(pending := false)) else old(row)
      ensures sessions == old(sessions)
    {
      first := row.Some? && row.value.pending;
      if first { row := Some(row.value.(pending := false)); }
    }

    /** Stores a password the administrator chose and ends every other session. A hash that is not valid changes
        nothing. */
    method SetOwnPassword(hash: string, valid: bool, keep: string) returns (ok: bool)
      modifies this
      ensures ok == (valid && old(row).Some?)
      ensures ok ==> Value() == Account(Some(old(row).value.(password := Some(hash))), old(sessions) * {keep})
      ensures !ok ==> Value() == old(Value())
    {
      if !valid { return false; }
      ok := row.Some?;
      if ok { row, sessions := Some(row.value.(password := Some(hash))), sessions * {keep}; }
    }
  }

  // ---- runs -------------------------------------------------------------------------------------------------

  /** What happens to the account, statement by statement: the parts of a login may come apart and mix with
      anything else. */
  datatype Event =
    | Boot(env: string, valid: bool, drawn: string)
    | OpenSession(token: string) | Consume | ChangePassword(hash: string, valid: bool, keep: string)
    | ClearPassword

  /** The account, the number of passwords generated and the number of logins marked as first. */
  datatype State = State(account: Account, generations: nat, firsts: nat)

  function After(s: State, e: Event): State {
    var a := s.account;
    match e
    case Boot(env, valid, drawn) =>
      if env != "" && !valid then s
      else s.(account := Booted(a, env, drawn), generations := s.generations + if Generates(a, env) then 1 else 0)
    case OpenSession(token) => if a.row.None? then s else s.(account := a.(sessions := a.sessions + {token}))
    case Consume =>
      if a.row.Some? && a.row.value.pending
      then s.(account := a.(row := Some(a.row.value.(pending := false))), firsts := s.firsts + 1)
      else s
    case ChangePassword(hash, valid, keep) =>
      if !valid || a.row.None? then s
      else s.(account := Account(Some(a.row.value.(password := Some(hash))), a.sessions * {keep}))
    case ClearPassword =>
      if a.row.None? then s else s.(account := a.(row := Some(a.row.value.(password := None))))
  }

  function AfterAll(s: State, es: seq<Event>): State {
    if es == [] then s else After(AfterAll(s, es[..|es| - 1]), es[|es| - 1])
  }

  const EMPTY := State(Account(None, {}), 0, 0)

  function Outstanding(a: Account): nat {
    if a.row.Some? && a.row.value.pending then 1 else 0
  }

  /** In every run logins marked as first never outnumber the passwords generated, and a mark that is still to
      come stands for one of them. */
  lemma {:induction false} FirstsAreGenerated(es: seq<Event>)
    ensures var s := AfterAll(EMPTY, es); s.firsts + Outstanding(s.account) <= s.generations
  {
    if es != [] { FirstsAreGenerated(es[..|es| - 1]); }
  }

  /** A boot whose environment hash is the one applied last changes nothing, however the password has been
      changed since. */
  lemma SameEnvironment(s: State, env: string, valid: bool, drawn: string)
    requires env != "" && s.account.Tracker() == Some(env)
    ensures After(s, Boot(env, valid, drawn)) == s
  {
  }

  /** A password is generated if and only if none is stored and no hash is configured. */
  lemma GeneratedOnlyIfNone(s: State, env: string, valid: bool, drawn: string)
    requires env == "" || valid
    ensures var t := After(s, Boot(env, valid, drawn));
      && (t.generations == s.generations + 1 <==> env == "" && !s.account.HasPassword())
      && (t.generations == s.generations || t.account.row.value.password == Some(drawn))
  {
  }

  /** An event that leaves the tracker as it is: anything but a boot with another environment value. */
  predicate KeepsEnvironment(e: Event, env: string) {
    e.Boot? ==> e.env == env
  }

  lemma {:induction false} TrackerStays(s: State, es: seq<Event>, env: string)
    requires env != "" && s.account.Tracker() == Some(env) && forall e :: e in es ==> KeepsEnvironment(e, env)
    ensures AfterAll(s, es).account.Tracker() == Some(env)
  {
    if es != [] {
      assert es[|es| - 1] in es;
      TrackerStays(s, es[..|es| - 1], env);
    }
  }

  /** A password the administrator has chosen survives any number of boots with the environment unchanged; only
      a further change or a cleared password ends it. */
  lemma {:induction false} ChosenPasswordSurvives(s: State, hash: string, keep: string, es: seq<Event>, env: string)
    requires env != "" && s.account.Tracker() == Some(env)
    requires forall e :: e in es ==> KeepsEnvironment(e, env) && !e.ChangePassword? && !e.ClearPassword?
    ensures var t := AfterAll(After(s, ChangePassword(hash, true, keep)), es);
      t.account.row.Some? && t.account.row.value.password == Some(hash)
  {
    var s1 := After(s, ChangePassword(hash, true, keep));
    if es != [] {
      assert es[|es| - 1] in es;
      ChosenPasswordSurvives(s, hash, keep, es[..|es| - 1], env);
      TrackerStays(s1, es[..|es| - 1], env);
    }
  }

  /** A boot with another environment hash than the one applied last and the one stored. */
  predicate Rotates(a: Account, env: string) {
    env != "" && a.Tracker() != Some(env) && a.HasPassword() && a.row.value.password != Some(env)
  }

  /** In every run, a session that is open after a rotation was opened after it. */
  lemma {:induction false} RotationRevokes(s: State, es: seq<Event>, i: nat, token: string)
    requires i < |es| && es[i].Boot? && es[i].valid && Rotates(AfterAll(s, es[..i]).account, es[i].env)
    requires token in AfterAll(s, es).account.sessions
    ensures exists j :: i < j < |es| && es[j] == OpenSession(token)
  {
    var last := |es| - 1;
    var front := es[..last];
    if i == last {
      assert false;
    } else if es[last] != OpenSession(token) {
      assert front[..i] == es[..i] && front[i] == es[i];
      assert token in AfterAll(s, front).account.sessions;
      RotationRevokes(s, front, i, token);
      var j :| i < j < |front| && front[j] == OpenSession(token);
      assert es[j] == OpenSession(token);
    }
  }

  /** A boot that neither generates a password nor applies a hash. */
  predicate Restarts(a: Account, e: Event) {
    e.Boot? && if e.env == "" then a.HasPassword() else !e.valid || a.Tracker() == Some(e.env)
  }

  /** A generated password is followed by exactly one login marked as first, the first one there is, however often
      the password is changed or cleared and the program restarted with it. */
  lemma {:induction false} FirstLoginOnce(s: State, valid: bool, drawn: string, es: seq<Event>)
    requires Generates(s.account, "")
    requires forall i :: 0 <= i < |es| && es[i].Boot? ==>
      Restarts(AfterAll(After(s, Boot("", valid, drawn)), es[..i]).account, es[i])
    ensures var t := AfterAll(After(s, Boot("", valid, drawn)), es);
      && t.account.row.Some? && t.generations == s.generations + 1
      && t.firsts == s.firsts + (if Consume in es then 1 else 0)
      && t.account.row.value.pending == (Consume !in es)
  {
    var s1 := After(s, Boot("", valid, drawn));
    if es != [] {
      var n := |es| - 1;
      var front := es[..n];
      forall i | 0 <= i < n && front[i].Boot? ensures Restarts(AfterAll(s1, front[..i]).account, front[i]) {
        assert front[i] == es[i] && front[..i] == es[..i];
      }
      FirstLoginOnce(s, valid, drawn, front);
      assert es == front + [es[n]];
    }
  }

  /** A hash configured at a successful boot is the one tracked from then on; it becomes the password, without a
      first login to come, unless it was tracked before. */
  lemma ConfiguredHash(s: State, env: string, drawn: string)
    requires env != ""
    ensures var t := After(s, Boot(env, true, drawn)).account;
      && t.Tracker() == Some(env)
      && (s.account.Tracker() != Some(env) ==>
            t.row.value.password == Some(env) && Outstanding(t) == 0
              && (t.sessions == if Rotates(s.account, env) then {} else s.account.sessions))
  {
  }

  // ---- sessions ---------------------------------------------------------------------------------------------

  /** An event that ends a session: a rotation, or a password change that keeps another one. */
  predicate Ends(a: Account, e: Event, token: string) {
    match e
    case Boot(env, valid, _) => valid && Rotates(a, env)
    case ChangePassword(_, valid, keep) => valid && a.row.Some? && keep != token
    case _ => false
  }

  /** The session was there at the start, or was opened by some event, and nothing has ended it since. */
  predicate OpenSince(s: State, es: seq<Event>, i: int, token: string) {
    && -1 <= i < |es|
    && (if i == -1 then token in s.account.sessions
        else es[i] == OpenSession(token) && AfterAll(s, es[..i]).account.row.Some?)
    && forall j :: i < j < |es| ==> !Ends(AfterAll(s, es[..j]).account, es[j], token)
  }

  /** In every run a session is open at the end exactly if it has been opened and neither a rotation nor a password
      change elsewhere came after; so it survives every other boot. */
  lemma {:induction false} SessionsExactly(s: State, es: seq<Event>, token: string)
    ensures token in AfterAll(s, es).account.sessions <==> exists i :: OpenSince(s, es, i, token)
  {
    if es == [] {
      assert OpenSince(s, es, -1, token) <==> token in s.account.sessions;
    } else {
      var n := |es| - 1;
      var front, e := es[..n], es[n];
      SessionsExactly(s, front, token);
      OpenLonger(s, front, e, token);
      assert es == front + [e];
      SessionAfter(AfterAll(s, front), e, token);
    }
  }

  lemma SessionAfter(s: State, e: Event, token: string)
    ensures token in After(s, e).account.sessions <==>
      (e == OpenSession(token) && s.account.row.Some?) || (token in s.account.sessions && !Ends(s.account, e, token))
  {
  }

  lemma OpenLonger(s: State, es: seq<Event>, e: Event, token: string)
    ensures var a := AfterAll(s, es).account;
      (exists i :: OpenSince(s, es + [e], i, token)) <==>
        (e == OpenSession(token) && a.row.Some?) || ((exists i :: OpenSince(s, es, i, token)) && !Ends(a, e, token))
  {
    hide AfterAll, Ends;
    var more, n := es + [e], |es|;
    assert more[..n] == es;
    forall i | -1 <= i < n
      ensures OpenSince(s, more, i, token) <==>
        OpenSince(s, es, i, token) && !Ends(AfterAll(s, es).account, e, token)
    {
      assert forall j :: 0 <= j < n ==> more[..j] == es[..j] && more[j] == es[j];
    }
    assert OpenSince(s, more, n, token) <==> e == OpenSession(token) && AfterAll(s, es).account.row.Some?;
  }

  /** Booting without an environment hash and then with one applies that hash, except where the first boot found
      no password and the hash was the one applied last: the generating branch keeps the tracker. */
  lemma {:induction false} ReconfiguredApplies(s: State, env: string, drawn: string, other: string)
    requires env != "" && drawn != env
    ensures var t := After(After(s, Boot("", true, drawn)), Boot(env, true, other));
      t.account.row.Some? &&
      (t.account.row.value.password == Some(env) <==> s.account.HasPassword() || s.account.Tracker() != Some(env))
  {
    var mid := After(s, Boot("", true, drawn)).account;
    assert mid.Tracker() == if s.account.HasPassword() then None else s.account.Tracker();
  }

  /** The exception is met: a hash is applied, the password cleared and one generated, and the same hash configured
      again is passed over. */
  lemma {:induction false} ReconfiguredIgnored(hash: string, drawn: string)
    requires hash != "" && drawn != hash
    ensures var es := [Boot(hash, true, ""), ClearPassword, Boot("", true, drawn), Boot(hash, true, "")];
      AfterAll(EMPTY, es).account.row == Some(Row(Some(drawn), Some(hash), true))
  {
    var es := [Boot(hash, true, ""), ClearPassword, Boot("", true, drawn), Boot(hash, true, "")];
    var one, two, three := es[..1], es[..2], es[..3];
    assert three[..2] == two && two[..1] == one && one[..0] == [];
    assert AfterAll(EMPTY, one[..0]) == EMPTY;
    assert AfterAll(EMPTY, one).account == Account(Some(Row(Some(hash), Some(hash), false)), {});
    assert AfterAll(EMPTY, two).account == Account(Some(Row(None, Some(hash), false)), {});
    assert AfterAll(EMPTY, three).account == Account(Some(Row(Some(drawn), Some(hash), true)), {});
  }
}
