/** The store under concurrency: a step system of model writers, provisioning transactions and boots, each
    step what a transaction does between two points where another can come in between. */
module StoreRuns {
  import opened Basics
  import opened Schema
  import SqlSyntax
  import opened SqlRows
  import opened Policy
  import opened PolicyMeaning
  import opened AccessModel
  import opened Store
  import opened ModelRuns

  /** A model writer: it reads a model, validates a change of it, then opens a transaction that locks the
      version row. */
  datatype Writer = Idle | Proposing(ch: Change, m: Model) | Writing(ch: Change, m: Model)

  /** A transaction that registers attribute keys; it locks the version row only to raise the version. */
  datatype Provisioner = Closed | Inserting(added: set<string>) | Raised(added: set<string>)

  datatype Boot = Off | Booting

  datatype Owner = WriterOwns(i: nat) | ProvisionerOwns(j: nat) | BootOwns(k: nat)

  datatype State = State(
    content: Content, version: nat, lock: Option<Owner>,
    writers: seq<Writer>, provisioners: seq<Provisioner>, boots: seq<Boot>)

  datatype Step =
    | Read(i: nat, ch: Change, m: Model) | GiveUp(i: nat) | Lock(i: nat) | Commit(i: nat) | Abort(i: nat)
    | Insert(j: nat, key: string) | Raise(j: nat) | Provision(j: nat) | Withdraw(j: nat)
    | BootLock(k: nat) | BootCommit(k: nat) | BootAbort(k: nat)

  predicate Initial(s: State) {
    && s.content == Content(None, map[], {}, map[]) && s.version == 1 && s.lock.None?
    && (forall w :: w in s.writers ==> w.Idle?) && (forall p :: p in s.provisioners ==> p.Closed?)
    && (forall b :: b in s.boots ==> b.Off?)
  }

  /** A writer goes on with a change only if the model it proposes compiles. Deleting a role is not compiled. */
  predicate Validated(ch: Change, m: Model, parse: Parser) {
    Stated(ch) && (ch.DeleteRole? || Compiles(Proposal(ch, m), parse))
  }

  ghost predicate Next(s: State, t: State, step: Step, parse: Parser) {
    match step
    case Read(i, ch, m) =>
      && i < |s.writers| && s.writers[i].Idle?
      && Reads(m, s.content) && m.version == s.version && Validated(ch, m, parse)
      && t == s.(writers := s.writers[i := Proposing(ch, m)])
    case GiveUp(i) => i < |s.writers| && s.writers[i].Proposing? && t == s.(writers := s.writers[i := Idle])
    case Lock(i) =>
      && i < |s.writers| && s.writers[i].Proposing? && s.lock.None?
      && t == s.(lock := Some(WriterOwns(i)), writers := s.writers[i := Writing(s.writers[i].ch, s.writers[i].m)])
    case Commit(i) =>
      && i < |s.writers| && s.writers[i].Writing? && s.lock == Some(WriterOwns(i))
      && s.version == s.writers[i].m.version && Applied(s.writers[i].ch, s.content).Ok?
      && t == s.(content := Applied(s.writers[i].ch, s.content).value, version := s.version + 1, lock := None,
                 writers := s.writers[i := Idle])
    case Abort(i) =>
      && i < |s.writers| && s.writers[i].Writing? && s.lock == Some(WriterOwns(i))
      && t == s.(lock := None, writers := s.writers[i := Idle])
    case Insert(j, key) =>
      && j < |s.provisioners| && !s.provisioners[j].Raised? && ValidIdent(key)
      && (forall k :: 0 <= k < |s.provisioners| && k != j ==> key !in Pending(s.provisioners[k]))
      && var added := Pending(s.provisioners[j]);
        t == s.(provisioners := s.provisioners[j := Inserting(if key in s.content.keys then added else added + {key})])
    case Raise(j) =>
      && j < |s.provisioners| && s.provisioners[j].Inserting? && s.provisioners[j].added != {} && s.lock.None?
      && t == s.(lock := Some(ProvisionerOwns(j)), provisioners := s.provisioners[j := Raised(s.provisioners[j].added)])
    case Provision(j) =>
      && j < |s.provisioners|
      && if s.provisioners[j].Raised? then
           && s.lock == Some(ProvisionerOwns(j))
           && t == s.(content := s.content.(keys := s.content.keys + s.provisioners[j].added), version := s.version + 1,
                      lock := None, provisioners := s.provisioners[j := Closed])
         else
           && s.provisioners[j] == Inserting({})
           && t == s.(provisioners := s.provisioners[j := Closed])
    case Withdraw(j) =>
      && j < |s.provisioners| && !s.provisioners[j].Closed?
      && t == s.(lock := if s.lock == Some(ProvisionerOwns(j)) then None else s.lock,
                 provisioners := s.provisioners[j := Closed])
    case BootLock(k) =>
      && k < |s.boots| && s.boots[k].Off? && s.lock.None?
      && t == s.(lock := Some(BootOwns(k)), boots := s.boots[k := Booting])
    case BootCommit(k) =>
      && k < |s.boots| && s.boots[k].Booting? && s.lock == Some(BootOwns(k))
      && t == s.(content := WithAdmin(s.content), version := s.version + 1, lock := None, boots := s.boots[k := Off])
    case BootAbort(k) =>
      && k < |s.boots| && s.boots[k].Booting? && s.lock == Some(BootOwns(k))
      && t == s.(lock := None, boots := s.boots[k := Off])
  }

  function Pending(p: Provisioner): set<string> {
    if p.Closed? then {} else p.added
  }

  ghost predicate Run(states: seq<State>, steps: seq<Step>, parse: Parser) {
    && |states| == |steps| + 1 && Initial(states[0])
    && forall i :: 0 <= i < |steps| ==> Next(states[i], states[i + 1], steps[i], parse)
  }

  // ---- invariants ------------------------------------------------------------------------------------------

  /** What a writer has read is what is stored, as long as the version is the one it read. */
  ghost predicate ReadHolds(w: Writer, s: State, parse: Parser) {
    w.Idle? || (w.m.version <= s.version && Validated(w.ch, w.m, parse)
      && (w.m.version == s.version ==> Reads(w.m, s.content)))
  }

  ghost predicate Invariant(s: State, parse: Parser) {
    Usable(s.content, parse) && forall i :: 0 <= i < |s.writers| ==> ReadHolds(s.writers[i], s, parse)
  }

  lemma EmptyIsUsable(parse: Parser)
    requires ReadsTrue(parse)
    ensures Usable(Content(None, map[], {}, map[]), parse)
  {
    var m := Model(NO_BINDING, [], [], [], 1);
    assert Reads(m, Content(None, map[], {}, map[]));
    var env := EnvFrom([], []);
    assert Policy.Convert(Const(SqlSyntax.Bool(true)), env).Ok?;
    assert CompilePolicy("true", env, parse).Ok?;
    assert Compiles(m, parse);
  }

  /** Content and version change only together, and the version only by one. */
  lemma ChangesTogether(s: State, t: State, step: Step, parse: Parser)
    requires Next(s, t, step, parse)
    ensures (t.content == s.content && t.version == s.version) || t.version == s.version + 1
  {
  }

  /** A committed change leaves exactly the proposal that was validated, up to the order of rows. */
  lemma CommitIsProposal(s: State, t: State, i: nat, parse: Parser)
    requires Invariant(s, parse) && Next(s, t, Commit(i), parse)
    ensures var ch, m := s.writers[i].ch, s.writers[i].m;
      && Reads(Proposal(ch, m), t.content) && Compiles(Proposal(ch, m), parse) && t.version == m.version + 1
  {
    hide Reads, Compiles, Proposal, Applied;
    var ch, m := s.writers[i].ch, s.writers[i].m;
    assert ReadHolds(s.writers[i], s, parse);
    ProposalStored(ch, m, s.content);
    if ch.DeleteRole? {
      EveryReadingCompiles(m, s.content, parse);
      RemovalCompiles(m, ch.name, parse);
    }
  }

  /** A writer whose model is out of date cannot commit: its transaction changes nothing. */
  lemma StaleChangesNothing(s: State, t: State, step: Step, i: nat, parse: Parser)
    requires Next(s, t, step, parse) && i < |s.writers| && s.writers[i].Writing? && s.writers[i].m.version != s.version
    requires step == Commit(i) || step == Abort(i)
    ensures t.content == s.content && t.version == s.version
  {
  }

  lemma UsableAfter(s: State, t: State, step: Step, parse: Parser)
    requires Invariant(s, parse) && Next(s, t, step, parse)
    ensures Usable(t.content, parse)
  {
    hide Usable, Reads, Compiles, Validated, Applied, WithAdmin;
    match step {
      case Commit(i) =>
        CommitIsProposal(s, t, i, parse);
        UsableBy(Proposal(s.writers[i].ch, s.writers[i].m), t.content, parse);
      case Provision(j) => KeysUsable(s.content, Pending(s.provisioners[j]), parse);
      case BootCommit(_) => AdminUsable(s.content, parse);
      case _ =>
    }
  }

  lemma UsableBy(m: Model, c: Content, parse: Parser)
    requires Reads(m, c) && Compiles(m, parse)
    ensures Usable(c, parse)
  {
  }

  lemma StepKeeps(s: State, t: State, step: Step, parse: Parser)
    requires Invariant(s, parse) && Next(s, t, step, parse)
    ensures Invariant(t, parse)
  {
    hide Usable, Reads, Validated, Applied, WithAdmin;
    UsableAfter(s, t, step, parse);
    ChangesTogether(s, t, step, parse);
    forall k | 0 <= k < |t.writers| ensures ReadHolds(t.writers[k], t, parse) {
      assert k < |s.writers|;
      assert ReadHolds(s.writers[k], s, parse);
    }
  }

  lemma {:induction false} InvariantAt(states: seq<State>, steps: seq<Step>, i: nat, parse: Parser)
    requires Run(states, steps, parse) && ReadsTrue(parse) && i < |states|
    ensures Invariant(states[i], parse)
  {
    hide Next, Usable;
    if i == 0 {
      EmptyIsUsable(parse);
      assert forall k :: 0 <= k < |states[0].writers| ==> states[0].writers[k] in states[0].writers;
    } else {
      InvariantAt(states, steps, i - 1, parse);
      StepKeeps(states[i - 1], states[i], steps[i - 1], parse);
    }
  }

  // ---- every run -----------------------------------------------------------------------------------------------

  /** In every run, at every moment, every reading of what is stored compiles. */
  lemma StoredModelCompiles(states: seq<State>, steps: seq<Step>, i: nat, m: Model, parse: Parser)
    requires Run(states, steps, parse) && ReadsTrue(parse) && i < |states| && Reads(m, states[i].content)
    ensures Compiles(m, parse)
  {
    InvariantAt(states, steps, i, parse);
    EveryReadingCompiles(m, states[i].content, parse);
  }

  /** In every run, each committed change stores the proposal that was validated, one version further. */
  lemma CommitsAreProposals(states: seq<State>, steps: seq<Step>, n: nat, parse: Parser)
    requires Run(states, steps, parse) && ReadsTrue(parse) && n < |steps| && steps[n].Commit?
    ensures var s, t := states[n], states[n + 1];
      && steps[n].i < |s.writers| && s.writers[steps[n].i].Writing?
      && var ch, m := s.writers[steps[n].i].ch, s.writers[steps[n].i].m;
        Reads(m, s.content) && Reads(Proposal(ch, m), t.content) && Compiles(Proposal(ch, m), parse)
          && t.version == m.version + 1
  {
    hide Reads, Compiles, Proposal;
    InvariantAt(states, steps, n, parse);
    assert Next(states[n], states[n + 1], steps[n], parse);
    CommitIsProposal(states[n], states[n + 1], steps[n].i, parse);
    assert ReadHolds(states[n].writers[steps[n].i], states[n], parse);
  }

  /** No step but a boot changes the admin role, and a boot leaves it with the bypass. */
  lemma AdminStep(s: State, t: State, step: Step, parse: Parser)
    requires Next(s, t, step, parse)
    ensures !step.BootCommit? ==> AdminOf(t.content) == AdminOf(s.content)
    ensures step.BootCommit? ==> HasBypass(t.content) && OnlyBypassDiffers(s.content, t.content)
  {
    hide Applied;
    if step.Commit? { AppliesExactly(s.writers[step.i].ch, s.content); }
  }

  /** The bypass of the admin role as the first boot stores it. */
  const BYPASSED := map[BYPASS := PolicyRow("sees every row", "true")]

  /** In every run, at every moment, the admin role is just the bypass if some boot has committed, and is not there
      if none has: no change of any writer makes it, alters it or removes it. */
  lemma {:induction false} AdminIsProtected(states: seq<State>, steps: seq<Step>, i: nat, parse: Parser)
    requires Run(states, steps, parse) && i < |states|
    ensures AdminOf(states[i].content) ==
      if exists n :: 0 <= n < i && steps[n].BootCommit? then Some(BYPASSED) else None
  {
    hide Next;
    if i > 0 {
      AdminIsProtected(states, steps, i - 1, parse);
      AdminStep(states[i - 1], states[i], steps[i - 1], parse);
      if steps[i - 1].BootCommit? { BootStores(states[i - 1], states[i], steps[i - 1], parse); }
    }
  }

  lemma BootStores(s: State, t: State, step: Step, parse: Parser)
    requires Next(s, t, step, parse) && step.BootCommit?
    requires AdminOf(s.content).None? || AdminOf(s.content) == Some(BYPASSED)
    ensures AdminOf(t.content) == Some(BYPASSED)
  {
    var policies := if ADMIN in s.content.roles then s.content.roles[ADMIN] else map[];
    assert policies[BYPASS := PolicyRow("sees every row", "true")] == BYPASSED;
  }

  /** A writer that proposes a change of the admin role never commits it. */
  lemma AdminNeverCommitted(states: seq<State>, steps: seq<Step>, n: nat, parse: Parser)
    requires Run(states, steps, parse) && n < |steps| && steps[n].Commit?
    ensures steps[n].i < |states[n].writers| && states[n].writers[steps[n].i].Writing?
    ensures !OfAdmin(states[n].writers[steps[n].i].ch)
  {
    hide Applied;
    assert Next(states[n], states[n + 1], steps[n], parse);
    AppliesExactly(states[n].writers[steps[n].i].ch, states[n].content);
  }

  /** In every run the version never goes back, and two moments with the same version have the same binding,
      fields, attribute keys and roles; so every change of these raises it. */
  lemma {:induction false} VersionIdentifies(states: seq<State>, steps: seq<Step>, i: nat, j: nat, parse: Parser)
    requires Run(states, steps, parse) && i <= j < |states|
    ensures states[i].version <= states[j].version
    ensures states[i].version == states[j].version ==> states[i].content == states[j].content
    decreases j - i
  {
    hide Next;
    if i < j {
      VersionIdentifies(states, steps, i, j - 1, parse);
      ChangesTogether(states[j - 1], states[j], steps[j - 1], parse);
    }
  }
}
