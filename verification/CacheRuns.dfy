/** The caches of any number of replicas under concurrency: threads that get and refresh, a store that commits
    new versions, and one clock, in every interleaving. */
module CacheRuns {
  import opened Basics

  // ---- the system --------------------------------------------------------------------------------------------

  /** The clock, when each version was committed, and the number of steps taken. */
  datatype World = World(now: nat, commits: seq<nat>, step: nat) {
    function Version(): int { |commits| - 1 }
  }

  datatype Kind = Get | Refresh

  /** Where a call is. The second look and everything after it happen under the reload lock. */
  datatype Place =
    | Called | Looked(cur: Option<nat>, at: nat) | Waiting
    | Holding | LookedAgain(cur: Option<nat>, at: nat) | Starting | Loading(started: nat) | Loaded(started: nat, v: nat)

  /** A call in progress: when it began, and what was stored and what the replica had then. */
  datatype Thread = Idle | Busy(kind: Kind, born: nat, floor: nat, seen: nat, place: Place)

  /** A call that has returned: a version, or an error. */
  datatype Return = Return(kind: Kind, born: nat, ended: nat, seen: nat, result: Option<nat>, checked: nat)

  /** A successful load, and how many times the snapshot had been dropped by then. */
  datatype Load = Load(started: nat, kind: Kind, drops: nat)

  /** A replica. The floor is the version that calls from now on cannot fall behind. */
  datatype Replica = Replica(
    cur: Option<nat>, loadedAt: nat, reload: Option<nat>, threads: seq<Thread>,
    floor: nat, drops: nat, returns_: seq<Return>, loads: seq<Load>)

  datatype State = State(world: World, replicas: seq<Replica>)

  datatype Move =
    | BeginGet | BeginRefresh | Look | Check | Acquire | LookAgain | CheckAgain | Drop | Start | Read | Fail | Install

  predicate UnderLock(p: Place) {
    p.Holding? || p.LookedAgain? || p.Starting? || p.Loading? || p.Loaded?
  }

  function At(r: Replica, i: nat, p: Place): Replica
    requires i < |r.threads| && r.threads[i].Busy?
  {
    r.(threads := r.threads[i := r.threads[i].(place := p)])
  }

  /** The call of a thread returns; it gives back the reload lock if it has it. */
  function Finish(w: World, r: Replica, i: nat, result: Option<nat>): Replica
    requires i < |r.threads| && r.threads[i].Busy?
  {
    var t := r.threads[i];
    r.(threads := r.threads[i := Idle],
       reload := if UnderLock(t.place) then None else r.reload,
       returns_ := r.returns_ + [Return(t.kind, t.born, w.step, t.seen, result, w.now)])
  }

  function Installed(w: World, r: Replica, i: nat, started: nat, v: nat): Replica
    requires i < |r.threads| && r.threads[i].Busy?
  {
    Finish(w, r.(cur := Some(v), loadedAt := started, floor := v,
                 loads := r.loads + [Load(started, r.threads[i].kind, r.drops)]),
           i, Some(v))
  }

  predicate Fresh(cur: Option<nat>, at: nat, now: nat, ttl: nat) {
    cur.Some? && now - at < ttl
  }

  /** One step of one thread of a replica. */
  predicate Moves(w: World, r: Replica, s: Replica, i: nat, m: Move, ttl: nat) {
    && i < |r.threads| && w.commits != []
    && var t := r.threads[i];
      match m
      case BeginGet => t.Idle? && s == r.(threads := r.threads[i := Busy(Get, w.step, r.floor, w.Version(), Called)])
      case BeginRefresh =>
        && t.Idle?
        && s == r.(threads := r.threads[i := Busy(Refresh, w.step, r.floor, w.Version(), Waiting)])
      case Look => t.Busy? && t.place.Called? && s == At(r, i, Looked(r.cur, r.loadedAt))
      case Check =>
        && t.Busy? && t.place.Looked?
        && s == if Fresh(t.place.cur, t.place.at, w.now, ttl) then Finish(w, r, i, t.place.cur) else At(r, i, Waiting)
      case Acquire => t.Busy? && t.place.Waiting? && r.reload.None? && s == At(r, i, Holding).(reload := Some(i))
      case LookAgain => t.Busy? && t.place.Holding? && t.kind.Get? && s == At(r, i, LookedAgain(r.cur, r.loadedAt))
      case CheckAgain =>
        && t.Busy? && t.place.LookedAgain?
        && s == if Fresh(t.place.cur, t.place.at, w.now, ttl) then Finish(w, r, i, t.place.cur) else At(r, i, Starting)
      case Drop =>
        && t.Busy? && t.place.Holding? && t.kind.Refresh?
        && s == At(r, i, Starting).(cur := None, floor := w.Version(), drops := r.drops + 1)
      case Start => t.Busy? && t.place.Starting? && s == At(r, i, Loading(w.now))
      case Read => t.Busy? && t.place.Loading? && s == At(r, i, Loaded(t.place.started, w.Version()))
      case Fail => t.Busy? && (t.place.Loading? || t.place.Loaded?) && s == Finish(w, r, i, None)
      case Install =>
        && t.Busy? && t.place.Loaded?
        && s == (if w.now - t.place.started < ttl then Installed(w, r, i, t.place.started, t.place.v)
                 else Finish(w, r, i, None))
  }

  /** Time passes, or a version is committed now. */
  ghost predicate Environment(w: World, x: World) {
    && x.step == w.step + 1
    && ((x.commits == w.commits && x.now >= w.now) || (x.now == w.now && x.commits == w.commits + [w.now]))
  }

  ghost predicate Next(s: State, t: State, ttl: nat) {
    && |t.replicas| == |s.replicas|
    && ((Environment(s.world, t.world) && t.replicas == s.replicas)
        || (t.world == s.world.(step := s.world.step + 1) && exists k :: ReplicaMoves(s, t, k, ttl)))
  }

  /** One thread of one replica takes a step; the other replicas are as before. */
  ghost predicate ReplicaMoves(s: State, t: State, k: nat, ttl: nat) {
    && k < |s.replicas| == |t.replicas| && t.replicas == s.replicas[k := t.replicas[k]]
    && exists i, m :: Moves(s.world, s.replicas[k], t.replicas[k], i, m, ttl)
  }

  predicate Initial(s: State) {
    && s.world.commits == [s.world.now] && s.world.step == 0
    && forall r :: r in s.replicas ==>
         && r.cur.None? && r.loadedAt == 0 && r.reload.None? && r.floor == 0 && r.drops == 0 && r.returns_ == []
           && r.loads == []
         && forall t :: t in r.threads ==> t.Idle?
  }

  ghost predicate Run(states: seq<State>, ttl: nat) {
    && states != [] && Initial(states[0])
    && forall n :: 0 <= n < |states| - 1 ==> Next(states[n], states[n + 1], ttl)
  }

  // ---- invariants ----------------------------------------------------------------------------------------------

  /** No version after v was committed before some time. */
  predicate NothingNewer(w: World, v: nat, time: nat) {
    v <= w.Version() && forall x :: v < x < |w.commits| ==> w.commits[x] >= time
  }

  predicate SnapshotOk(w: World, r: Replica) {
    && r.floor <= w.Version() && r.loadedAt <= w.now
    && (r.cur.Some? ==> r.cur.value == r.floor && NothingNewer(w, r.cur.value, r.loadedAt))
  }

  /** What a look at the snapshot has brought. */
  predicate LookOk(w: World, r: Replica, t: Thread, cur: Option<nat>, at: nat)
    requires t.Busy?
  {
    cur.Some? ==> t.floor <= cur.value <= r.floor && NothingNewer(w, cur.value, at) && at <= w.now
  }

  /** A load in progress: it starts a TTL after the one before, unless the snapshot has been dropped. */
  predicate StartOk(r: Replica, t: Thread, started: nat, ttl: nat)
    requires t.Busy?
  {
    && (r.cur.Some? ==> t.kind.Get? && started >= r.loadedAt + ttl)
    && (t.kind.Refresh? ==> t.seen <= r.floor)
    && forall l :: l in r.loads ==> l.started <= started
  }

  predicate PlaceOk(w: World, r: Replica, t: Thread, ttl: nat)
    requires t.Busy?
  {
    match t.place
    case Called => t.kind.Get?
    case Looked(cur, at) => t.kind.Get? && LookOk(w, r, t, cur, at)
    case LookedAgain(cur, at) => t.kind.Get? && LookOk(w, r, t, cur, at) && cur == r.cur && at == r.loadedAt
    case Starting => StartOk(r, t, w.now, ttl)
    case Loading(started) => started <= w.now && StartOk(r, t, started, ttl)
    case Loaded(started, v) =>
      started <= w.now && StartOk(r, t, started, ttl) && r.floor <= v && NothingNewer(w, v, started)
    case _ => true
  }

  predicate ThreadOk(w: World, r: Replica, i: nat, ttl: nat)
    requires i < |r.threads|
  {
    var t := r.threads[i];
    t.Busy? ==>
      && t.born < w.step && t.floor <= r.floor && t.seen <= w.Version()
      && (UnderLock(t.place) ==> r.reload == Some(i))
      && PlaceOk(w, r, t, ttl)
  }

  /** What every later call of the replica has to reach. */
  function Low(a: Return): nat {
    if a.kind.Refresh? then a.seen else match a.result case None => 0 case Some(v) => v
  }

  predicate Served(a: Return) {
    a.kind.Get? && a.result.Some?
  }

  predicate ReturnOk(w: World, r: Replica, a: Return, ttl: nat) {
    && a.born <= a.ended < w.step && Low(a) <= r.floor && a.checked <= w.now
    && (a.result.Some? ==>
          && ttl > 0 && a.result.value <= w.Version()
          && forall x :: a.result.value < x < |w.commits| ==> w.commits[x] + ttl > a.checked)
  }

  predicate ReturnsOk(w: World, r: Replica, ttl: nat) {
    && (forall a :: a in r.returns_ ==> ReturnOk(w, r, a, ttl))
    && (forall a, b :: a in r.returns_ && b in r.returns_ && a.ended < b.born && Served(b) ==> Low(a) <= b.result.value)
    && (forall a, t :: a in r.returns_ && t in r.threads && t.Busy? && a.ended < t.born ==> Low(a) <= t.floor)
  }

  predicate LoadsOk(w: World, r: Replica, ttl: nat) {
    && (forall l :: l in r.loads ==> l.started <= w.now && l.drops <= r.drops)
    && (r.cur.Some? <==> r.loads != [] && r.loads[|r.loads| - 1].drops == r.drops)
    && (r.cur.Some? ==> r.loads[|r.loads| - 1].started == r.loadedAt)
    && (forall i, j :: 0 <= i < j < |r.loads| ==>
          r.loads[i].started <= r.loads[j].started && r.loads[i].drops <= r.loads[j].drops)
    && (forall i, j :: 0 <= i < j < |r.loads| && r.loads[i].drops == r.loads[j].drops ==>
          r.loads[j].started >= r.loads[i].started + ttl)
  }

  predicate ReplicaOk(w: World, r: Replica, ttl: nat) {
    && w.commits != [] && SnapshotOk(w, r) && ReturnsOk(w, r, ttl) && LoadsOk(w, r, ttl)
    && forall i :: 0 <= i < |r.threads| ==> ThreadOk(w, r, i, ttl)
  }

  /** Commit times never lie ahead of the clock. */
  predicate WorldOk(w: World) {
    w.commits != [] && forall x :: 0 <= x < |w.commits| ==> w.commits[x] <= w.now
  }

  predicate Invariant(s: State, ttl: nat) {
    WorldOk(s.world) && forall k :: 0 <= k < |s.replicas| ==> ReplicaOk(s.world, s.replicas[k], ttl)
  }

  // ---- steps of the environment -------------------------------------------------------------------------------

  /** The world has moved on: later, with perhaps more commits, all of them since. */
  predicate Later(w: World, x: World) {
    && x.step >= w.step && x.now >= w.now && |x.commits| >= |w.commits|
    && (forall i :: 0 <= i < |w.commits| ==> x.commits[i] == w.commits[i])
    && (forall i :: |w.commits| <= i < |x.commits| ==> x.commits[i] >= w.now)
  }

  lemma NothingNewerLater(w: World, x: World, v: nat, time: nat)
    requires Later(w, x) && NothingNewer(w, v, time) && time <= w.now
    ensures NothingNewer(x, v, time)
  {
  }

  lemma ThreadLater(w: World, x: World, r: Replica, i: nat, ttl: nat)
    requires Later(w, x) && i < |r.threads| && ThreadOk(w, r, i, ttl)
    ensures ThreadOk(x, r, i, ttl)
  {
    var t := r.threads[i];
    if t.Busy? {
      match t.place {
        case Looked(cur, at) => if cur.Some? { NothingNewerLater(w, x, cur.value, at); }
        case LookedAgain(cur, at) => if cur.Some? { NothingNewerLater(w, x, cur.value, at); }
        case Loaded(started, v) => NothingNewerLater(w, x, v, started);
        case _ =>
      }
    }
  }

  lemma ReplicaLater(w: World, x: World, r: Replica, ttl: nat)
    requires Later(w, x) && ReplicaOk(w, r, ttl)
    ensures ReplicaOk(x, r, ttl)
  {
    hide ThreadOk;
    forall i | 0 <= i < |r.threads| ensures ThreadOk(x, r, i, ttl) { ThreadLater(w, x, r, i, ttl); }
    if r.cur.Some? { NothingNewerLater(w, x, r.cur.value, r.loadedAt); }
  }

  // ---- steps of a thread ----------------------------------------------------------------------------------------

  /** Threads other than the one that moves are not affected by a change of the rest that keeps what they rely
      on: the snapshot is theirs to rely on only under the lock. */
  lemma OthersKeep(x: World, r: Replica, s: Replica, i: nat, ttl: nat)
    requires i < |r.threads| == |s.threads| && forall j :: 0 <= j < |r.threads| && j != i ==>
      s.threads[j] == r.threads[j]
    requires forall j :: 0 <= j < |r.threads| ==> ThreadOk(x, r, j, ttl)
    requires r.floor <= s.floor
    requires s.reload == r.reload || (s.reload.None? && r.reload == Some(i)) || (r.reload.None? && s.reload == Some(i))
    requires r.reload != Some(i) ==>
      s.cur == r.cur && s.loadedAt == r.loadedAt && s.floor == r.floor && s.loads == r.loads
    ensures forall j :: 0 <= j < |r.threads| && j != i ==> ThreadOk(x, s, j, ttl)
  {
    hide NothingNewer;
    forall j | 0 <= j < |r.threads| && j != i ensures ThreadOk(x, s, j, ttl) {
      assert ThreadOk(x, r, j, ttl);
    }
  }

  lemma PlaceKeeps(x: World, r: Replica, s: Replica, i: nat, ttl: nat)
    requires ReplicaOk(x, r, ttl) && i < |r.threads| == |s.threads| && s.threads == r.threads[i := s.threads[i]]
    requires s == r.(threads := s.threads, reload := s.reload)
    requires s.reload == r.reload || (r.reload.None? && s.reload == Some(i))
    requires ThreadOk(x, s, i, ttl) && s.threads[i].Busy?
    requires forall a :: a in r.returns_ && a.ended < s.threads[i].born ==> Low(a) <= s.threads[i].floor
    ensures ReplicaOk(x, s, ttl)
  {
    hide ThreadOk;
    OthersKeep(x, r, s, i, ttl);
    assert forall a :: a in s.returns_ ==> ReturnOk(x, r, a, ttl);
    forall a, t | a in s.returns_ && t in s.threads && t.Busy? && a.ended < t.born ensures Low(a) <= t.floor {
      assert t in r.threads || t == s.threads[i];
    }
  }

  /** What a call that returns has to bring for the record to stay true. */
  predicate ResultOk(x: World, r: Replica, t: Thread, result: Option<nat>, checked: nat, ttl: nat)
    requires t.Busy?
  {
    && checked <= x.now && t.born < x.step && t.seen <= x.Version()
    && (t.kind.Refresh? ==> t.seen <= r.floor)
    && (result.Some? ==>
          && t.floor <= result.value <= r.floor && ttl > 0 && result.value <= x.Version()
          && forall y :: result.value < y < |x.commits| ==> x.commits[y] + ttl > checked)
  }

  lemma FinishKeeps(w: World, x: World, r: Replica, i: nat, result: Option<nat>, ttl: nat)
    requires x == w.(step := w.step + 1) && ReplicaOk(x, r, ttl) && i < |r.threads| && r.threads[i].Busy?
    requires ResultOk(x, r, r.threads[i], result, w.now, ttl)
    ensures ReplicaOk(x, Finish(w, r, i, result), ttl)
  {
    hide ThreadOk;
    var s, t := Finish(w, r, i, result), r.threads[i];
    var a := Return(t.kind, t.born, w.step, t.seen, result, w.now);
    assert t in r.threads;
    LockHeld(x, r, i, ttl);
    OthersKeep(x, r, s, i, ttl);
    IdleOk(x, s, i, ttl);
    assert s.returns_ == r.returns_ + [a];
    assert ReturnOk(x, s, a, ttl);
    forall b, c | b in s.returns_ && c in s.returns_ && b.ended < c.born && Served(c) ensures Low(b) <= c.result.value {
      if c == a && b in r.returns_ { assert Low(b) <= t.floor; }
    }
    forall b, u | b in s.returns_ && u in s.threads && u.Busy? && b.ended < u.born ensures Low(b) <= u.floor {
      var j :| 0 <= j < |s.threads| && s.threads[j] == u;
      assert u in r.threads && ThreadOk(x, r, j, ttl);
      LockHeld(x, r, j, ttl);
    }
  }

  lemma LockHeld(x: World, r: Replica, i: nat, ttl: nat)
    requires i < |r.threads| && ThreadOk(x, r, i, ttl) && r.threads[i].Busy?
    ensures r.threads[i].born < x.step && (UnderLock(r.threads[i].place) ==> r.reload == Some(i))
  {
  }

  lemma IdleOk(x: World, s: Replica, i: nat, ttl: nat)
    requires i < |s.threads| && s.threads[i].Idle?
    ensures ThreadOk(x, s, i, ttl)
  {
  }

  /** The world after a step of a thread. */
  function Stepped(w: World): World {
    w.(step := w.step + 1)
  }

  lemma BeginKeeps(w: World, r: Replica, i: nat, t: Thread, ttl: nat)
    requires ReplicaOk(Stepped(w), r, ttl) && i < |r.threads| && r.threads[i].Idle? && w.commits != []
    requires t.Busy? && t.born == w.step && t.floor == r.floor && t.seen == w.Version()
      && (t.place.Waiting? || (t.place.Called? && t.kind.Get?))
    ensures ReplicaOk(Stepped(w), r.(threads := r.threads[i := t]), ttl)
  {
    hide ThreadOk;
    var x, s := Stepped(w), r.(threads := r.threads[i := t]);
    assert ThreadOk(x, s, i, ttl) by { BeginOk(w, s, i, ttl); }
    forall a | a in r.returns_ ensures Low(a) <= t.floor { assert ReturnOk(x, r, a, ttl); }
    PlaceKeeps(x, r, s, i, ttl);
  }

  lemma BeginOk(w: World, s: Replica, i: nat, ttl: nat)
    requires i < |s.threads| && w.commits != []
    requires var t := s.threads[i];
      t.Busy? && t.born == w.step && t.floor == s.floor && t.seen == w.Version()
      && (t.place.Waiting? || (t.place.Called? && t.kind.Get?))
    ensures ThreadOk(Stepped(w), s, i, ttl)
  {
  }

  /** A call only changes its place. */
  lemma GoKeeps(x: World, r: Replica, i: nat, p: Place, reload: Option<nat>, ttl: nat)
    requires ReplicaOk(x, r, ttl) && i < |r.threads| && r.threads[i].Busy?
    requires reload == r.reload || (r.reload.None? && reload == Some(i))
    requires UnderLock(p) ==> reload == Some(i)
    requires PlaceOk(x, r, r.threads[i].(place := p), ttl)
    ensures ReplicaOk(x, At(r, i, p).(reload := reload), ttl)
  {
    hide PlaceOk;
    var s, t := At(r, i, p).(reload := reload), r.threads[i];
    assert ThreadOk(x, r, i, ttl) && t in r.threads;
    PlaceSame(x, r, s, s.threads[i], ttl);
    PlaceKeeps(x, r, s, i, ttl);
  }

  lemma PlaceSame(x: World, r: Replica, s: Replica, t: Thread, ttl: nat)
    requires t.Busy? && s.cur == r.cur && s.loadedAt == r.loadedAt && s.floor == r.floor && s.loads == r.loads
    ensures PlaceOk(x, s, t, ttl) == PlaceOk(x, r, t, ttl)
  {
  }

  lemma LookKeeps(x: World, r: Replica, i: nat, again: bool, ttl: nat)
    requires ReplicaOk(x, r, ttl) && i < |r.threads| && r.threads[i].Busy?
    requires if again then r.threads[i].place.Holding? && r.threads[i].kind.Get? else r.threads[i].place.Called?
    ensures ReplicaOk(x, At(r, i, if again then LookedAgain(r.cur, r.loadedAt) else Looked(r.cur, r.loadedAt)), ttl)
  {
    hide NothingNewer;
    assert ThreadOk(x, r, i, ttl);
    GoKeeps(x, r, i, if again then LookedAgain(r.cur, r.loadedAt) else Looked(r.cur, r.loadedAt), r.reload, ttl);
  }

  /** A snapshot that is younger than the TTL is not behind any commit a TTL ago. */
  lemma FreshBound(x: World, v: nat, at: nat, now: nat, ttl: nat)
    requires NothingNewer(x, v, at) && at <= now && now - at < ttl
    ensures forall y :: v < y < |x.commits| ==> x.commits[y] + ttl > now
  {
  }

  lemma CheckKeeps(w: World, r: Replica, i: nat, ttl: nat)
    requires ReplicaOk(Stepped(w), r, ttl) && i < |r.threads| && r.threads[i].Busy?
    requires r.threads[i].place.Looked? || r.threads[i].place.LookedAgain?
    ensures var p := r.threads[i].place;
      if Fresh(p.cur, p.at, w.now, ttl) then ReplicaOk(Stepped(w), Finish(w, r, i, p.cur), ttl)
      else ReplicaOk(Stepped(w), At(r, i, if p.Looked? then Waiting else Starting), ttl)
  {
    hide LoadsOk, ReturnsOk;
    var x, t := Stepped(w), r.threads[i];
    assert ThreadOk(x, r, i, ttl);
    if Fresh(t.place.cur, t.place.at, w.now, ttl) {
      FreshBound(x, t.place.cur.value, t.place.at, w.now, ttl);
      KindOk(x, r, i, ttl);
      FinishKeeps(w, x, r, i, t.place.cur, ttl);
    } else if t.place.Looked? {
      GoKeeps(x, r, i, Waiting, r.reload, ttl);
    } else {
      LoadsBefore(x, r, ttl);
      GoKeeps(x, r, i, Starting, r.reload, ttl);
    }
  }

  lemma LoadsBefore(x: World, r: Replica, ttl: nat)
    requires LoadsOk(x, r, ttl)
    ensures forall l :: l in r.loads ==> l.started <= x.now
  {
  }

  /** Only a get looks. */
  lemma KindOk(x: World, r: Replica, i: nat, ttl: nat)
    requires i < |r.threads| && ThreadOk(x, r, i, ttl) && r.threads[i].Busy?
    ensures r.threads[i].place.Looked? || r.threads[i].place.LookedAgain? ==> r.threads[i].kind.Get?
  {
  }

  lemma AcquireKeeps(x: World, r: Replica, i: nat, ttl: nat)
    requires ReplicaOk(x, r, ttl) && i < |r.threads| && r.threads[i].Busy? && r.threads[i].place.Waiting?
    requires r.reload.None?
    ensures ReplicaOk(x, At(r, i, Holding).(reload := Some(i)), ttl)
  {
    GoKeeps(x, r, i, Holding, Some(i), ttl);
  }

  lemma StartKeeps(x: World, r: Replica, i: nat, ttl: nat)
    requires ReplicaOk(x, r, ttl) && i < |r.threads| && r.threads[i].Busy? && r.threads[i].place.Starting?
    ensures ReplicaOk(x, At(r, i, Loading(x.now)), ttl)
  {
    assert ThreadOk(x, r, i, ttl);
    GoKeeps(x, r, i, Loading(x.now), r.reload, ttl);
  }

  lemma ReadKeeps(x: World, r: Replica, i: nat, ttl: nat)
    requires ReplicaOk(x, r, ttl) && i < |r.threads| && r.threads[i].Busy? && r.threads[i].place.Loading?
    ensures ReplicaOk(x, At(r, i, Loaded(r.threads[i].place.started, x.Version())), ttl)
  {
    assert ThreadOk(x, r, i, ttl);
    GoKeeps(x, r, i, Loaded(r.threads[i].place.started, x.Version()), r.reload, ttl);
  }

  /** A load that fails, or takes too long, leaves the snapshot as it is. */
  lemma FailKeeps(w: World, r: Replica, i: nat, ttl: nat)
    requires ReplicaOk(Stepped(w), r, ttl) && i < |r.threads| && r.threads[i].Busy?
    requires r.threads[i].place.Loading? || r.threads[i].place.Loaded?
    ensures ReplicaOk(Stepped(w), Finish(w, r, i, None), ttl)
  {
    assert ThreadOk(Stepped(w), r, i, ttl);
    FinishKeeps(w, Stepped(w), r, i, None, ttl);
  }

  /** Dropping the snapshot under the lock raises the floor to what is stored. */
  lemma DropKeeps(x: World, r: Replica, i: nat, ttl: nat)
    requires ReplicaOk(x, r, ttl) && i < |r.threads| && r.threads[i].Busy?
    requires r.threads[i].place.Holding? && r.threads[i].kind.Refresh?
    ensures ReplicaOk(x, At(r, i, Starting).(cur := None, floor := x.Version(), drops := r.drops + 1), ttl)
  {
    hide ThreadOk, NothingNewer;
    var s := At(r, i, Starting).(cur := None, floor := x.Version(), drops := r.drops + 1);
    LockHeld(x, r, i, ttl);
    OthersKeep(x, r, s, i, ttl);
    DroppedOk(x, r, i, ttl);
    forall a | a in s.returns_ ensures ReturnOk(x, s, a, ttl) { assert ReturnOk(x, r, a, ttl); }
    forall a, t | a in s.returns_ && t in s.threads && t.Busy? && a.ended < t.born ensures Low(a) <= t.floor {
      if t !in r.threads {
        assert t == s.threads[i] && r.threads[i] in r.threads;
      }
    }
    DropLoads(x, r, s, ttl);
  }

  lemma DroppedOk(x: World, r: Replica, i: nat, ttl: nat)
    requires ReplicaOk(x, r, ttl) && i < |r.threads| && r.threads[i].Busy?
    requires r.threads[i].place.Holding? && r.threads[i].kind.Refresh?
    ensures ThreadOk(x, At(r, i, Starting).(cur := None, floor := x.Version(), drops := r.drops + 1), i, ttl)
  {
    assert ThreadOk(x, r, i, ttl);
  }

  lemma DropLoads(x: World, r: Replica, s: Replica, ttl: nat)
    requires LoadsOk(x, r, ttl) && s.loads == r.loads && s.cur.None? && s.drops == r.drops + 1
    ensures LoadsOk(x, s, ttl)
  {
    if r.loads != [] { assert r.loads[|r.loads| - 1] in r.loads; }
  }

  /** A load that is kept: the new snapshot is not older than any before it, and a get has waited a TTL. */
  lemma InstallKeeps(w: World, r: Replica, i: nat, ttl: nat)
    requires ReplicaOk(Stepped(w), r, ttl) && i < |r.threads| && r.threads[i].Busy? && r.threads[i].place.Loaded?
    requires w.now - r.threads[i].place.started < ttl
    ensures ReplicaOk(Stepped(w), Installed(w, r, i, r.threads[i].place.started, r.threads[i].place.v), ttl)
  {
    var x, t := Stepped(w), r.threads[i];
    var started, v := t.place.started, t.place.v;
    assert ThreadOk(x, r, i, ttl);
    // The load is kept first; then the call returns.
    var s := r.(cur := Some(v), loadedAt := started, floor := v, loads := r.loads + [Load(started, t.kind, r.drops)],
                threads := r.threads[i := t.(place := Holding)]);
    OthersKeep(x, r, s, i, ttl);
    assert ThreadOk(x, s, i, ttl);
    forall a | a in s.returns_ ensures ReturnOk(x, s, a, ttl) { assert ReturnOk(x, r, a, ttl); }
    forall a, u | a in s.returns_ && u in s.threads && u.Busy? && a.ended < u.born ensures Low(a) <= u.floor {
      if u !in r.threads {
        assert u == s.threads[i] && t in r.threads;
      }
    }
    KeptLoads(x, r, s, t, started, ttl);
    FreshBound(x, v, started, w.now, ttl);
    FinishKeeps(w, x, s, i, Some(v), ttl);
    assert Finish(w, s, i, Some(v)) == Installed(w, r, i, started, v);
  }

  lemma KeptLoads(x: World, r: Replica, s: Replica, t: Thread, started: nat, ttl: nat)
    requires LoadsOk(x, r, ttl) && t.Busy? && StartOk(r, t, started, ttl) && started <= x.now
    requires s.loads == r.loads + [Load(started, t.kind, r.drops)] && s.drops == r.drops && s.cur.Some?
    requires s.loadedAt == started
    ensures LoadsOk(x, s, ttl)
  {
    var n := |r.loads|;
    forall j | 0 <= j < n
      ensures s.loads[j].started <= started && s.loads[j].drops <= r.drops
      ensures s.loads[j].drops == r.drops ==> started >= s.loads[j].started + ttl
    {
      assert r.loads[j] in r.loads;
    }
  }

  lemma MoveKeeps(w: World, r: Replica, s: Replica, i: nat, m: Move, ttl: nat)
    requires WorldOk(w) && ReplicaOk(w, r, ttl) && Moves(w, r, s, i, m, ttl)
    ensures ReplicaOk(Stepped(w), s, ttl)
  {
    hide ReplicaOk;
    ReplicaLater(w, Stepped(w), r, ttl);
    var t := r.threads[i];
    match m {
      case BeginGet => BeginKeeps(w, r, i, Busy(Get, w.step, r.floor, w.Version(), Called), ttl);
      case BeginRefresh => BeginKeeps(w, r, i, Busy(Refresh, w.step, r.floor, w.Version(), Waiting), ttl);
      case Look => LookKeeps(Stepped(w), r, i, false, ttl);
      case Check => CheckKeeps(w, r, i, ttl);
      case Acquire => AcquireKeeps(Stepped(w), r, i, ttl);
      case LookAgain => LookKeeps(Stepped(w), r, i, true, ttl);
      case CheckAgain => CheckKeeps(w, r, i, ttl);
      case Drop => DropKeeps(Stepped(w), r, i, ttl);
      case Start => StartKeeps(Stepped(w), r, i, ttl);
      case Read => ReadKeeps(Stepped(w), r, i, ttl);
      case Fail => FailKeeps(w, r, i, ttl);
      case Install =>
        if w.now - t.place.started < ttl { InstallKeeps(w, r, i, ttl); } else { FailKeeps(w, r, i, ttl); }
    }
  }

  lemma NextKeeps(s: State, t: State, ttl: nat)
    requires Invariant(s, ttl) && Next(s, t, ttl)
    ensures Invariant(t, ttl)
  {
    hide ReplicaOk, Moves;
    if Environment(s.world, t.world) && t.replicas == s.replicas {
      assert Later(s.world, t.world);
      forall k | 0 <= k < |t.replicas| ensures ReplicaOk(t.world, t.replicas[k], ttl) {
        ReplicaLater(s.world, t.world, s.replicas[k], ttl);
      }
    } else {
      var k: nat :| ReplicaMoves(s, t, k, ttl);
      var i: nat, m :| Moves(s.world, s.replicas[k], t.replicas[k], i, m, ttl);
      forall j | 0 <= j < |t.replicas| ensures ReplicaOk(t.world, t.replicas[j], ttl) {
        if j == k {
          MoveKeeps(s.world, s.replicas[k], t.replicas[k], i, m, ttl);
        } else {
          ReplicaLater(s.world, t.world, s.replicas[j], ttl);
        }
      }
    }
  }

  lemma {:induction false} InvariantAt(states: seq<State>, n: nat, ttl: nat)
    requires Run(states, ttl) && n < |states|
    ensures Invariant(states[n], ttl)
  {
    hide Next;
    if n == 0 {
      InitialOk(states[0], ttl);
    } else {
      InvariantAt(states, n - 1, ttl);
      NextKeeps(states[n - 1], states[n], ttl);
    }
  }

  lemma InitialOk(s: State, ttl: nat)
    requires Initial(s)
    ensures Invariant(s, ttl)
  {
    forall k | 0 <= k < |s.replicas| ensures ReplicaOk(s.world, s.replicas[k], ttl) {
      var r := s.replicas[k];
      assert r in s.replicas;
      forall i | 0 <= i < |r.threads| ensures ThreadOk(s.world, r, i, ttl) { assert r.threads[i] in r.threads; }
    }
  }

  // ---- every run -------------------------------------------------------------------------------------------------

  /** The revocation bound: whatever the loads, failures and interleavings, a get whose freshness was checked a
      TTL or more after a version was committed serves that version or a later one. */
  lemma RevocationBound(states: seq<State>, n: nat, k: nat, a: Return, v: nat, ttl: nat)
    requires Run(states, ttl) && n < |states| && k < |states[n].replicas| && a in states[n].replicas[k].returns_
    requires Served(a) && v < |states[n].world.commits| && a.checked >= states[n].world.commits[v] + ttl
    ensures a.result.value >= v
  {
    InvariantAt(states, n, ttl);
    assert ReplicaOk(states[n].world, states[n].replicas[k], ttl);
  }

  /** Versions served by one replica do not go back: a get that begins after another has returned serves the
      same version or a later one. */
  lemma NeverBackwards(states: seq<State>, n: nat, k: nat, a: Return, b: Return, ttl: nat)
    requires Run(states, ttl) && n < |states| && k < |states[n].replicas|
    requires a in states[n].replicas[k].returns_ && b in states[n].replicas[k].returns_
    requires Served(a) && Served(b) && a.ended < b.born
    ensures a.result.value <= b.result.value
  {
    InvariantAt(states, n, ttl);
    assert ReplicaOk(states[n].world, states[n].replicas[k], ttl);
  }

  /** Once a refresh has returned, with success or not, no get of that replica that begins later serves a
      version older than what was stored when the refresh was asked for. */
  lemma RefreshIsFinal(states: seq<State>, n: nat, k: nat, a: Return, b: Return, ttl: nat)
    requires Run(states, ttl) && n < |states| && k < |states[n].replicas|
    requires a in states[n].replicas[k].returns_ && b in states[n].replicas[k].returns_
    requires a.kind.Refresh? && Served(b) && a.ended < b.born
    ensures b.result.value >= a.seen
  {
    InvariantAt(states, n, ttl);
    assert ReplicaOk(states[n].world, states[n].replicas[k], ttl);
  }

  /** Two loads of one replica with no refresh between them start at least a TTL apart, however many threads
      are asking. */
  lemma LoadsApart(states: seq<State>, n: nat, k: nat, i: nat, j: nat, ttl: nat)
    requires Run(states, ttl) && n < |states| && k < |states[n].replicas|
    requires i < j < |states[n].replicas[k].loads|
    requires states[n].replicas[k].loads[i].drops == states[n].replicas[k].loads[j].drops
    ensures states[n].replicas[k].loads[j].started >= states[n].replicas[k].loads[i].started + ttl
  {
    InvariantAt(states, n, ttl);
    assert ReplicaOk(states[n].world, states[n].replicas[k], ttl);
  }
}
