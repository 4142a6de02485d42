/** A replica's compiled snapshot: served while it is younger than the TTL, reloaded when it is not. */
module Cache {
  import opened Basics
  import opened Schema
  import opened Policy
  import opened AccessModel

  /** What a read of the stored model brings. */
  datatype Stored = Unavailable | Available(m: Model)

  class Cache {
    const ttl: int
    var cur: Option<Snapshot>
    var loadedAt: int

    constructor (ttl: int)
      ensures this.ttl == ttl && cur.None?
    {
      this.ttl := ttl;
      cur, loadedAt := None, 0;
    }

    /** The snapshot may be served at some time. */
    predicate Fresh(now: int)
      reads this
    {
      cur.Some? && now - loadedAt < ttl
    }

    /** Loads a snapshot; its age counts from before the load, and one that took a whole TTL is not kept. */
    method RefreshLocked(stored: Stored, parse: Parser, started: int, finished: int) returns (r: Option<Snapshot>)
      modifies this
      ensures r.Some? <==> stored.Available? && Compiles(stored.m, parse) && finished - started < ttl
      ensures r.Some? ==> Reflects(r.value, stored.m, parse) && cur == r && loadedAt == started
      ensures r.None? ==> cur == old(cur) && loadedAt == old(loadedAt)
    {
      if stored.Unavailable? { return None; }
      var compiled := Compile(stored.m, parse);
      if compiled.Err? { return None; }
      if finished - started >= ttl { return None; }
      cur, loadedAt := Some(compiled.value), started;
      return cur;
    }

    /** Reloads now. The old snapshot is gone even if that fails. */
    method Refresh(stored: Stored, parse: Parser, started: int, finished: int) returns (r: Option<Snapshot>)
      modifies this
      ensures r.Some? <==> stored.Available? && Compiles(stored.m, parse) && finished - started < ttl
      ensures r.Some? ==> Reflects(r.value, stored.m, parse) && cur == r && loadedAt == started
      ensures r.None? ==> cur.None?
    {
      cur := None;
      r := RefreshLocked(stored, parse, started, finished);
    }

    /** Serves the snapshot if it is fresh, at the first look or at the second one under the lock, and reloads
        it otherwise; a failed reload serves nothing. While the call waits for the lock, other calls may change the
        snapshot: meanwhile is what they leave, or None if they leave it alone. */
    method Get(
      first: int, meanwhile: Option<(Option<Snapshot>, int)>, second: int, stored: Stored, parse: Parser, started: int,
      finished: int)
      returns (r: Option<Snapshot>)
      modifies this
      ensures old(Fresh(first)) ==> r == old(cur) && cur == old(cur) && loadedAt == old(loadedAt)
      ensures !old(Fresh(first)) ==>
        (var (found, at) := if meanwhile.Some? then meanwhile.value else (old(cur), old(loadedAt));
         if found.Some? && second - at < ttl then r == found && cur == found && loadedAt == at
         else
           && (r.Some? <==> stored.Available? && Compiles(stored.m, parse) && finished - started < ttl)
           && (r.Some? ==> Reflects(r.value, stored.m, parse) && cur == r && loadedAt == started)
           && (r.None? ==> cur == found && loadedAt == at))
    {
      if cur.Some? && first - loadedAt < ttl { return cur; }
      if meanwhile.Some? { cur, loadedAt := meanwhile.value.0, meanwhile.value.1; }
      if cur.Some? && second - loadedAt < ttl { return cur; }
      r := RefreshLocked(stored, parse, started, finished);
    }
  }
}
