/** A request for spans, from what the client sends to what is asked of the reader: the cursor has to belong to
    the filter, and the policy and the filter come from one snapshot of the model. */
module Handlers {
  import opened Basics
  import opened Schema
  import SqlSyntax
  import SqlRoundTrip
  import opened SqlSemantics
  import opened SqlRows
  import opened Expression
  import ExpressionMeaning
  import AccessModel
  import opened Traces
  import opened Reader
  import opened Visibility
  import opened ListMeaning
  import opened Scroll
  import opened Access
  import opened Filter

  /** How cursors and filters are turned into opaque text. */
  datatype Codec = Codec(
    encode: (Cursor, string) -> string, decode: string -> Option<(Cursor, string)>, digest: string -> string,
    json: SqlSyntax.Datum -> string)

  ghost predicate Exact(codec: Codec) {
    forall c, h :: codec.encode(c, h) != "" && codec.decode(codec.encode(c, h)) == Some((c, h))
  }

  datatype Refused = BadColumns | MalformedCursor | OtherFilter | NotReady | BadFilter(why: FilterError) | Unavailable

  datatype Plan = Plan(request: Request, filter: Option<Fragment>, cursor: Option<Cursor>, hash: string)

  /** What a cursor is bound to. */
  function FilterHash(cs: seq<Condition>, codec: Codec): string {
    if cs == [] then "" else codec.digest(CanonicalOf(cs, codec.json))
  }

  /** The cursor was issued for this filter, or there is none. */
  predicate CursorFits(cursor: string, cs: seq<Condition>, codec: Codec) {
    cursor == "" || (codec.decode(cursor).Some? && codec.decode(cursor).value.1 == FilterHash(cs, codec))
  }

  /** What is wrong with a request: the first of its faults in the order they are looked for. The snapshot is None
      if there is no model that can be served. */
  function Fault(
    snapshot: Option<AccessModel.Snapshot>, cs: seq<Condition>, cursor: string, columns: Projection, codec: Codec)
    : Option<Refused>
  {
    if !Usable(columns) then Some(BadColumns)
    else if cursor != "" && codec.decode(cursor).None? then Some(MalformedCursor)
    else if !CursorFits(cursor, cs, codec) then Some(OtherFilter)
    else if snapshot.None? || !AccessModel.Ready(snapshot.value) then Some(NotReady)
    else if cs == [] then None
    else match Built(cs, snapshot.value.schema.fields) case Ok(_) => None case Err(why) => Some(BadFilter(why))
  }

  method PlanSpans(
    snapshot: Option<AccessModel.Snapshot>, sess: Session, cs: seq<Condition>, cursor: string, columns: Projection,
    codec: Codec)
    returns (r: Result<Plan, Refused>)
    ensures r.Ok? <==>
      && Usable(columns) && CursorFits(cursor, cs, codec)
      && snapshot.Some? && AccessModel.Ready(snapshot.value)
      && (cs != [] ==> Built(cs, snapshot.value.schema.fields).Ok?)
    ensures r.Ok? ==>
      && r.value.cursor == (if cursor == "" then None else Some(codec.decode(cursor).value.0))
      && r.value.hash == FilterHash(cs, codec)
      && r.value.filter == (if cs == [] then None else Some(Built(cs, snapshot.value.schema.fields).value))
    ensures r.Ok? ==> Access.Assembled(r.value.request, sess, snapshot.value)
    ensures match Fault(snapshot, cs, cursor, columns, codec) case Some(why) => r == Err(why) case None => r.Ok?
  {
    if !Usable(columns) { return Err(BadColumns); }
    var cur: Option<Cursor>, curFilter := None, "";
    if cursor != "" {
      var decoded := codec.decode(cursor);
      if decoded.None? { return Err(MalformedCursor); }
      cur, curFilter := Some(decoded.value.0), decoded.value.1;
    }
    var fh := "";
    if |cs| > 0 {
      var canonical := Canonical(cs, codec.json);
      fh := codec.digest(canonical);
    }
    if cur.Some? && curFilter != fh { return Err(OtherFilter); }
    if snapshot.None? { return Err(NotReady); }
    var q := Assemble(sess, snapshot.value);
    if q.None? { return Err(NotReady); }
    var pred: Option<Fragment> := None;
    if |cs| > 0 {
      var built := Build(cs, snapshot.value.schema.fields);
      if built.Err? { return Err(BadFilter(built.error)); }
      pred := Some(built.value);
    }
    return Ok(Plan(q.value, pred, cur, fh));
  }

  /** A cursor goes on fitting a filter whose conditions and values have been reordered. */
  lemma CursorSurvivesReordering(
    cs: seq<Condition>, middle: seq<Condition>, ds: seq<Condition>, c: Cursor, codec: Codec)
    requires Exact(codec) && Rearranged(cs, middle, ds)
    ensures FilterHash(cs, codec) == FilterHash(ds, codec)
    ensures CursorFits(codec.encode(c, FilterHash(cs, codec)), ds, codec)
  {
    CanonicalPermuted(cs, middle, ds, codec.json);
    MultisetMembers(middle, ds);
  }

  /** A filter as a question about a span. */
  function Asks(cs: seq<Condition>, fields: seq<Field>, conv: Conv): Row -> bool {
    (r: Row) =>
      FieldsFit(cs, Filterable(fields), r) && forall c :: c in cs ==> Satisfies(c, Filterable(fields), r, conv)
  }

  /** The tree of an accepted filter asks this of every row of a table that has its fields. */
  lemma AsksIs(cs: seq<Condition>, fields: seq<Field>, conv: Conv, db: Db, rows: seq<Row>) returns (t: SqlSyntax.Ast)
    requires Built(cs, fields).Ok? && forall r :: r in rows ==> FieldsFit(cs, Filterable(fields), r)
    ensures Built(cs, fields).value == FragmentOf(t)
    ensures FilterIs(Some(t), Asks(cs, fields, conv), conv, db, rows)
  {
    hide Eval, Built, Satisfies, Suits;
    t := BuildMeaning(cs, fields);
    forall c: Ctx | c.conv == conv && c.db == db && c.row in rows
      ensures ExpressionMeaning.Flag(Eval(t, c)) && (IsTrue(Eval(t, c)) <==> Asks(cs, fields, conv)(c.row))
    {
    }
    assert Says(t, Asks(cs, fields, conv), conv, db, rows);
  }

  /** A filter only narrows: whatever the cursor says, each trace on a page has in the window a span that the
      caller may see, and one single span that satisfies all conditions of the filter together. */
  lemma FilterNarrows(
    conn: Connection, conv: Conv, db: Db, q: Request, w: Window, cs: seq<Condition>, fields: seq<Field>,
    cur: Option<Cursor>, limit: nat)
    returns (t: SqlSyntax.Ast)
    requires Faithful(conn, conv, db) && Readable(q, db) && Built(cs, fields).Ok?
    requires forall r :: r in TableRows(q, db) ==> FieldsFit(cs, Filterable(fields), r)
    ensures Built(cs, fields).value == FragmentOf(t)
    ensures ListOf(conn, q, w, Some(t), cur, limit).Ok?
    ensures forall s :: s in ListOf(conn, q, w, Some(t), cur, limit).value.traces ==>
      && (exists r :: r in TraceIn(q.binding, w, TableRows(q, db), s.traceID) && PermitsOf(q, conv)(r))
      && (exists r :: r in TraceIn(q.binding, w, TableRows(q, db), s.traceID) && Asks(cs, fields, conv)(r))
  {
    hide ListOf, Built, TraceIn, PermitsOf, Asks, Faithful, FilterIs;
    var rows, matches := TableRows(q, db), Asks(cs, fields, conv);
    t := AsksIs(cs, fields, conv, db, rows);
    ListedAreOpen(conn, conv, db, q, w, Some(t), matches, cur, limit);
    var ts := ListOf(conn, q, w, Some(t), cur, limit).value.traces;
    forall s | s in ts
      ensures exists r :: r in TraceIn(q.binding, w, rows, s.traceID) && PermitsOf(q, conv)(r)
      ensures exists r :: r in TraceIn(q.binding, w, rows, s.traceID) && matches(r)
    {
      var i :| 0 <= i < |ts| && ts[i] == s;
      assert TraceIds(ts)[i] == s.traceID;
      assert Listed(q.binding, w, rows, PermitsOf(q, conv), matches, s.traceID);
    }
  }

  /** Sent again with its conditions and values reordered, the bounds of between in place, a filter gets the same
      page in the same place. */
  lemma PageSurvivesReordering(
    conn: Connection, conv: Conv, db: Db, q: Request, w: Window, cs: seq<Condition>, middle: seq<Condition>,
    ds: seq<Condition>, fields: seq<Field>, cur: Option<Cursor>, limit: nat)
    returns (t: SqlSyntax.Ast, u: SqlSyntax.Ast)
    requires Faithful(conn, conv, db) && Readable(q, db)
    requires Rearranged(cs, middle, ds) && (forall i :: 0 <= i < |cs| ==> Steady(cs[i], middle[i]))
    requires Built(cs, fields).Ok? && forall r :: r in TableRows(q, db) ==> FieldsFit(cs, Filterable(fields), r)
    ensures Built(cs, fields).value == FragmentOf(t)
    ensures Built(ds, fields).Ok? && Built(ds, fields).value == FragmentOf(u)
    ensures var one, other := ListOf(conn, q, w, Some(t), cur, limit), ListOf(conn, q, w, Some(u), cur, limit);
      one.Ok? && other.Ok? && PositionsOf(one.value.traces) == PositionsOf(other.value.traces)
  {
    hide ListOf, Built, PermitsOf, Faithful, FilterIs, Satisfies, Suits, Steady, Rearranged, Positions, IsPage;
    var rows, asks, asksToo := TableRows(q, db), Asks(cs, fields, conv), Asks(ds, fields, conv);
    AcceptedPermuted(cs, middle, ds, fields);
    forall r | r in rows ensures FieldsFit(ds, Filterable(fields), r) && asks(r) == asksToo(r) {
      SatisfiedPermuted(cs, middle, ds, Filterable(fields), r, conv);
    }
    t := AsksIs(cs, fields, conv, db, rows);
    u := AsksIs(ds, fields, conv, db, rows);
    ListAnswers(conn, conv, db, q, w, Some(t), asks, cur, limit);
    ListAnswers(conn, conv, db, q, w, Some(u), asksToo, cur, limit);
    SamePositions(q.binding, w, rows, PermitsOf(q, conv), PermitsOf(q, conv), asks, asksToo);
    PagesAreUnique(
      PositionsOf(ListOf(conn, q, w, Some(t), cur, limit).value.traces),
      PositionsOf(ListOf(conn, q, w, Some(u), cur, limit).value.traces),
      Positions(q.binding, w, rows, PermitsOf(q, conv), asks), cur, limit);
  }

  // ---- the list ---------------------------------------------------------------------------------------------

  /** A list hands out a cursor only with a full page. */
  function NextCursor(r: ListResult, limit: nat): Option<Cursor> {
    if |r.traces| == limit then r.next else None
  }

  datatype Answer = Answer(traces: seq<Summary>, nextCursor: Option<string>)

  /** What a result is answered with. */
  function Answered(r: Result<ListResult, Failure>, limit: nat, hash: string, codec: Codec): Result<Answer, Refused> {
    match r
    case Err(_) => Err(Unavailable)
    case Ok(page) =>
      Ok(Answer(page.traces,
                match NextCursor(page, limit) case None => None case Some(c) => Some(codec.encode(c, hash))))
  }

  /** The tree of a filter that is accepted; an empty filter has none. */
  ghost predicate FilterTree(t: Option<SqlSyntax.Ast>, cs: seq<Condition>, fields: seq<Field>) {
    if cs == [] then t.None?
    else t.Some? && SqlRoundTrip.Wf(t.value) && Built(cs, fields) == Ok(FragmentOf(t.value))
  }

  function CursorOf(cursor: string, codec: Codec): Option<Cursor>
    requires cursor == "" || codec.decode(cursor).Some?
  {
    if cursor == "" then None else Some(codec.decode(cursor).value.0)
  }

  /** The answer to a list request: its fault, or one page read for the session with its filter from where its cursor
      stands. */
  ghost predicate ListAnswered(
    r: Result<Answer, Refused>, conn: Connection, snapshot: Option<AccessModel.Snapshot>, sess: Session, w: Window,
    cs: seq<Condition>, cursor: string, limit: nat, codec: Codec)
  {
    match Fault(snapshot, cs, cursor, [], codec)
    case Some(why) => r == Err(why)
    case None =>
      exists q, t ::
        && Access.Assembled(q, sess, snapshot.value) && FilterTree(t, cs, snapshot.value.schema.fields)
        && r == Answered(ListOf(conn, q, w, t, CursorOf(cursor, codec), limit), limit, FilterHash(cs, codec), codec)
  }

  /** Answers a list request. */
  method ListTraces(
    reader: TraceReader, snapshot: Option<AccessModel.Snapshot>, sess: Session, w: Window, cs: seq<Condition>,
    cursor: string, limit: nat, codec: Codec)
    returns (r: Result<Answer, Refused>)
    ensures ListAnswered(r, reader.conn, snapshot, sess, w, cs, cursor, limit, codec)
  {
    hide ListOf, Built, Access.Assembled, CanonicalOf;
    var cur: Option<Cursor>, curFilter := None, "";
    if cursor != "" {
      var decoded := codec.decode(cursor);
      if decoded.None? { return Err(MalformedCursor); }
      cur, curFilter := Some(decoded.value.0), decoded.value.1;
    }
    var fh := "";
    if |cs| > 0 {
      var canonical := Canonical(cs, codec.json);
      fh := codec.digest(canonical);
    }
    if cur.Some? && curFilter != fh { return Err(OtherFilter); }
    if snapshot.None? { return Err(NotReady); }
    var q := Assemble(sess, snapshot.value);
    if q.None? { return Err(NotReady); }
    var pred: Option<Fragment> := None;
    ghost var t: Option<SqlSyntax.Ast> := None;
    if |cs| > 0 {
      var built := Build(cs, snapshot.value.schema.fields);
      if built.Err? { return Err(BadFilter(built.error)); }
      pred := Some(built.value);
      ghost var tree := BuildMeaning(cs, snapshot.value.schema.fields);
      t := Some(tree);
    }
    var res := reader.List(q.value, w, pred, cur, limit, t);
    assert FilterTree(t, cs, snapshot.value.schema.fields);
    assert cur == CursorOf(cursor, codec);
    if res.Err? { return Err(Unavailable); }
    var next: Option<string> := None;
    if res.value.next.Some? && |res.value.traces| == limit {
      next := Some(codec.encode(res.value.next.value, fh));
    }
    return Ok(Answer(res.value.traces, next));
  }

  // ---- following the cursors of the list ---------------------------------------------------------------------

  /** Where a client goes on after some pages. */
  function Onward(pages: seq<ListResult>, limit: nat): Option<Cursor> {
    if pages == [] then None else NextCursor(pages[|pages| - 1], limit)
  }

  /** The pages of a client that starts without a cursor and sends each one it gets. */
  ghost predicate Scrolls(
    conn: Connection, q: Request, w: Window, t: Option<SqlSyntax.Ast>, limit: nat, pages: seq<ListResult>)
  {
    pages == [] ||
    (var before := pages[..|pages| - 1];
     && Scrolls(conn, q, w, t, limit, before) && (before != [] ==> Onward(before, limit).Some?)
     && ListOf(conn, q, w, t, Onward(before, limit), limit) == Ok(pages[|pages| - 1]))
  }

  function Listing(pages: seq<ListResult>): seq<seq<Cursor>> {
    if pages == [] then [] else Listing(pages[..|pages| - 1]) + [PositionsOf(pages[|pages| - 1].traces)]
  }

  /** One page more. */
  lemma FollowsMore(listing: seq<seq<Cursor>>, page: seq<Cursor>, all: set<Cursor>, limit: nat)
    requires Follows(listing, all, limit) && (listing == [] || |listing[|listing| - 1]| == limit)
    requires IsPage(page, all, At(Flatten(listing)), limit)
    ensures Follows(listing + [page], all, limit)
  {
    hide IsPage, Flatten, At;
    var more := listing + [page];
    forall i | 0 <= i < |more| ensures IsPage(more[i], all, At(Flatten(more[..i])), limit) {
      assert more[..i] == listing[..i];
      if i == |listing| { assert listing[..i] == listing; }
    }
  }

  lemma FlattenEnds(listing: seq<seq<Cursor>>)
    requires listing != [] && listing[|listing| - 1] != []
    ensures At(Flatten(listing)) == Some(listing[|listing| - 1][|listing[|listing| - 1]| - 1])
  {
  }

  /** Whoever follows the cursors of the list scrolls: each page is the one after all that came before. */
  lemma {:induction false} ListFollows(
    conn: Connection, conv: Conv, db: Db, q: Request, w: Window, t: Option<SqlSyntax.Ast>, matches: Row -> bool,
    limit: nat, pages: seq<ListResult>)
    requires Faithful(conn, conv, db) && Readable(q, db) && FilterIs(t, matches, conv, db, TableRows(q, db))
    requires limit >= 1 && Scrolls(conn, q, w, t, limit, pages)
    ensures Follows(Listing(pages), Positions(q.binding, w, TableRows(q, db), PermitsOf(q, conv), matches), limit)
    ensures |Listing(pages)| == |pages|
    ensures pages != [] ==>
      (var last := pages[|pages| - 1];
       && last == ResultOf(last.traces) && |last.traces| <= limit
       && Listing(pages)[|pages| - 1] == PositionsOf(last.traces))
    decreases |pages|
  {
    hide ListOf, Faithful, FilterIs, Positions, PermitsOf, Truthful, TableRows, Follows, Flatten;
    var all := Positions(q.binding, w, TableRows(q, db), PermitsOf(q, conv), matches);
    if pages == [] {
      assert Follows([], all, limit) by { FollowsNothing(all, limit); }
    } else {
      var before, last := pages[..|pages| - 1], pages[|pages| - 1];
      ListFollows(conn, conv, db, q, w, t, matches, limit, before);
      ListAnswers(conn, conv, db, q, w, t, matches, Onward(before, limit), limit);
      if before == [] { FlattenNothing(); } else { FlattenEnds(Listing(before)); }
      FollowsMore(Listing(before), PositionsOf(last.traces), all, limit);
    }
  }

  lemma FollowsNothing(all: set<Cursor>, limit: nat)
    ensures Follows([], all, limit)
  {
  }

  lemma FlattenNothing()
    ensures At(Flatten([])) == None
  {
  }

  /** Following the cursors of the list until there is none lists every visible trace that matches exactly once,
      newest first. */
  lemma ListVisitsAll(
    conn: Connection, conv: Conv, db: Db, q: Request, w: Window, t: Option<SqlSyntax.Ast>, matches: Row -> bool,
    limit: nat, pages: seq<ListResult>)
    requires Faithful(conn, conv, db) && Readable(q, db) && FilterIs(t, matches, conv, db, TableRows(q, db))
    requires limit >= 1 && Scrolls(conn, q, w, t, limit, pages) && pages != [] && Onward(pages, limit).None?
    ensures var all := Positions(q.binding, w, TableRows(q, db), PermitsOf(q, conv), matches);
      && Descending(Flatten(Listing(pages)))
      && (forall c :: c in Flatten(Listing(pages)) <==> c in all) && |Flatten(Listing(pages))| == |all|
  {
    hide ListOf, Faithful, FilterIs, Positions, PermitsOf, TableRows, Follows, Flatten, Scrolls, Listing;
    ListFollows(conn, conv, db, q, w, t, matches, limit, pages);
    ScrollVisitsAll(Listing(pages), Positions(q.binding, w, TableRows(q, db), PermitsOf(q, conv), matches), limit);
  }

  /** And it ends: all pages but the last are full, so there are only so many. */
  lemma ListEnds(
    conn: Connection, conv: Conv, db: Db, q: Request, w: Window, t: Option<SqlSyntax.Ast>, matches: Row -> bool,
    limit: nat, pages: seq<ListResult>)
    requires Faithful(conn, conv, db) && Readable(q, db) && FilterIs(t, matches, conv, db, TableRows(q, db))
    requires limit >= 1 && Scrolls(conn, q, w, t, limit, pages) && pages != []
    ensures (|pages| - 1) * limit <= |Positions(q.binding, w, TableRows(q, db), PermitsOf(q, conv), matches)|
  {
    hide ListOf, Faithful, FilterIs, Positions, PermitsOf, IsPage, TableRows, Listing, Flatten, Scrolls;
    var all := Positions(q.binding, w, TableRows(q, db), PermitsOf(q, conv), matches);
    ListFollows(conn, conv, db, q, w, t, matches, limit, pages);
    var listing := Listing(pages);
    AllButLast(listing, all, limit);
    ScrollEnds(listing[..|listing| - 1], all, limit);
  }

  lemma AllButLast(listing: seq<seq<Cursor>>, all: set<Cursor>, limit: nat)
    requires Follows(listing, all, limit) && listing != []
    ensures var full := listing[..|listing| - 1];
      Follows(full, all, limit) && forall i :: 0 <= i < |full| ==> |full[i]| == limit
  {
    hide IsPage, Flatten, At;
    var full := listing[..|listing| - 1];
    forall i | 0 <= i < |full| ensures IsPage(full[i], all, At(Flatten(full[..i])), limit) {
      assert full[i] == listing[i] && full[..i] == listing[..i];
    }
  }
}
