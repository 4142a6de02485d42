/** Exporting everything a caller may see: a client follows the cursors of the span pages to a file, and
    publishes the file only once it has the last page. */
module Export {
  import opened Basics
  import opened Schema
  import SqlSyntax
  import opened SqlSemantics
  import opened SqlRows
  import opened Traces
  import opened Reader
  import opened Visibility
  import opened ListMeaning
  import opened SpansMeaning
  import opened Access
  import opened Scroll
  import Json
  import opened Page

  // ---- the server ----------------------------------------------------------------------------------------

  /** What does not change while an export runs: the table, the caller, the window, the filter, the projection,
      and how rows and cursors are written. */
  datatype World = World(
    conn: Connection, conv: Conv, db: Db, q: Request, w: Window, filter: Option<SqlSyntax.Ast>, matches: Row -> bool,
    limit: nat, columns: Projection, binding: Json.Value, json: Row -> Option<Json.Value>,
    encode: Cursor -> string, decode: string -> Option<Cursor>)

  ghost predicate Sound(world: World) {
    && Faithful(world.conn, world.conv, world.db) && Readable(world.q, world.db)
    && FilterIs(world.filter, world.matches, world.conv, world.db, TableRows(world.q, world.db))
    && Usable(world.columns) && HasColumns(world.columns, TableRows(world.q, world.db))
    && world.limit >= 1
    && forall c :: world.encode(c) != "" && world.decode(world.encode(c)) == Some(c)
  }

  /** The position a request continues after. */
  function CursorOf(world: World, s: string): Option<Cursor> {
    if s == "" then None else world.decode(s)
  }

  function PageAt(world: World, s: string): Result<SpanPage, Failure> {
    SpansOf(world.conn, world.q, world.w, world.filter, CursorOf(world, s), world.limit, world.columns)
  }

  function NextText(world: World, page: SpanPage): Option<string> {
    match page.next case None => None case Some(c) => Some(world.encode(c))
  }

  /** A request fails outright, or its body arrives as far as the connection lasts. */
  datatype Reply = Failed | Body(text: Json.Stream)

  /** The beginning of some page, perhaps with a scrap of a torn string or number at its end. */
  ghost predicate CutOff(text: Json.Stream) {
    exists b, rows, next, k: nat, torn ::
      && k < |PageText(b, rows, next)| && |torn| <= 1 && (forall t: Json.JTok :: t in torn ==> t.Text? || t.Atom?)
      && text == Json.Onto(PageText(b, rows, next)[..k] + torn, Json.Nil)
  }

  ghost predicate WholePage(world: World, s: string, text: Json.Stream) {
    && PageAt(world, s).Ok?
    && var page := PageAt(world, s).value;
      && Encoded(page.rows, world.json).Some?
      && text == Json.Onto(PageText(world.binding, Encoded(page.rows, world.json).value, NextText(world, page)),
        Json.Nil)
  }

  /** The server answers every request with the page it asks for; any attempt may fail or be cut off. */
  ghost predicate Honest(world: World, serve: (nat, string) -> Reply) {
    forall n, s :: serve(n, s).Body? ==> WholePage(world, s, serve(n, s).text) || CutOff(serve(n, s).text)
  }

  /** A request can only ask for the first page or for one after a cursor that can be read. */
  predicate Answerable(world: World, s: string) {
    s == "" || world.decode(s).Some?
  }

  ghost predicate Undisturbed(world: World, serve: (nat, string) -> Reply) {
    forall n, s :: Answerable(world, s) ==> serve(n, s).Body? && WholePage(world, s, serve(n, s).text)
  }

  // ---- what an export has to hold --------------------------------------------------------------------------

  ghost function Everything(world: World): set<Cursor>
    requires Sound(world)
  {
    Positions(world.q.binding, world.w, TableRows(world.q, world.db), PermitsOf(world.q, world.conv), world.matches)
  }

  /** The traces the caller may see, matching the filter, with a span in the window. */
  predicate Visible(world: World, id: string)
    requires world.q.binding.table in world.db
  {
    Listed(world.q.binding, world.w, TableRows(world.q, world.db), PermitsOf(world.q, world.conv), world.matches, id)
  }

  predicate OfPositions(b: Binding, ps: seq<Cursor>, r: Row) {
    exists c :: c in ps && c.traceID == IdOf(b, r)
  }

  /** Every span of the traces at some positions. */
  ghost function SpansAt(world: World, ps: seq<Cursor>): seq<Row>
    requires world.q.binding.table in world.db
  {
    Select((r: Row) => OfPositions(world.q.binding, ps, r), TableRows(world.q, world.db))
  }

  ghost function VisibleSpans(world: World): seq<Row>
    requires world.q.binding.table in world.db
  {
    Select((r: Row) => Visible(world, IdOf(world.q.binding, r)), TableRows(world.q, world.db))
  }

  /** The lines of a file are some spans of the table, as they are shown, in some order. */
  ghost predicate Records(world: World, lines: seq<Json.Value>, order: seq<Row>) {
    Encoded(Map((r: Row) => Shown(world.columns, r), order), world.json) == Some(lines)
  }

  /** A file holds exactly some spans, each once. */
  ghost predicate HoldsExactly(world: World, lines: seq<Json.Value>, spans: seq<Row>) {
    exists order :: multiset(order) == multiset(spans) && Records(world, lines, order)
  }

  // ---- one page ------------------------------------------------------------------------------------------------

  lemma {:induction false} EncodedConcat(rows: seq<Row>, more: seq<Row>, json: Row -> Option<Json.Value>)
    requires Encoded(rows, json).Some? && Encoded(more, json).Some?
    ensures Encoded(rows + more, json) == Some(Encoded(rows, json).value + Encoded(more, json).value)
    decreases |more|
  {
    if more == [] {
      assert rows + more == rows;
      assert Encoded(rows, json).value + [] == Encoded(rows, json).value;
    } else {
      var n := |more| - 1;
      assert Encoded(more[..n], json).Some?;
      EncodedConcat(rows, more[..n], json);
      assert (rows + more)[..|rows + more| - 1] == rows + more[..n];
      var before := Encoded(rows, json).value;
      var all, last := Encoded(more[..n], json).value, json(more[n]).value;
      assert (before + all) + [last] == before + (all + [last]);
    }
  }

  lemma RecordsMore(
    world: World, lines: seq<Json.Value>, order: seq<Row>, more: seq<Json.Value>, page: seq<Row>)
    requires Records(world, lines, order) && Records(world, more, page)
    ensures Records(world, lines + more, order + page)
  {
    var show := (r: Row) => Shown(world.columns, r);
    MapConcat(show, order, page);
    EncodedConcat(Map(show, order), Map(show, page), world.json);
  }

  /** Splitting a selection in two loses nothing and counts nothing twice. */
  lemma {:induction false} SelectSplit<D>(p: D -> bool, q: D -> bool, both: D -> bool, s: seq<D>)
    requires forall x :: x in s ==> both(x) == (p(x) || q(x)) && !(p(x) && q(x))
    ensures multiset(Select(both, s)) == multiset(Select(p, s)) + multiset(Select(q, s))
  {
    if s != [] {
      assert s[0] in s;
      SelectSplit(p, q, both, s[1..]);
    }
  }

  /** What a whole page brings: the positions that come next, and every span of their traces. */
  lemma PageBrings(world: World, s: string, seen: seq<Cursor>) returns (page: seq<Cursor>, order: seq<Row>)
    requires Sound(world) && Covers(seen, Everything(world)) && CursorOf(world, s) == At(seen)
    ensures PageAt(world, s).Ok?
    ensures IsPage(page, Everything(world), At(seen), world.limit)
    ensures PageAt(world, s).value.rows == Map((r: Row) => Shown(world.columns, r), order)
    ensures multiset(order) == multiset(SpansAt(world, page))
    ensures PageAt(world, s).value.next == if |page| < world.limit then None else Some(page[|page| - 1])
  {
    hide IsPage, SpansOf, ListOf, Truthful, Covers, Faithful, FilterIs, HasColumns, SpanOrder, SpansAt, Shown, AllSpans,
      NoMarkers, Usable, Positions, Binding.Valid;
    var cur := CursorOf(world, s);
    var list := ListOf(world.conn, world.q, world.w, world.filter, cur, world.limit);
    ListAnswers(world.conn, world.conv, world.db, world.q, world.w, world.filter, world.matches, cur, world.limit);
    page := PositionsOf(list.value.traces);
    order := SpansAnswers(
      world.conn, world.conv, world.db, world.q, world.w, world.filter, world.matches, cur, world.limit, world.columns);
    SpansOfPage(world, list.value.traces);
  }

  lemma SpansOfPage(world: World, ts: seq<Summary>)
    requires world.q.binding.table in world.db
    ensures Select((r: Row) => IdOf(world.q.binding, r) in TraceIds(ts), TableRows(world.q, world.db))
      == SpansAt(world, PositionsOf(ts))
  {
    hide OfPositions;
    var b, rows := world.q.binding, TableRows(world.q, world.db);
    forall r | r in rows ensures (IdOf(b, r) in TraceIds(ts)) == OfPositions(b, PositionsOf(ts), r) {
      SamePositions(b, ts, r);
    }
    SelectAgrees((r: Row) => IdOf(b, r) in TraceIds(ts), (r: Row) => OfPositions(b, PositionsOf(ts), r), rows);
  }

  lemma SamePositions(b: Binding, ts: seq<Summary>, r: Row)
    ensures IdOf(b, r) in TraceIds(ts) <==> OfPositions(b, PositionsOf(ts), r)
  {
    if IdOf(b, r) in TraceIds(ts) {
      var i :| 0 <= i < |ts| && TraceIds(ts)[i] == IdOf(b, r);
      assert PositionsOf(ts)[i] in PositionsOf(ts);
    }
    if OfPositions(b, PositionsOf(ts), r) {
      var c :| c in PositionsOf(ts) && c.traceID == IdOf(b, r);
      var i :| 0 <= i < |ts| && PositionsOf(ts)[i] == c;
      assert TraceIds(ts)[i] == IdOf(b, r);
    }
  }

  // ---- from page to page -----------------------------------------------------------------------------------------

  /** A client has received the spans of some positions, all pages so far, and will continue after them. */
  ghost predicate Progress(world: World, s: string, seen: seq<Cursor>, lines: seq<Json.Value>)
    requires Sound(world)
  {
    Covers(seen, Everything(world)) && CursorOf(world, s) == At(seen)
      && HoldsExactly(world, lines, SpansAt(world, seen))
  }

  lemma TableIsThere(world: World)
    requires Sound(world)
    ensures world.q.binding.table in world.db
  {
  }

  lemma ProgressStarts(world: World)
    requires Sound(world)
    ensures Progress(world, "", [], [])
  {
    hide Sound, Positions;
    TableIsThere(world);
    NothingSeen(Everything(world));
    NoSpans(world);
    var none: seq<Row> := [];
    assert multiset(none) == multiset(SpansAt(world, [])) && Records(world, [], none);
  }

  lemma NoSpans(world: World)
    requires world.q.binding.table in world.db
    ensures SpansAt(world, []) == []
  {
    SelectNone((r: Row) => OfPositions(world.q.binding, [], r), TableRows(world.q, world.db));
  }

  /** No trace has two positions. */
  lemma OnePosition(world: World, c: Cursor, d: Cursor)
    requires Sound(world) && c in Everything(world) && d in Everything(world) && c.traceID == d.traceID
    ensures c == d
  {
    hide Sound, Listed;
    TableIsThere(world);
    var b, rows, permits := world.q.binding, TableRows(world.q, world.db), PermitsOf(world.q, world.conv);
    PositionOfTrace(b, world.w, rows, permits, world.matches, c);
    PositionOfTrace(b, world.w, rows, permits, world.matches, d);
  }

  lemma SpansTogether(world: World, seen: seq<Cursor>, page: seq<Cursor>)
    requires Sound(world)
    requires forall c :: c in seen + page ==> c in Everything(world)
    requires forall c :: c in page ==> c !in seen
    ensures multiset(SpansAt(world, seen + page)) == multiset(SpansAt(world, seen)) + multiset(SpansAt(world, page))
  {
    hide Sound, Everything;
    TableIsThere(world);
    var b := world.q.binding;
    var p, q, both := (r: Row) => OfPositions(b, seen, r), (r: Row) => OfPositions(b, page, r),
      (r: Row) => OfPositions(b, seen + page, r);
    forall r: Row ensures both(r) == (p(r) || q(r)) && !(p(r) && q(r)) {
      if p(r) && q(r) {
        var c :| c in seen && c.traceID == IdOf(b, r);
        var d :| d in page && d.traceID == IdOf(b, r);
        assert c in seen + page && d in seen + page;
        OnePosition(world, c, d);
      }
      if p(r) {
        var c :| c in seen && c.traceID == IdOf(b, r);
        assert c in seen + page;
      }
      if q(r) {
        var c :| c in page && c.traceID == IdOf(b, r);
        assert c in seen + page;
      }
    }
    SelectSplit(p, q, both, TableRows(world.q, world.db));
  }

  /** All positions together are the visible traces. */
  lemma SpansOfAll(world: World, ps: seq<Cursor>)
    requires Sound(world) && forall c :: c in ps <==> c in Everything(world)
    ensures SpansAt(world, ps) == VisibleSpans(world)
  {
    hide Sound, Listed;
    TableIsThere(world);
    var b, rows, permits := world.q.binding, TableRows(world.q, world.db), PermitsOf(world.q, world.conv);
    forall r | r in rows ensures OfPositions(b, ps, r) == Visible(world, IdOf(b, r)) {
      if OfPositions(b, ps, r) {
        var c :| c in ps && c.traceID == IdOf(b, r);
        PositionOfTrace(b, world.w, rows, permits, world.matches, c);
      }
      if Visible(world, IdOf(b, r)) {
        var c := Position(b, world.w, rows, IdOf(b, r));
        assert c.traceID == IdOf(b, r);
        PositionOfTrace(b, world.w, rows, permits, world.matches, c);
        assert c in ps;
      }
    }
    SelectAgrees((r: Row) => OfPositions(b, ps, r), (r: Row) => Visible(world, IdOf(b, r)), rows);
  }

  lemma HoldsMore(
    world: World, lines: seq<Json.Value>, spans: seq<Row>, more: seq<Json.Value>, page: seq<Row>, together: seq<Row>)
    requires HoldsExactly(world, lines, spans) && HoldsExactly(world, more, page)
    requires multiset(together) == multiset(spans) + multiset(page)
    ensures HoldsExactly(world, lines + more, together)
  {
    hide Records;
    var order :| multiset(order) == multiset(spans) && Records(world, lines, order);
    var pageOrder :| multiset(pageOrder) == multiset(page) && Records(world, more, pageOrder);
    RecordsMore(world, lines, order, more, pageOrder);
    assert multiset(order + pageOrder) == multiset(together);
  }

  lemma HoldsAsMany(world: World, lines: seq<Json.Value>, spans: seq<Row>)
    requires HoldsExactly(world, lines, spans)
    ensures |lines| == |spans|
  {
    var order :| multiset(order) == multiset(spans) && Records(world, lines, order);
    MultisetMembers(order, spans);
  }

  /** A whole page takes the client one page further: nothing is missed and nothing comes twice. */
  lemma ProgressPage(world: World, s: string, seen: seq<Cursor>, lines: seq<Json.Value>) returns (page: seq<Cursor>)
    requires Sound(world) && Progress(world, s, seen, lines)
    requires PageAt(world, s).Ok? && Encoded(PageAt(world, s).value.rows, world.json).Some?
    ensures var rows, next := Encoded(PageAt(world, s).value.rows, world.json).value, PageAt(world, s).value.next;
      && |page| <= world.limit
      && HoldsExactly(world, lines + rows, SpansAt(world, seen + page))
      && Covers(seen + page, Everything(world))
      && (next.Some? ==>
           && Progress(world, world.encode(next.value), seen + page, lines + rows) && next.value !in seen
           && |page| == world.limit && next.value in page
           && |Remaining(Everything(world), seen + page)| < |Remaining(Everything(world), seen)|)
      && (next.None? ==> |page| < world.limit && forall c :: c in Everything(world) <==> c in seen + page)
  {
    hide PageAt, Everything, SpansAt, Shown, Covers, IsPage, Remaining, Descending, Encoded;
    var order;
    page, order := PageBrings(world, s, seen);
    PageExtends(seen, Everything(world), page, world.limit);
    NewPositions(world, seen, page);
    SpansTogether(world, seen, page);
    var rows := Encoded(PageAt(world, s).value.rows, world.json).value;
    assert Records(world, rows, order);
    HoldsMore(world, lines, SpansAt(world, seen), rows, SpansAt(world, page), SpansAt(world, seen + page));
    PageBounded(page, Everything(world), At(seen), world.limit);
    if |page| < world.limit {
      ShortPageEnds(seen, Everything(world), page, world.limit);
    } else {
      var last := page[|page| - 1];
      assert last in page;
      assert At(seen + page) == Some(last);
    }
  }

  lemma PageBounded(page: seq<Cursor>, all: set<Cursor>, cur: Option<Cursor>, limit: nat)
    requires IsPage(page, all, cur, limit)
    ensures |page| <= limit
  {
  }

  lemma NewPositions(world: World, seen: seq<Cursor>, page: seq<Cursor>)
    requires Sound(world) && Covers(seen, Everything(world)) && IsPage(page, Everything(world), At(seen), world.limit)
    ensures forall c :: c in seen + page ==> c in Everything(world)
    ensures forall c :: c in page ==> c !in seen
  {
    hide Sound, Everything;
    forall c | c in page ensures c !in seen { NotSeen(seen, c); }
  }

  // ---- the export ----------------------------------------------------------------------------------------------

  datatype Published = Published(lines: seq<Json.Value>, binding: Option<Json.Value>, pages: nat, spans: nat)

  datatype ExportSummary = ExportSummary(pages: nat, spans: nat)

  datatype ExportError = RequestFailed | BadPage | RepeatedCursor

  /** What an attempt brings: the page it was asked for, or an error. */
  lemma ReplyReads(world: World, serve: (nat, string) -> Reply, n: nat, s: string)
    requires Honest(world, serve) && serve(n, s).Body?
    ensures ReadPage(serve(n, s).text).Some? ==>
      && WholePage(world, s, serve(n, s).text)
      && ReadPage(serve(n, s).text).value
           == Content(Some(world.binding), Encoded(PageAt(world, s).value.rows, world.json).value,
                      match PageAt(world, s).value.next case None => "" case Some(c) => world.encode(c))
    ensures WholePage(world, s, serve(n, s).text) ==> ReadPage(serve(n, s).text).Some?
  {
    hide PageAt, ReadPage, PageText;
    var text := serve(n, s).text;
    if WholePage(world, s, text) {
      PageReadBack(world.binding, Encoded(PageAt(world, s).value.rows, world.json).value,
        NextText(world, PageAt(world, s).value));
    } else {
      var b, rows, next, k: nat, torn :| k < |PageText(b, rows, next)| && |torn| <= 1
        && (forall t: Json.JTok :: t in torn ==> t.Text? || t.Atom?)
        && text == Json.Onto(PageText(b, rows, next)[..k] + torn, Json.Nil);
      CutIsRejected(b, rows, next, k, torn);
    }
  }

  /** A server that streams the page it is asked for is honest, however its run and the connection end: what
      arrives of it is the page or the beginning of one. */
  lemma WriterIsHonest(
    world: World, s: string, rows: SpanRows<Row>, sent: seq<Json.JTok>, n: nat, torn: seq<Json.JTok>)
    requires PageAt(world, s).Ok? && rows.rows == PageAt(world, s).value.rows
    requires rows.next == NextText(world, PageAt(world, s).value)
    requires IsCut(sent) || IsWhole(sent, Some(world.binding), rows, world.json)
    requires n <= |sent| && |torn| <= 1 && (forall t: Json.JTok :: t in torn ==> t.Text? || t.Atom?)
    ensures CutOff(Json.Onto(sent[..n] + torn, Json.Nil))
      || (n == |sent| && (torn != [] || WholePage(world, s, Json.Onto(sent, Json.Nil))))
  {
    hide PageText, PageAt;
    if IsCut(sent) {
      var b, js, next :| sent < PageText(b, js, next);
      assert sent[..n] == PageText(b, js, next)[..n];
    } else if n < |sent| {
      assert sent[..n] == PageText(world.binding, Encoded(rows.rows, world.json).value, rows.next)[..n];
    }
  }

  class Exporter {
    var published: Option<Published>
    const room: nat

    constructor (room: nat)
      ensures published.None? && this.room == room
    {
      published, this.room := None, room;
    }

    /** Follows the cursors to a partial file, page after page, and publishes the file after the last one. It
        always ends, never mistakes a scroll for a loop, and publishes nothing but the whole: every span of
        every visible trace, each once. */
    method Run(serve: (nat, string) -> Reply, ghost world: World) returns (r: Result<ExportSummary, ExportError>)
      requires Sound(world) && Honest(world, serve)
      modifies this
      ensures r.Ok? ==>
        (published.Some?
        && HoldsExactly(world, published.value.lines, VisibleSpans(world))
        && r.value == ExportSummary(published.value.pages, published.value.spans)
        && published.value.spans == |published.value.lines| == |VisibleSpans(world)|
        && published.value.binding == Some(world.binding))
      ensures r.Ok? ==> (r.value.pages - 1) * world.limit <= |Everything(world)| < r.value.pages * world.limit
      ensures r.Err? ==> published == old(published) && r.error != RepeatedCursor
      ensures Undisturbed(world, serve) && room >= |VisibleSpans(world)| ==> r.Ok?
    {
      hide Sound, Honest, Progress, Everything, PageAt, ReadPage, HoldsExactly, SpansAt, VisibleSpans, WholePage,
        Undisturbed,
        Encoded, Remaining, Covers;
      var file := new File(room);
      var cursor, seen, pages, spans := "", {}, 0, 0;
      var binding: Option<Json.Value> := None;
      ghost var visited: seq<Cursor> := [];
      TableIsThere(world);
      ProgressStarts(world);
      while true
        invariant fresh(file) && published == old(published)
        invariant Progress(world, cursor, visited, file.lines)
        invariant Answerable(world, cursor)
        invariant |file.lines| == spans && spans + file.room == room
        invariant forall x :: x in seen ==> exists c :: c in visited && x == world.encode(c)
        invariant |visited| == pages * world.limit
        invariant binding == if pages > 0 then Some(world.binding) else None
        decreases |Remaining(Everything(world), visited)|
      {
        var reply := serve(pages, cursor);
        if reply.Failed? {
          NeverFails(world, serve, pages, cursor);
          return Err(RequestFailed);
        }
        ReplyReads(world, serve, pages, cursor);
        ghost var before, left := file.lines, file.room;
        var page := DecodePage(reply.text, file);
        if page.Err? {
          FitsWhole(world, serve, pages, cursor, visited, before, left);
          return Err(BadPage);
        }
        PageIsWhole(world, cursor, reply.text);
        ghost var more := ProgressPage(world, cursor, visited, before);
        ghost var next := PageAt(world, cursor).value.next;
        if binding.None? { binding := page.value.binding; }
        pages, spans := pages + 1, spans + page.value.count;
        Exact(world, next);
        if page.value.next == "" {
          SpansOfAll(world, visited + more);
          CountAll(world, visited + more);
          Times(pages - 1, world.limit);
          break;
        }
        if page.value.next in seen {
          Again(world, visited, next.value, page.value.next);
          return Err(RepeatedCursor);
        }
        seen, cursor := seen + {page.value.next}, page.value.next;
        Times(pages - 1, world.limit);
        visited := visited + more;
      }
      HoldsAsMany(world, file.lines, VisibleSpans(world));
      published := Some(Published(file.lines, binding, pages, spans));
      return Ok(ExportSummary(pages, spans));
    }
  }

  lemma Times(n: nat, m: nat)
    ensures (n + 1) * m == n * m + m
  {
  }

  lemma PageIsWhole(world: World, s: string, text: Json.Stream)
    requires WholePage(world, s, text)
    ensures PageAt(world, s).Ok? && Encoded(PageAt(world, s).value.rows, world.json).Some?
  {
  }

  lemma Exact(world: World, next: Option<Cursor>)
    requires Sound(world)
    ensures world.limit >= 1
    ensures next.Some? ==> world.encode(next.value) != "" && Answerable(world, world.encode(next.value))
  {
  }

  lemma NeverFails(world: World, serve: (nat, string) -> Reply, n: nat, s: string)
    requires Answerable(world, s) && serve(n, s).Failed?
    ensures !Undisturbed(world, serve)
  {
  }

  lemma {:induction false} SelectFewer<D>(p: D -> bool, q: D -> bool, s: seq<D>)
    requires forall x :: x in s && p(x) ==> q(x)
    ensures |Select(p, s)| <= |Select(q, s)|
  {
    if s != [] {
      assert s[0] in s;
      SelectFewer(p, q, s[1..]);
    }
  }

  lemma SpansFewer(world: World, ps: seq<Cursor>)
    requires Sound(world) && forall c :: c in ps ==> c in Everything(world)
    ensures |SpansAt(world, ps)| <= |VisibleSpans(world)|
  {
    hide Sound, Listed;
    TableIsThere(world);
    var b, rows, permits := world.q.binding, TableRows(world.q, world.db), PermitsOf(world.q, world.conv);
    forall r | r in rows && OfPositions(b, ps, r) ensures Visible(world, IdOf(b, r)) {
      var c :| c in ps && c.traceID == IdOf(b, r);
      PositionOfTrace(b, world.w, rows, permits, world.matches, c);
    }
    SelectFewer((r: Row) => OfPositions(b, ps, r), (r: Row) => Visible(world, IdOf(b, r)), rows);
  }

  /** Without disturbance a page only fails to fit a file that is too small for the export. */
  lemma FitsWhole(
    world: World, serve: (nat, string) -> Reply, n: nat, s: string, visited: seq<Cursor>, before: seq<Json.Value>,
    left: nat)
    requires Sound(world) && Honest(world, serve) && Progress(world, s, visited, before)
    requires Answerable(world, s) && serve(n, s).Body?
    requires ReadPage(serve(n, s).text).Some? ==> |ReadPage(serve(n, s).text).value.rows| > left
    ensures Undisturbed(world, serve) ==> |before| + left < |VisibleSpans(world)|
  {
    hide Sound, Honest, PageAt, ReadPage, SpansAt, VisibleSpans, Everything, Encoded, Covers, HoldsExactly, Remaining,
      PageText;
    TableIsThere(world);
    if Undisturbed(world, serve) {
      ReplyReads(world, serve, n, s);
      PageIsWhole(world, s, serve(n, s).text);
      var page := ProgressPage(world, s, visited, before);
      HoldsAsMany(world, before + Encoded(PageAt(world, s).value.rows, world.json).value,
        SpansAt(world, visited + page));
      CoversMembers(visited + page, Everything(world));
      SpansFewer(world, visited + page);
    }
  }

  lemma CoversMembers(seen: seq<Cursor>, all: set<Cursor>)
    requires Covers(seen, all)
    ensures forall c :: c in seen ==> c in all
  {
  }

  /** A cursor already sent belongs to a position already received. */
  lemma Again(world: World, visited: seq<Cursor>, c: Cursor, s: string)
    requires Sound(world) && s == world.encode(c) && exists d :: d in visited && s == world.encode(d)
    ensures c in visited
  {
    var d :| d in visited && s == world.encode(d);
    assert world.decode(world.encode(c)) == Some(c) && world.decode(world.encode(d)) == Some(d);
  }

  lemma CountAll(world: World, ps: seq<Cursor>)
    requires Sound(world) && Covers(ps, Everything(world)) && forall c :: c in Everything(world) <==> c in ps
    ensures |ps| == |Everything(world)|
  {
    hide Sound, Everything;
    OnceEach(ps, Everything(world));
  }
}
