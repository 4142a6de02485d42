/** The statements that return spans: whole traces, and only those with a span the policy admits. */
module SpansMeaning {
  import opened Basics
  import opened Order
  import opened Schema
  import opened SqlSyntax
  import opened SqlText
  import opened SqlSemantics
  import opened SqlRows
  import opened Expression
  import opened ExpressionMeaning
  import opened Traces
  import opened Reader
  import opened Visibility
  import opened ListMeaning

  /** The table has none of the statement's own columns. */
  predicate NoMarkers(rows: seq<Row>) {
    forall r :: r in rows ==> TRACE_START !in r && PERMITTED !in r
  }

  /** Every row has every column of a projection. */
  predicate HasColumns(columns: seq<string>, rows: seq<Row>) {
    forall r, c :: r in rows && c in columns ==> c in r
  }

  /** The trace has a span the policy admits, anywhere in the table. */
  predicate Open(b: Binding, rows: seq<Row>, permits: Row -> bool, id: string) {
    Some_(permits, Whole(b, rows, id))
  }

  function IdOf(b: Binding, r: Row): string {
    if b.traceID in r && r[b.traceID].Str? then r[b.traceID].s else ""
  }

  /** The columns of a row that a projection asks for; all of them if it is empty. */
  function Shown(columns: Projection, r: Row): Row {
    if columns == [] then r else map c | c in columns && c in r :: r[c]
  }

  // ---- sums over a trace ----------------------------------------------------------------------------------

  lemma {:induction false} SumPositive(ds: seq<Datum>)
    requires forall d :: d in ds ==> Flag(d)
    ensures SumOf(ds).Null? || (SumOf(ds).Num? && SumOf(ds).n >= 0.0)
    ensures (SumOf(ds).Num? && SumOf(ds).n > 0.0) <==> exists d :: d in ds && IsTrue(d)
  {
    if ds != [] {
      assert ds == [ds[0]] + ds[1..] && Flag(ds[0]);
      SumPositive(ds[1..]);
    }
  }

  /** What sum(p) OVER a trace says: positive exactly if some span of the trace is admitted. */
  predicate SumSays(d: Datum, some: bool) {
    (d.Null? || d.Num?) && ((d.Num? && d.n > 0.0) <==> some)
  }

  lemma WholeIs(b: Binding, rows: seq<Row>, r: Row)
    requires AllSpans(b, rows) && r in rows
    ensures b.traceID in r && Partition(b.traceID, r[b.traceID], rows) == Whole(b, rows, IdOf(b, r))
    ensures r in Whole(b, rows, IdOf(b, r))
  {
    var id := IdOf(b, r);
    PartitionIs(b.traceID, r[b.traceID], rows, (x: Row) => OfTrace(b, id, x));
    SelectIs((x: Row) => OfTrace(b, id, x), rows);
  }

  lemma OverEval(fn: Fn, a: Ast, p: string, c: Ctx)
    requires p in c.row
    ensures Eval(Over(fn, One(a), p), c) == Aggregate(fn, Values(a, c, Partition(p, c.row[p], c.group)))
  {
  }

  lemma SumOver(b: Binding, p: Ast, permits: Row -> bool, rows: seq<Row>, c: Ctx)
    requires AllSpans(b, rows) && c.group == rows && c.row in rows
    requires Says(p, permits, c.conv, c.db, rows)
    ensures SumSays(Eval(Over(Sum, One(p), b.traceID), c), Some_(permits, Whole(b, rows, IdOf(b, c.row))))
  {
    WholeIs(b, rows, c.row);
    OverEval(Sum, p, b.traceID, c);
    var spans := Whole(b, rows, IdOf(b, c.row));
    SelectIs((x: Row) => OfTrace(b, IdOf(b, c.row), x), rows);
    ValuesSay(p, permits, rows, spans, c);
  }

  lemma ValuesSay(p: Ast, permits: Row -> bool, rows: seq<Row>, spans: seq<Row>, c: Ctx)
    requires Says(p, permits, c.conv, c.db, rows) && forall r :: r in spans ==> r in rows
    ensures SumSays(Aggregate(Sum, Values(p, c, spans)), Some_(permits, spans))
  {
    hide Eval, Values, SumOf;
    var ds := Values(p, c, spans);
    forall i | 0 <= i < |ds| ensures Flag(ds[i]) && (IsTrue(ds[i]) <==> permits(spans[i])) {
      assert ds[i] == Eval(p, c.(row := spans[i]));
    }
    SumPositive(ds);
    if Some_(permits, spans) {
      var r :| r in spans && permits(r);
      var i :| 0 <= i < |spans| && spans[i] == r;
      assert ds[i] in ds;
    }
  }

  lemma MinOver(b: Binding, rows: seq<Row>, c: Ctx)
    requires AllSpans(b, rows) && c.group == rows && c.row in rows
    ensures Eval(Over(Min, One(Col(b.timestamp)), b.traceID), c) == Num(Earliest(b, Whole(b, rows, IdOf(b, c.row))))
  {
    WholeIs(b, rows, c.row);
    OverEval(Min, Col(b.timestamp), b.traceID, c);
    SelectIs((x: Row) => OfTrace(b, IdOf(b, c.row), x), rows);
    MinIs(b, c, Whole(b, rows, IdOf(b, c.row)));
  }

  // ---- projections -------------------------------------------------------------------------------------------

  lemma {:induction false} NamesProject(cols: seq<string>, c: Ctx)
    requires cols != [] && forall n :: n in cols ==> n in c.row
    ensures Project(Names(cols), c) == Some(map n | n in cols && n in c.row :: c.row[n])
  {
    assert cols[0] in cols;
    if |cols| > 1 {
      NamesProject(cols[1..], c);
      ProjectMore(Name(cols[0]), Names(cols[1..]), c);
      var rest: Row := map n | n in cols[1..] && n in c.row :: c.row[n];
      assert cols == [cols[0]] + cols[1..];
      assert map[cols[0] := c.row[cols[0]]] + rest == map n | n in cols && n in c.row :: c.row[n];
    } else {
      assert cols == [cols[0]];
      assert map[cols[0] := c.row[cols[0]]] == map n | n in cols && n in c.row :: c.row[n];
    }
  }

  lemma {:induction false} ThenProject(items: Items, rest: Items, c: Ctx)
    requires Project(items, c).Some? && Project(rest, c).Some?
    ensures Project(Then(items, rest), c) == Some(Project(items, c).value + Project(rest, c).value)
  {
    match items
    case Last(i) => ProjectMore(i, rest, c);
    case More(i, more) =>
      ThenProject(more, rest, c);
      ProjectMore(i, Then(more, rest), c);
      var r, m, x := ProjectItem(i, c).value, Project(more, c).value, Project(rest, c).value;
      assert r + (m + x) == (r + m) + x;
  }

  /** The row the inner SELECT list yields: at least the asked columns, the trace id and the time. */
  function Inner(b: Binding, columns: Projection, r: Row): Row {
    if columns == [] then r
    else
      var cols := Widened(Widened([], columns), [b.traceID, b.timestamp]);
      map n | n in cols && n in r :: r[n]
  }

  lemma InnerProject(b: Binding, columns: Projection, c: Ctx)
    requires Usable(columns) && b.Valid() && IsSpan(b, c.row) && HasColumns(columns, [c.row])
    ensures Project(InnerItems(columns, [b.traceID, b.timestamp]), c) == Some(Inner(b, columns, c.row))
    ensures var r := Inner(b, columns, c.row);
      IsSpan(b, r) && r[b.traceID] == c.row[b.traceID] && r[b.timestamp] == c.row[b.timestamp]
    ensures Shown(columns, Inner(b, columns, c.row)) == Shown(columns, c.row)
    ensures HasColumns(columns, [Inner(b, columns, c.row)])
    ensures forall n :: n in Inner(b, columns, c.row) ==> n in c.row
  {
    if columns != [] {
      var asked := Widened([], columns);
      var cols := Widened(asked, [b.traceID, b.timestamp]);
      WidenedKeeps([], columns);
      WidenedKeeps(asked, [b.traceID, b.timestamp]);
      assert c.row in [c.row];
      assert asked[0] in cols;
      NamesProject(cols, c);
    }
  }

  lemma OuterProject(columns: Projection, hidden: seq<string>, r: Row, c: Ctx)
    requires Usable(columns) && HasColumns(columns, [r])
    requires forall n :: n in hidden ==> n !in r
    requires exists m: Row :: c.row == r + m && (forall n :: n in m <==> n in hidden)
    ensures Project(OuterItems(columns, hidden), c) == Some(Shown(columns, r))
  {
    var m: Row :| c.row == r + m && (forall n :: n in m <==> n in hidden);
    assert r in [r];
    if columns == [] {
      assert c.row - (set n | n in hidden) == r;
    } else {
      var cols := Widened([], columns);
      WidenedKeeps([], columns);
      NamesProject(cols, c);
      forall n | n in columns ensures n in r && n !in m && c.row[n] == r[n] {}
      assert (map n | n in cols && n in c.row :: c.row[n]) == Shown(columns, r);
    }
  }

  // ---- the subquery ------------------------------------------------------------------------------------------

  function MarkerItems(b: Binding, p: Ast, withStart: bool): Items {
    if withStart then More(StartItem(b), Last(PermittedItem(b, p))) else Last(PermittedItem(b, p))
  }

  /** The marker columns of a row, computed over the rows of its trace. */
  ghost function Markers(b: Binding, p: Ast, withStart: bool, c: Ctx, r: Row): Row {
    var trace := Whole(b, c.group, IdOf(b, r));
    (if withStart then map[TRACE_START := Num(Earliest(b, trace))] else map[])
    + map[PERMITTED := Aggregate(Sum, Values(p, c, trace))]
  }

  ghost function Marked(b: Binding, p: Ast, columns: Projection, withStart: bool, c: Ctx, r: Row): Row {
    Inner(b, columns, r) + Markers(b, p, withStart, c, r)
  }

  lemma ValuesRow(a: Ast, c: Ctx, row: Row, rows: seq<Row>)
    ensures Values(a, c.(row := row), rows) == Values(a, c, rows)
  {
    forall i | 0 <= i < |rows| ensures Values(a, c.(row := row), rows)[i] == Values(a, c, rows)[i] {
      assert c.(row := row).(row := rows[i]) == c.(row := rows[i]);
    }
  }

  lemma MarkersProject(b: Binding, p: Ast, permits: Row -> bool, withStart: bool, c: Ctx, r: Row)
    requires AllSpans(b, c.group) && r in c.group && Says(p, permits, c.conv, c.db, c.group)
    ensures Project(MarkerItems(b, p, withStart), c.(row := r)) == Some(Markers(b, p, withStart, c, r))
    ensures SumSays(Markers(b, p, withStart, c, r)[PERMITTED], Some_(permits, Whole(b, c.group, IdOf(b, r))))
  {
    hide Eval, Values;
    var here := c.(row := r);
    MinOver(b, c.group, here);
    SumOver(b, p, permits, c.group, here);
    WholeIs(b, c.group, r);
    OverEval(Sum, p, b.traceID, here);
    ValuesRow(p, c, r, Whole(b, c.group, IdOf(b, r)));
    var sum: Row := map[PERMITTED := Aggregate(Sum, Values(p, c, Whole(b, c.group, IdOf(b, r))))];
    assert Project(Last(PermittedItem(b, p)), here) == Some(sum);
    if withStart {
      ProjectMore(StartItem(b), Last(PermittedItem(b, p)), here);
    } else {
      assert map[] + sum == sum;
    }
  }

  lemma InnerRun(
    b: Binding, p: Ast, permits: Row -> bool, columns: Projection, withStart: bool, where: Ast, cond: Row -> bool,
    conv: Conv, db: Db, mark: Row -> Row)
    requires b.table in db && b.Valid() && AllSpans(b, db[b.table]) && Usable(columns)
    requires HasColumns(columns, db[b.table])
    requires Says(p, permits, conv, db, db[b.table])
    requires Keep(where, Ctx(conv, db, map[], []), db[b.table]) == Some(Select(cond, db[b.table]))
    requires var c := Ctx(conv, db, map[], Select(cond, db[b.table]));
      forall r :: r in c.group ==> mark(r) == Marked(b, p, columns, withStart, c, r)
    ensures Run(InnerQuery(b, InnerItems(columns, [b.traceID, b.timestamp]), MarkerItems(b, p, withStart), where),
      conv, db)
      == Some(Map(mark, Select(cond, db[b.table])))
  {
    hide Eval, Keep, Project, PlainEntries, MarkerItems, InnerItems, Inner, Markers, IsSpan;
    var rows := db[b.table];
    var kept := Select(cond, rows);
    SelectIs(cond, rows);
    var c := Ctx(conv, db, map[], kept);
    var columnsItems := InnerItems(columns, [b.traceID, b.timestamp]);
    var q := InnerQuery(b, columnsItems, MarkerItems(b, p, withStart), where);
    forall r | r in kept ensures Project(q.items, c.(row := r)) == Some(mark(r)) {
      InnerProject(b, columns, c.(row := r));
      MarkersProject(b, p, permits, withStart, c, r);
      ThenProject(columnsItems, MarkerItems(b, p, withStart), c.(row := r));
    }
    PlainEntriesAre(q.items, c, kept, mark);
    var es := PlainEntries(q.items, c, kept).value;
    SortNone(es);
    RunIs(q, conv, db, kept);
    assert Outs(es) == Map(mark, kept);
  }

  // ---- the statement around it ----------------------------------------------------------------------------------

  function OuterRow(columns: Projection, hidden: seq<string>, x: Row): Row {
    if columns == [] then x - (set n | n in hidden) else Shown(columns, x)
  }

  lemma Positive(x: Row, c: Ctx, some: bool)
    requires PERMITTED in x && SumSays(x[PERMITTED], some)
    ensures var d := Eval(Compare(Gt, Col(PERMITTED), Lit(0)), c.(row := x)); Logical(d) && (IsTrue(d) <==> some)
  {
    assert Eval(Lit(0), c.(row := x)) == Num(0.0);
    assert Eval(Col(PERMITTED), c.(row := x)) == x[PERMITTED];
  }

  function Hidden(withStart: bool): seq<string> {
    if withStart then [TRACE_START, PERMITTED] else [PERMITTED]
  }

  ghost function ShownEntry(columns: Projection, mark: Row -> Row, r: Row): Entry {
    Entry(Shown(columns, r), mark(r) + Shown(columns, r))
  }

  lemma MarkedParts(b: Binding, p: Ast, columns: Projection, withStart: bool, c: Ctx, r: Row)
    requires b.Valid() && Usable(columns) && IsSpan(b, r) && HasColumns(columns, [r]) && NoMarkers([r])
    ensures var m := Markers(b, p, withStart, c, r);
      && Marked(b, p, columns, withStart, c, r) == Inner(b, columns, r) + m
      && (forall n :: n in m <==> n in Hidden(withStart))
      && (forall n :: n in Hidden(withStart) ==> n !in Inner(b, columns, r))
    ensures HasColumns(columns, [Inner(b, columns, r)])
    ensures Shown(columns, Inner(b, columns, r)) == Shown(columns, r)
  {
    hide Values, Whole, Earliest, Inner;
    InnerProject(b, columns, c.(row := r));
    assert r in [r];
  }

  lemma OuterRowIs(b: Binding, p: Ast, columns: Projection, withStart: bool, c: Ctx, r: Row, d: Ctx)
    requires b.Valid() && Usable(columns) && IsSpan(b, r) && HasColumns(columns, [r]) && NoMarkers([r])
    requires d.row == Marked(b, p, columns, withStart, c, r)
    ensures Project(OuterItems(columns, Hidden(withStart)), d) == Some(Shown(columns, r))
    ensures OuterRow(columns, Hidden(withStart), d.row) == Shown(columns, r)
  {
    hide Markers, Hidden, Marked;
    MarkedParts(b, p, columns, withStart, c, r);
    var inner, m := Inner(b, columns, r), Markers(b, p, withStart, c, r);
    OuterProject(columns, Hidden(withStart), inner, d);
    ShownThrough(columns, Hidden(withStart), inner, m);
  }

  lemma ShownThrough(columns: Projection, hidden: seq<string>, inner: Row, m: Row)
    requires HasColumns(columns, [inner])
    requires (forall n :: n in m <==> n in hidden) && forall n :: n in hidden ==> n !in inner
    ensures OuterRow(columns, hidden, inner + m) == Shown(columns, inner)
  {
    assert inner in [inner];
    if columns == [] { assert (inner + m) - (set n | n in hidden) == inner; }
  }

  /** The rows of a subquery, once for each kept row, filtered by the marker, projected and sorted. */
  lemma OuterRun(
    b: Binding, p: Ast, permits: Row -> bool, columns: Projection, withStart: bool, kept: seq<Row>, inner: Query,
    keys: seq<Key>, conv: Conv, db: Db, mark: Row -> Row, open: Row -> bool)
    returns (order: seq<Row>)
    requires b.Valid() && AllSpans(b, kept) && Usable(columns) && HasColumns(columns, kept) && NoMarkers(kept)
    requires Says(p, permits, conv, db, kept)
    requires Run(inner, conv, db) == Some(Map(mark, kept))
    requires forall r :: r in kept ==> mark(r) == Marked(b, p, columns, withStart, Ctx(conv, db, map[], kept), r)
    requires forall r :: r in kept ==> open(r) == Some_(permits, Whole(b, kept, IdOf(b, r)))
    ensures multiset(order) == multiset(Select(open, kept))
    ensures order == SortBy(keys, (r: Row) => ShownEntry(columns, mark, r), Select(open, kept))
    ensures Run(OuterQuery(OuterItems(columns, Hidden(withStart)), inner, keys), conv, db)
      == Some(Map((r: Row) => Shown(columns, r), order))
  {
    hide Eval, Keep, Project, PlainEntries, OuterItems, Marked, SumSays, Run, Sort;
    var q := OuterQuery(OuterItems(columns, Hidden(withStart)), inner, keys);
    var c := Ctx(conv, db, map[], kept);
    var marked := Map(mark, kept);
    MarkedPositive(b, p, permits, columns, withStart, kept, conv, db, mark, open);
    var s := Select(open, kept);
    var shown := Map(mark, s);
    SelectIs(open, kept);
    var d := Ctx(conv, db, map[], shown);
    var out := (x: Row) => OuterRow(columns, Hidden(withStart), x);
    forall r | r in s
      ensures Project(q.items, d.(row := mark(r))) == Some(Shown(columns, r)) && out(mark(r)) == Shown(columns, r)
    {
      OuterRowIs(b, p, columns, withStart, c, r, d.(row := mark(r)));
    }
    forall x | x in shown ensures Project(q.items, d.(row := x)) == Some(out(x)) {
      var i :| 0 <= i < |shown| && shown[i] == x;
      assert x == mark(s[i]) && s[i] in s;
    }
    PlainEntriesAre(q.items, d, shown, out);
    var es := PlainEntries(q.items, d, shown).value;
    var f := (r: Row) => ShownEntry(columns, mark, r);
    assert es == Map(f, s) by {
      forall i | 0 <= i < |s| ensures es[i] == f(s[i]) { assert s[i] in s; }
    }
    SortMap(keys, f, s);
    order := SortBy(keys, f, s);
    FinishPlain(q, conv, db, shown, es);
    RunSub(q, conv, db, marked, shown);
    assert Outs(Map(f, order)) == Map((r: Row) => Shown(columns, r), order);
  }

  lemma RunSub(q: Query, conv: Conv, db: Db, rows: seq<Row>, kept: seq<Row>)
    requires q.from.Sub? && Run(q.from.q, conv, db) == Some(rows)
    requires Keep(q.where, Ctx(conv, db, map[], []), rows) == Some(kept)
    ensures Run(q, conv, db) == Finish(q, conv, db, kept)
  {
  }

  lemma FinishPlain(q: Query, conv: Conv, db: Db, kept: seq<Row>, es: seq<Entry>)
    requires !q.distinct && q.group.None? && q.limit.None?
    requires PlainEntries(q.items, Ctx(conv, db, map[], kept), kept) == Some(es)
    ensures Finish(q, conv, db, kept) == Some(Outs(Sort(q.order, es)))
  {
  }

  lemma MarkedPositive(
    b: Binding, p: Ast, permits: Row -> bool, columns: Projection, withStart: bool, kept: seq<Row>,
    conv: Conv, db: Db, mark: Row -> Row, open: Row -> bool)
    requires AllSpans(b, kept) && Says(p, permits, conv, db, kept)
    requires forall r :: r in kept ==> mark(r) == Marked(b, p, columns, withStart, Ctx(conv, db, map[], kept), r)
    requires forall r :: r in kept ==> open(r) == Some_(permits, Whole(b, kept, IdOf(b, r)))
    ensures Keep(Compare(Gt, Col(PERMITTED), Lit(0)), Ctx(conv, db, map[], []), Map(mark, kept))
      == Some(Map(mark, Select(open, kept)))
  {
    hide Eval, Keep, Values, Whole, Some_, SumSays, Project, Says;
    var c := Ctx(conv, db, map[], kept);
    var positive := (x: Row) => PERMITTED in x && x[PERMITTED].Num? && x[PERMITTED].n > 0.0;
    forall r | r in kept
      ensures PERMITTED in mark(r) && SumSays(mark(r)[PERMITTED], open(r)) && positive(mark(r)) == open(r)
    {
      MarkersProject(b, p, permits, withStart, c, r);
      SumIs(mark(r)[PERMITTED], open(r));
    }
    SelectMap(positive, mark, open, kept);
    var a := Compare(Gt, Col(PERMITTED), Lit(0));
    forall x | x in Map(mark, kept)
      ensures var d := Eval(a, Ctx(conv, db, map[], []).(row := x)); Logical(d) && (IsTrue(d) <==> positive(x))
    {
      var i :| 0 <= i < |kept| && Map(mark, kept)[i] == x;
      assert kept[i] in kept;
      Positive(x, Ctx(conv, db, map[], []), open(kept[i]));
    }
    KeepIs(a, Ctx(conv, db, map[], []), Map(mark, kept), positive);
  }

  lemma SumIs(d: Datum, some: bool)
    requires SumSays(d, some)
    ensures d.Num? && d.n > 0.0 <==> some
  {
  }

  // ---- the spans of a page ------------------------------------------------------------------------------------------

  /** The spans of those of some traces that the policy admits. */
  function Authorized(b: Binding, rows: seq<Row>, permits: Row -> bool, ids: seq<string>): seq<Row> {
    Select((r: Row) => IdOf(b, r) in ids && Open(b, rows, permits, IdOf(b, r)), rows)
  }

  /** Traces newest first, by the start of the whole trace; the spans of a trace in time order. */
  predicate SpanOrder(b: Binding, rows: seq<Row>, x: Row, y: Row) {
    var s, t := Cursor(Earliest(b, Whole(b, rows, IdOf(b, x))), IdOf(b, x)),
      Cursor(Earliest(b, Whole(b, rows, IdOf(b, y))), IdOf(b, y));
    Below(t, s) || (s == t && Time(b, x) <= Time(b, y))
  }

  lemma WholeKept(b: Binding, rows: seq<Row>, cond: Row -> bool, id: string)
    requires AllSpans(b, rows) && forall r :: r in rows && IdOf(b, r) == id ==> cond(r)
    ensures Whole(b, Select(cond, rows), id) == Whole(b, rows, id)
  {
    var ofTrace := (r: Row) => OfTrace(b, id, r);
    SelectTwice(ofTrace, cond, ofTrace, rows);
  }

  lemma IdsMembers(ids: seq<string>, id: string)
    ensures Str(id) in Ids(ids) <==> id in ids
    ensures forall d :: d in Ids(ids) ==> d.Str?
  {
    if ids != [] {
      IdsMembers(ids[1..], id);
      assert ids == [ids[0]] + ids[1..];
    }
  }

  lemma InIdsKeeps(b: Binding, ids: seq<string>, conv: Conv, db: Db, rows: seq<Row>)
    requires AllSpans(b, rows)
    ensures Keep(InList(false, Col(b.traceID), Holes(Ids(ids))), Ctx(conv, db, map[], []), rows)
      == Some(Select((r: Row) => IdOf(b, r) in ids, rows))
  {
    var a, c := InList(false, Col(b.traceID), Holes(Ids(ids))), Ctx(conv, db, map[], []);
    forall r | r in rows
      ensures var d := Eval(a, c.(row := r)); Logical(d) && (IsTrue(d) <==> IdOf(b, r) in ids)
    {
      IdsMembers(ids, IdOf(b, r));
      assert Eval(Col(b.traceID), c.(row := r)) == Str(IdOf(b, r));
      InMeaning(false, Col(b.traceID), Ids(ids), c.(row := r));
    }
    KeepIs(a, c, rows, (r: Row) => IdOf(b, r) in ids);
  }

  lemma ScopeIs(b: Binding, p: Ast, columns: Projection, withStart: bool, c: Ctx, r: Row)
    requires b.Valid() && Usable(columns) && IsSpan(b, r) && HasColumns(columns, [r]) && NoMarkers([r])
    ensures var scope := Marked(b, p, columns, withStart, c, r) + Shown(columns, r);
      && b.traceID in scope && scope[b.traceID] == r[b.traceID]
      && b.timestamp in scope && scope[b.timestamp] == r[b.timestamp]
      && (withStart ==> TRACE_START in scope && scope[TRACE_START] == Num(Earliest(b, Whole(b, c.group, IdOf(b, r)))))
  {
    hide Values, Whole, Earliest;
    assert r in [r];
    InnerProject(b, columns, c.(row := r));
  }

  function SpanSortKeys(b: Binding): seq<Key> {
    [Key.Key(TRACE_START, true), Key.Key(b.traceID, true), Key.Key(b.timestamp, false)]
  }

  /** The sort keys of a span in some scope. */
  predicate SpanKeys(b: Binding, rows: seq<Row>, scope: Row, r: Row) {
    && IsSpan(b, r) && IsSpan(b, scope) && scope[b.traceID] == r[b.traceID] && scope[b.timestamp] == r[b.timestamp]
    && TRACE_START in scope && scope[TRACE_START] == Num(Earliest(b, Whole(b, rows, IdOf(b, r))))
  }

  lemma SpanKeyed(b: Binding, rows: seq<Row>, scope: Row, r: Row)
    requires SpanKeys(b, rows, scope, r)
    ensures Keyed(SpanSortKeys(b),
                  [true, false, true], scope)
  {
    hide Whole, Earliest;
  }

  lemma SpanBefore(b: Binding, rows: seq<Row>, s: Row, x: Row, t: Row, y: Row)
    requires SpanKeys(b, rows, s, x) && SpanKeys(b, rows, t, y)
    requires Before(SpanSortKeys(b), s, t)
    ensures SpanOrder(b, rows, x, y)
  {
    hide Whole, Earliest;
    var k0, k1, k2 := Key.Key(TRACE_START, true), Key.Key(b.traceID, true), Key.Key(b.timestamp, false);
    assert [k0, k1, k2][1..] == [k1, k2] && [k1, k2][1..] == [k2] && [k2][1..] == [];
    assert Before([k2], s, t) ==> Time(b, x) <= Time(b, y);
    assert Before([k1, k2], s, t) ==>
      StrLess(IdOf(b, y), IdOf(b, x)) || (IdOf(b, x) == IdOf(b, y) && Before([k2], s, t));
  }

  lemma SortedByKeys(b: Binding, rows: seq<Row>, f: Row -> Entry, s: seq<Row>)
    requires forall r :: r in s ==> SpanKeys(b, rows, f(r).scope, r)
    ensures var order := SortBy(SpanSortKeys(b), f, s);
      forall i, j :: 0 <= i < j < |order| ==> SpanOrder(b, rows, order[i], order[j])
  {
    hide SpanKeys, SpanSortKeys, Before, SpanOrder, Keyed, SortBy, Sort;
    var keys := SpanSortKeys(b);
    var order := SortBy(keys, f, s);
    SortMap(keys, f, s);
    MultisetMembers(order, s);
    KeyCount(b);
    forall e: Entry | e in Map(f, s) ensures Keyed(keys, [true, false, true], e.scope) {
      var i :| 0 <= i < |s| && Map(f, s)[i] == e;
      assert s[i] in s;
      SpanKeyed(b, rows, e.scope, s[i]);
    }
    SortIs(keys, [true, false, true], Map(f, s));
    forall i, j | 0 <= i < j < |order| ensures SpanOrder(b, rows, order[i], order[j]) {
      assert order[i] in order && order[j] in order;
      assert Map(f, order)[i] == f(order[i]) && Map(f, order)[j] == f(order[j]);
      SpanBefore(b, rows, f(order[i]).scope, order[i], f(order[j]).scope, order[j]);
    }
  }

  lemma KeyCount(b: Binding)
    ensures |SpanSortKeys(b)| == 3
  {
  }

  lemma SpansKeyed(
    b: Binding, rows: seq<Row>, ids: seq<string>, p: Ast, columns: Projection, kept: seq<Row>, conv: Conv, db: Db,
    mark: Row -> Row, r: Row)
    requires b.Valid() && Usable(columns) && AllSpans(b, rows) && HasColumns(columns, rows) && NoMarkers(rows)
    requires kept == Select((r: Row) => IdOf(b, r) in ids, rows) && r in kept
    requires mark(r) == Marked(b, p, columns, true, Ctx(conv, db, map[], kept), r)
    ensures SpanKeys(b, rows, ShownEntry(columns, mark, r).scope, r)
  {
    hide Marked, Whole, Earliest;
    SelectIs((r: Row) => IdOf(b, r) in ids, rows);
    assert HasColumns(columns, [r]) && NoMarkers([r]);
    ScopeIs(b, p, columns, true, Ctx(conv, db, map[], kept), r);
    WholeKept(b, rows, (x: Row) => IdOf(b, x) in ids, IdOf(b, r));
  }

  lemma SaysFewer(p: Ast, permits: Row -> bool, conv: Conv, db: Db, rows: seq<Row>, some: seq<Row>)
    requires Says(p, permits, conv, db, rows) && forall r :: r in some ==> r in rows
    ensures Says(p, permits, conv, db, some)
  {
  }

  /** The condition of a subquery takes whole traces or none of their spans. */
  predicate TakesTraces(b: Binding, rows: seq<Row>, cond: Row -> bool) {
    forall r, s :: r in rows && s in rows && IdOf(b, r) == IdOf(b, s) ==> cond(r) == cond(s)
  }

  /** Both statements: the spans a condition takes, of those the traces that the policy admits. */
  lemma WrappedRun(
    b: Binding, p: Ast, permits: Row -> bool, columns: Projection, withStart: bool, where: Ast, cond: Row -> bool,
    keys: seq<Key>, conv: Conv, db: Db, mark: Row -> Row, open: Row -> bool)
    returns (order: seq<Row>)
    requires b.table in db && b.Valid() && AllSpans(b, db[b.table]) && NoMarkers(db[b.table])
    requires Usable(columns) && HasColumns(columns, db[b.table]) && Says(p, permits, conv, db, db[b.table])
    requires Keep(where, Ctx(conv, db, map[], []), db[b.table]) == Some(Select(cond, db[b.table]))
    requires TakesTraces(b, db[b.table], cond)
    requires var c := Ctx(conv, db, map[], Select(cond, db[b.table]));
      forall r :: r in c.group ==> mark(r) == Marked(b, p, columns, withStart, c, r)
    requires forall r :: r in db[b.table] ==> open(r) == Open(b, db[b.table], permits, IdOf(b, r))
    ensures var kept := Select(cond, db[b.table]);
      && multiset(order) == multiset(Select(open, kept))
      && order == SortBy(keys, (r: Row) => ShownEntry(columns, mark, r), Select(open, kept))
    ensures
      var inner := InnerQuery(b, InnerItems(columns, [b.traceID, b.timestamp]), MarkerItems(b, p, withStart), where);
      Run(OuterQuery(OuterItems(columns, Hidden(withStart)), inner, keys), conv, db)
        == Some(Map((r: Row) => Shown(columns, r), order))
  {
    hide Marked, Whole, Earliest, Run, Keep, Eval, InnerItems, OuterItems, MarkerItems, Says, IsSpan, Some_, SortBy;
    var rows := db[b.table];
    var kept := Select(cond, rows);
    SelectIs(cond, rows);
    SaysFewer(p, permits, conv, db, rows, kept);
    InnerRun(b, p, permits, columns, withStart, where, cond, conv, db, mark);
    forall r | r in kept ensures open(r) == Some_(permits, Whole(b, kept, IdOf(b, r))) {
      forall s | s in rows && IdOf(b, s) == IdOf(b, r) ensures cond(s) {}
      WholeKept(b, rows, cond, IdOf(b, r));
    }
    var inner := InnerQuery(b, InnerItems(columns, [b.traceID, b.timestamp]), MarkerItems(b, p, withStart), where);
    order := OuterRun(b, p, permits, columns, withStart, kept, inner, keys, conv, db, mark, open);
  }

  /** For any trace ids, wherever they come from, the statement returns every span of those traces that the
      policy admits, each once, and no row of any other trace. */
  lemma SpansRun(b: Binding, p: Ast, permits: Row -> bool, ids: seq<string>, columns: Projection, conv: Conv, db: Db)
    returns (order: seq<Row>)
    requires b.table in db && b.Valid() && AllSpans(b, db[b.table]) && NoMarkers(db[b.table])
    requires Usable(columns) && HasColumns(columns, db[b.table]) && Says(p, permits, conv, db, db[b.table])
    ensures multiset(order) == multiset(Authorized(b, db[b.table], permits, ids))
    ensures Run(SpansQuery(b, p, ids, columns), conv, db) == Some(Map((r: Row) => Shown(columns, r), order))
    ensures forall i, j :: 0 <= i < j < |order| ==> SpanOrder(b, db[b.table], order[i], order[j])
  {
    hide Marked, Whole, Earliest, Run, Keep, Eval, SpanOrder, InnerItems, OuterItems, SpanKeys, SortBy, Says, IsSpan,
      Open,
      SpanSortKeys;
    var rows := db[b.table];
    var cond := (r: Row) => IdOf(b, r) in ids;
    var kept := Select(cond, rows);
    var c := Ctx(conv, db, map[], kept);
    var mark := (r: Row) => Marked(b, p, columns, true, c, r);
    var open := (r: Row) => Open(b, rows, permits, IdOf(b, r));
    var where := InList(false, Col(b.traceID), Holes(Ids(ids)));
    InIdsKeeps(b, ids, conv, db, rows);
    order := WrappedRun(b, p, permits, columns, true, where, cond, SpanSortKeys(b), conv, db, mark, open);
    SpansShape(b, p, ids, columns);
    SelectTwice(open, cond, (r: Row) => IdOf(b, r) in ids && Open(b, rows, permits, IdOf(b, r)), rows);
    SelectIs(open, kept);
    forall r | r in kept ensures SpanKeys(b, rows, ShownEntry(columns, mark, r).scope, r) {
      SpansKeyed(b, rows, ids, p, columns, kept, conv, db, mark, r);
    }
    SortedByKeys(b, rows, (r: Row) => ShownEntry(columns, mark, r), Select(open, kept));
  }

  lemma SpansShape(b: Binding, p: Ast, ids: seq<string>, columns: Projection)
    requires Usable(columns)
    ensures SpansQuery(b, p, ids, columns) ==
      OuterQuery(OuterItems(columns, Hidden(true)),
                 InnerQuery(b, InnerItems(columns, [b.traceID, b.timestamp]), MarkerItems(b, p, true),
                            InList(false, Col(b.traceID), Holes(Ids(ids)))),
                 SpanSortKeys(b))
  {
  }

  // ---- one trace -----------------------------------------------------------------------------------------------

  /** Every span of the trace, each once and in time order, if the policy admits one of them; nothing
      otherwise. */
  lemma DetailRun(b: Binding, p: Ast, permits: Row -> bool, id: string, columns: Projection, conv: Conv, db: Db)
    returns (order: seq<Row>)
    requires b.table in db && b.Valid() && AllSpans(b, db[b.table]) && NoMarkers(db[b.table])
    requires Usable(columns) && HasColumns(columns, db[b.table]) && Says(p, permits, conv, db, db[b.table])
    ensures multiset(order)
      == multiset(if Open(b, db[b.table], permits, id) then Whole(b, db[b.table], id) else [])
    ensures Run(DetailQuery(b, p, id, columns), conv, db) == Some(Map((r: Row) => Shown(columns, r), order))
    ensures forall i, j :: 0 <= i < j < |order| ==> Time(b, order[i]) <= Time(b, order[j])
  {
    hide Marked, Earliest, Run, Keep, InnerItems, OuterItems, SortBy, Says, Open, IsSpan, Whole, Shown, DetailQuery,
      Eval, AllSpans, NoMarkers, HasColumns, Binding.Valid, Time, ShownEntry, OuterQuery, InnerQuery, MarkerItems;
    var rows := db[b.table];
    var cond := (r: Row) => IdOf(b, r) == id;
    var kept := Select(cond, rows);
    var c := Ctx(conv, db, map[], kept);
    var mark := (r: Row) => Marked(b, p, columns, false, c, r);
    var open := (r: Row) => Open(b, rows, permits, IdOf(b, r));
    var where := Compare(Eq, Col(b.traceID), Hole(Str(id)));
    IdKeeps(b, id, conv, db, rows);
    order := WrappedRun(b, p, permits, columns, false, where, cond, [Key.Key(b.timestamp, false)], conv, db, mark,
      open);
    DetailShape(b, p, id, columns);
    DetailRows(b, rows, permits, id, cond, open);
    SelectIs(open, kept);
    SelectIs(cond, rows);
    DetailInOrder(b, p, columns, c, mark, rows, Select(open, kept));
  }

  lemma DetailInOrder(
    b: Binding, p: Ast, columns: Projection, c: Ctx, mark: Row -> Row, rows: seq<Row>, s: seq<Row>)
    requires b.Valid() && AllSpans(b, rows) && NoMarkers(rows) && Usable(columns) && HasColumns(columns, rows)
    requires forall r :: r in s ==> r in rows && mark(r) == Marked(b, p, columns, false, c, r)
    ensures var order := SortBy([Key.Key(b.timestamp, false)], (r: Row) => ShownEntry(columns, mark, r), s);
      forall i, j :: 0 <= i < j < |order| ==> Time(b, order[i]) <= Time(b, order[j])
  {
    hide Marked, SortBy, AllSpans, NoMarkers, HasColumns, Binding.Valid, Time, TimeKept;
    forall r | r in s ensures TimeKept(b, r, ShownEntry(columns, mark, r).scope) {
      DetailKeyed(b, p, columns, c, mark, rows, r);
    }
    SortedByTime(b, (r: Row) => ShownEntry(columns, mark, r), s);
  }

  lemma DetailShape(b: Binding, p: Ast, id: string, columns: Projection)
    requires Usable(columns)
    ensures DetailQuery(b, p, id, columns) ==
      OuterQuery(OuterItems(columns, Hidden(false)),
                 InnerQuery(b, InnerItems(columns, [b.traceID, b.timestamp]), MarkerItems(b, p, false),
                            Compare(Eq, Col(b.traceID), Hole(Str(id)))),
                 [Key.Key(b.timestamp, false)])
  {
  }

  lemma IdKeeps(b: Binding, id: string, conv: Conv, db: Db, rows: seq<Row>)
    requires AllSpans(b, rows)
    ensures Keep(Compare(Eq, Col(b.traceID), Hole(Str(id))), Ctx(conv, db, map[], []), rows)
      == Some(Select((r: Row) => IdOf(b, r) == id, rows))
  {
    var where, c := Compare(Eq, Col(b.traceID), Hole(Str(id))), Ctx(conv, db, map[], []);
    forall r | r in rows
      ensures var d := Eval(where, c.(row := r)); Logical(d) && (IsTrue(d) <==> IdOf(b, r) == id)
    {
      assert Eval(Col(b.traceID), c.(row := r)) == Str(IdOf(b, r));
    }
    KeepIs(where, c, rows, (r: Row) => IdOf(b, r) == id);
  }

  predicate TimeKept(b: Binding, r: Row, scope: Row) {
    IsSpan(b, r) && b.timestamp in scope && scope[b.timestamp] == r[b.timestamp]
  }

  lemma DetailKeyed(b: Binding, p: Ast, columns: Projection, c: Ctx, mark: Row -> Row, rows: seq<Row>, r: Row)
    requires b.Valid() && AllSpans(b, rows) && NoMarkers(rows) && Usable(columns) && HasColumns(columns, rows)
    requires r in rows && mark(r) == Marked(b, p, columns, false, c, r)
    ensures TimeKept(b, r, ShownEntry(columns, mark, r).scope)
  {
    hide Marked, Whole, Earliest;
    assert HasColumns(columns, [r]) && NoMarkers([r]);
    ScopeIs(b, p, columns, false, c, r);
  }

  lemma DetailRows(b: Binding, rows: seq<Row>, permits: Row -> bool, id: string, cond: Row -> bool, open: Row -> bool)
    requires AllSpans(b, rows)
    requires forall r :: r in rows ==> cond(r) == (IdOf(b, r) == id) && open(r) == Open(b, rows, permits, IdOf(b, r))
    ensures Select(open, Select(cond, rows)) == if Open(b, rows, permits, id) then Whole(b, rows, id) else []
  {
    hide Open;
    var all := (r: Row) => IdOf(b, r) == id && Open(b, rows, permits, id);
    SelectTwice(open, cond, all, rows);
    if Open(b, rows, permits, id) {
      SelectAgrees(all, (r: Row) => OfTrace(b, id, r), rows);
    } else {
      SelectNone(all, rows);
    }
  }

  lemma SortedByTime(b: Binding, f: Row -> Entry, s: seq<Row>)
    requires forall r :: r in s ==> TimeKept(b, r, f(r).scope)
    ensures var order := SortBy([Key.Key(b.timestamp, false)], f, s);
      forall i, j :: 0 <= i < j < |order| ==> Time(b, order[i]) <= Time(b, order[j])
  {
    hide SortBy, Sort, Before, TimeKept;
    var keys := [Key.Key(b.timestamp, false)];
    var order := SortBy(keys, f, s);
    SortMap(keys, f, s);
    MultisetMembers(order, s);
    forall e: Entry | e in Map(f, s) ensures Keyed(keys, [true], e.scope) {
      var i :| 0 <= i < |s| && Map(f, s)[i] == e;
      assert s[i] in s;
      TimeBefore(b, s[i], e.scope, s[i], e.scope);
    }
    SortIs(keys, [true], Map(f, s));
    forall i, j | 0 <= i < j < |order| ensures Time(b, order[i]) <= Time(b, order[j]) {
      assert order[i] in order && order[j] in order;
      assert Map(f, order)[i] == f(order[i]) && Map(f, order)[j] == f(order[j]);
      TimeBefore(b, order[i], f(order[i]).scope, order[j], f(order[j]).scope);
    }
  }

  lemma TimeBefore(b: Binding, x: Row, s: Row, y: Row, t: Row)
    requires TimeKept(b, x, s) && TimeKept(b, y, t)
    ensures Keyed([Key.Key(b.timestamp, false)], [true], s)
    ensures Before([Key.Key(b.timestamp, false)], s, t) ==> Time(b, x) <= Time(b, y)
  {
    assert [Key.Key(b.timestamp, false)][1..] == [];
  }
}
