/** What a request returns, end to end: the caller's programs, the statements as the database reads them, and
    the traces and spans that come back. */
module Access {
  import opened Basics
  import opened Schema
  import opened SqlSyntax
  import opened SqlRoundTrip
  import opened SqlText
  import opened SqlSemantics
  import opened SqlRows
  import opened Expression
  import opened ExpressionMeaning
  import Policy
  import AccessModel
  import opened Translate
  import opened Traces
  import opened Reader
  import opened Visibility
  import opened ListMeaning
  import opened SpansMeaning

  // ---- the caller's programs -----------------------------------------------------------------------------

  const ADMIN_ROLE := "admin"

  datatype Session = Session(username: string, roles: seq<string>, attrs: map<string, string>) {
    predicate IsAdmin() { ADMIN_ROLE in roles }
  }

  /** A caller has the programs of each of the roles they hold; the admin role stands for its own program. */
  predicate Holds(sess: Session, s: AccessModel.Snapshot, p: Policy.Program) {
    || (exists role :: role in sess.roles && role != ADMIN_ROLE && p in Policy.Programs(s.registry, role))
    || (sess.IsAdmin() && p == s.admin)
  }

  /** The request of a session under a snapshot. */
  ghost predicate Assembled(q: Request, sess: Session, s: AccessModel.Snapshot) {
    && q.binding == s.schema.binding && q.attrs == sess.attrs
    && forall p :: p in q.programs <==> Holds(sess, s, p)
  }

  method Assemble(sess: Session, s: AccessModel.Snapshot) returns (r: Option<Request>)
    ensures r.Some? <==> AccessModel.Ready(s)
    ensures r.Some? ==> Assembled(r.value, sess, s) && r.value.binding.Valid()
  {
    if !AccessModel.Ready(s) { return None; }
    var progs: seq<Policy.Program> := [];
    for i := 0 to |sess.roles|
      invariant forall p :: p in progs <==>
        exists role :: role in sess.roles[..i] && role != ADMIN_ROLE && p in Policy.Programs(s.registry, role)
    {
      var role := sess.roles[i];
      assert sess.roles[..i + 1] == sess.roles[..i] + [role];
      ghost var before := progs;
      if role != ADMIN_ROLE {
        progs := progs + Policy.Programs(s.registry, role);
      }
      forall p ensures p in progs <==>
        exists r :: r in sess.roles[..i + 1] && r != ADMIN_ROLE && p in Policy.Programs(s.registry, r)
      {
        assert p in progs <==> p in before || (role != ADMIN_ROLE && p in Policy.Programs(s.registry, role));
      }
    }
    assert sess.roles[..|sess.roles|] == sess.roles;
    if sess.IsAdmin() { progs := progs + [s.admin]; }
    return Some(Request(s.schema.binding, progs, sess.attrs));
  }

  // ---- the database reads the text ------------------------------------------------------------------------

  /** The database answers every text by what it reads as, and refuses what it cannot read. */
  ghost predicate Faithful(conn: Connection, conv: Conv, db: Db) {
    forall sql, args :: conn(sql, args) == match ReadQuery(sql, args) case None => None case Some(q) => Run(q, conv, db)
  }

  lemma SendRuns(conn: Connection, conv: Conv, db: Db, q: Query)
    requires Faithful(conn, conv, db) && WfQuery(q)
    ensures conn(TextOfQuery(q), ArgsOfQuery(q)) == Run(q, conv, db)
  {
    hide Run;
    ReadBackStatement(q);
  }

  lemma ChainOperands(as_: seq<Ast>)
    requires as_ != [] && forall a :: a in as_ ==> Wf(a) && Level(a) >= 2
    ensures Wf(Chain(as_, false))
  {
    ChainWf(as_, false);
  }

  lemma WindowWf(b: Binding, w: Window, a: Ast)
    requires Wf(a) && Level(a) >= 2
    ensures Wf(Chain(WindowTrees(b, w) + [a], false))
  {
    var trees := WindowTrees(b, w);
    assert Wf(Col(b.timestamp)) && Wf(Hole(Num(w.from))) && Wf(Hole(Num(w.to)));
    assert Wf(trees[0]) && Wf(trees[1]);
    assert forall x :: x in trees + [a] <==> x == trees[0] || x == trees[1] || x == a;
    ChainOperands(trees + [a]);
  }

  lemma CursorWf(cur: Cursor)
    ensures Wf(CursorTree(cur)) && Level(CursorTree(cur)) == 3
  {
    WfArgsOneTwo(Col(START_NANOS), Col(TRACE_KEY));
    WfArgsOneTwo(Hole(Num(cur.startNanos)), Hole(Str(cur.traceID)));
    assert Wf(Group(Two(Col(START_NANOS), Col(TRACE_KEY))));
    assert Wf(Group(Two(Hole(Num(cur.startNanos)), Hole(Str(cur.traceID)))));
  }

  lemma HavingWf(a: Ast)
    requires Wf(a)
    ensures Wf(HavingTree(a)) && Level(HavingTree(a)) == 3
  {
    WfArgsOneTwo(a, a);
    assert Wf(Call(CountIf, One(a))) && Wf(Lit(0));
  }

  lemma WfParts(q: Query)
    requires (q.items.Last? && q.items.item.Name?) || WfItems(q.items)
    requires q.from.Table? || WfQuery(q.from.q)
    requires Wf(q.where) && (q.having.Some? ==> Wf(q.having.value)) && (q.limit.Some? ==> Wf(q.limit.value))
    ensures WfQuery(q)
  {
    if q.items.Last? { assert q.items.item.Name? ==> WfItem(q.items.item); }
  }

  lemma InSelectWf(column: string, q: Query)
    requires WfQuery(q)
    ensures Wf(InSelect(Col(column), q)) && Level(InSelect(Col(column), q)) == 3
  {
    assert Wf(Col(column));
  }

  lemma ListWf(b: Binding, w: Window, p: Ast, t: Option<Ast>, cur: Option<Cursor>, limit: nat)
    requires Wf(p) && Level(p) == 4 && (t.Some? ==> Wf(t.value))
    ensures WfQuery(ListQuery(b, w, p, t, cur, limit))
  {
    hide Wf, Level, Chain;
    var inner := IdsQuery(b, WindowTrees(b, w) + [p]);
    WindowWf(b, w, p);
    WfParts(inner);
    var ids := InSelect(Col(b.traceID), inner);
    InSelectWf(b.traceID, inner);
    WindowWf(b, w, ids);
    if t.Some? { HavingWf(t.value); }
    if cur.Some? { CursorWf(cur.value); }
    var conds := HavingTrees(t, cur);
    if conds != [] { ChainOperands(conds); }
    ItemsWf(b, limit);
    WfParts(ListQuery(b, w, p, t, cur, limit));
  }

  lemma ItemsWf(b: Binding, limit: nat)
    ensures WfItems(SummaryItems(b)) && Wf(Hole(Num(limit as real)))
  {
    NanosWf(Min, b);
    NanosWf(Max, b);
    var span := Calc(Minus, NanosOf(Max, b), NanosOf(Min, b));
    CalcWf(Minus, NanosOf(Max, b), NanosOf(Min, b));
    ParensWf(span);
    CalcWf(Divide, Parens(span), Lit(NANOS_PER_MILLI));
    WfArgsOneTwo(Col(b.spanName), Col(b.timestamp));
    assert Wf(RootTree(b));
    var r5 := Last(Alias(Call(Count, Nil), SPAN_COUNT));
    var r4 := More(Alias(RootTree(b), ROOT_NAME), r5);
    var r3 := More(Alias(DurationTree(b), DURATION), r4);
    var r2 := More(Alias(NanosOf(Min, b), START_NANOS), r3);
    assert WfItems(r5) && WfItems(r4) && WfItems(r3) && WfItems(r2);
  }

  lemma CalcWf(sign: Sign, l: Ast, r: Ast)
    requires Wf(l) && Wf(r) && Level(l) == Level(r) == 4
    ensures Wf(Calc(sign, l, r))
  {
  }

  lemma ParensWf(a: Ast)
    requires Wf(a)
    ensures Wf(Parens(a)) && Level(Parens(a)) == 4
  {
    WfArgsOneTwo(a, a);
  }

  lemma NanosWf(fn: Fn, b: Binding)
    ensures Wf(NanosOf(fn, b)) && Level(NanosOf(fn, b)) == 4 && Wf(Call(fn, One(Col(b.timestamp))))
  {
    WfArgsOneTwo(Col(b.timestamp), Col(b.timestamp));
    WfArgsOneTwo(Call(fn, One(Col(b.timestamp))), Col(b.timestamp));
  }

  lemma {:induction false} NamesWf(cols: seq<string>)
    requires cols != []
    ensures WfItems(Names(cols))
  {
    if |cols| > 1 { NamesWf(cols[1..]); }
    assert WfItem(Name(cols[0]));
  }

  lemma {:induction false} ThenWf(items: Items, rest: Items)
    requires WfItems(items) && WfItems(rest)
    ensures WfItems(Then(items, rest))
  {
    match items
    case Last(_) =>
    case More(_, more) => ThenWf(more, rest);
  }

  lemma ListsWf(columns: Projection, needed: seq<string>, hidden: seq<string>)
    requires Usable(columns) && hidden != []
    ensures WfItems(InnerItems(columns, needed)) && WfItems(OuterItems(columns, hidden))
  {
    if columns == [] {
      assert WfItem(Star) && WfItem(StarExcept(hidden));
    } else {
      WidenedKeeps([], columns);
      WidenedKeeps(Widened([], columns), needed);
      assert Widened([], columns)[0] in Widened(Widened([], columns), needed);
      NamesWf(Widened([], columns));
      NamesWf(Widened(Widened([], columns), needed));
    }
  }

  lemma MarkersWf(b: Binding, p: Ast, withStart: bool)
    requires Wf(p)
    ensures WfItems(MarkerItems(b, p, withStart))
  {
    WfArgsOneTwo(p, p);
    WfArgsOneTwo(Col(b.timestamp), Col(b.timestamp));
    assert Wf(Over(Sum, One(p), b.traceID)) && Wf(Over(Min, One(Col(b.timestamp)), b.traceID));
    assert WfItems(Last(PermittedItem(b, p)));
  }

  lemma WrappedWf(
    b: Binding, p: Ast, columns: Projection, withStart: bool, where: Ast, keys: seq<Key>)
    requires Usable(columns) && Wf(p) && Wf(where)
    ensures var inner := InnerQuery(b, InnerItems(columns, [b.traceID, b.timestamp]), MarkerItems(b, p, withStart),
      where);
      WfQuery(OuterQuery(OuterItems(columns, Hidden(withStart)), inner, keys))
  {
    hide InnerItems, OuterItems, MarkerItems;
    ListsWf(columns, [b.traceID, b.timestamp], Hidden(withStart));
    MarkersWf(b, p, withStart);
    ThenWf(InnerItems(columns, [b.traceID, b.timestamp]), MarkerItems(b, p, withStart));
    var inner := InnerQuery(b, InnerItems(columns, [b.traceID, b.timestamp]), MarkerItems(b, p, withStart), where);
    WfParts(inner);
    assert Wf(Col(PERMITTED)) && Wf(Lit(0));
    assert Wf(Compare(Gt, Col(PERMITTED), Lit(0)));
    WfParts(OuterQuery(OuterItems(columns, Hidden(withStart)), inner, keys));
  }

  lemma SpansWf(b: Binding, p: Ast, ids: seq<string>, columns: Projection)
    requires Usable(columns) && Wf(p) && ids != []
    ensures WfQuery(SpansQuery(b, p, ids, columns))
  {
    HolesWf(Ids(ids));
    assert Wf(Col(b.traceID));
    SpansShape(b, p, ids, columns);
    WrappedWf(b, p, columns, true, InList(false, Col(b.traceID), Holes(Ids(ids))), SpanSortKeys(b));
  }

  lemma DetailWf(b: Binding, p: Ast, id: string, columns: Projection)
    requires Usable(columns) && Wf(p)
    ensures WfQuery(DetailQuery(b, p, id, columns))
  {
    assert Wf(Col(b.traceID)) && Wf(Hole(Str(id)));
    DetailShape(b, p, id, columns);
    WrappedWf(b, p, columns, false, Compare(Eq, Col(b.traceID), Hole(Str(id))), [Key.Key(b.timestamp, false)]);
  }

  /** Whatever the predicate, the filter, the cursor, the page and the projection are, the text of each
      statement reads back as the one statement it was written for, and its i-th placeholder is bound to the
      i-th argument. */
  lemma StatementsReadBack(
    b: Binding, w: Window, p: Ast, t: Option<Ast>, cur: Option<Cursor>, limit: nat, ids: seq<string>, id: string,
    columns: Projection)
    requires Wf(p) && Level(p) == 4 && (t.Some? ==> Wf(t.value)) && ids != [] && Usable(columns)
    ensures forall q ::
      q in {ListQuery(b, w, p, t, cur, limit), SpansQuery(b, p, ids, columns), DetailQuery(b, p, id, columns)} ==>
      ReadQuery(QueryFragment(q).sql, QueryFragment(q).args) == Some(q)
  {
    ListWf(b, w, p, t, cur, limit);
    SpansWf(b, p, ids, columns);
    DetailWf(b, p, id, columns);
    ReadBackStatement(ListQuery(b, w, p, t, cur, limit));
    ReadBackStatement(SpansQuery(b, p, ids, columns));
    ReadBackStatement(DetailQuery(b, p, id, columns));
  }

  /** The ways the statements quantify over a trace agree. Inside a window, countIf over the group and membership in
      the subquery both say whether some span in it satisfies the policy; over the whole trace, countIf and sum both
      say whether any span does. The first implies the second, and they are the same as long as no span outside the
      window decides. */
  lemma QuantifiersAgree(b: Binding, w: Window, p: Ast, permits: Row -> bool, conv: Conv, db: Db, r: Row)
    requires b.table in db && AllSpans(b, db[b.table]) && Says(p, permits, conv, db, db[b.table]) && r in db[b.table]
    ensures var rows, id := db[b.table], IdOf(b, r);
      var inside, all := Admitted(b, w, rows, permits, id), Open(b, rows, permits, id);
      var ids := Run(IdsQuery(b, WindowTrees(b, w) + [p]), conv, db);
      && (forall row :: Eval(HavingTree(p), Ctx(conv, db, row, TraceIn(b, w, rows, id))) == Bool(inside))
      && ids.Some? && ((exists x :: x in ids.value && b.traceID in x && x[b.traceID] == Str(id)) <==> inside)
      && (forall row :: Eval(HavingTree(p), Ctx(conv, db, row, Whole(b, rows, id))) == Bool(all))
      && SumSays(Eval(Over(Sum, One(p), b.traceID), Ctx(conv, db, r, rows)), all)
      && (inside ==> all)
      && ((forall s :: s in Whole(b, rows, id) && permits(s) ==> InWindow(b, w, s)) ==> inside == all)
  {
    hide Eval, Run, IdsQuery, WindowTrees, HavingTree;
    var rows, id := db[b.table], IdOf(b, r);
    TraceInIs(b, w, rows, id);
    forall row
      ensures Eval(HavingTree(p), Ctx(conv, db, row, TraceIn(b, w, rows, id)))
        == Bool(Admitted(b, w, rows, permits, id))
      ensures Eval(HavingTree(p), Ctx(conv, db, row, Whole(b, rows, id))) == Bool(Open(b, rows, permits, id))
    {
      HavingMeaning(p, permits, conv, db, rows, Ctx(conv, db, row, TraceIn(b, w, rows, id)));
      HavingMeaning(p, permits, conv, db, rows, Ctx(conv, db, row, Whole(b, rows, id)));
    }
    SumOver(b, p, permits, rows, Ctx(conv, db, r, rows));
    IdsRun(b, w, p, permits, conv, db);
  }

  // ---- what comes back ----------------------------------------------------------------------------------------

  /** The table a request reads is there, with the columns its programs mention. */
  predicate Readable(q: Request, db: Db) {
    && q.binding.Valid() && q.binding.table in db
    && AllSpans(q.binding, db[q.binding.table]) && NoMarkers(db[q.binding.table])
    && forall r :: r in db[q.binding.table] ==> RowFitsPrograms(q.programs, r)
  }

  function TableRows(q: Request, db: Db): seq<Row>
    requires q.binding.table in db
  {
    db[q.binding.table]
  }

  function PermitsOf(q: Request, conv: Conv): Row -> bool {
    (r: Row) => Permits(q.programs, r, q.attrs, conv)
  }

  /** A filter that compiles to a tree, with what it says about a span; no filter matches every span. */
  ghost predicate FilterIs(t: Option<Ast>, matches: Row -> bool, conv: Conv, db: Db, rows: seq<Row>) {
    (t.Some? ==> Wf(t.value)) && FilterSays(t, matches, conv, db, rows)
  }

  lemma PredicateSays(q: Request, conv: Conv, db: Db)
    requires Readable(q, db) && PredicateTree(q.programs, q.attrs).Some?
    ensures var p := PredicateTree(q.programs, q.attrs).value;
      Wf(p) && Level(p) == 4 && Says(p, PermitsOf(q, conv), conv, db, TableRows(q, db))
  {
    hide Eval, Permits;
    PredicateReadsBack(q.programs, q.attrs);
    forall c: Ctx | c.conv == conv && c.db == db && c.row in TableRows(q, db)
      ensures var p := PredicateTree(q.programs, q.attrs).value;
        Flag(Eval(p, c)) && (IsTrue(Eval(p, c)) <==> PermitsOf(q, conv)(c.row))
    {
      PredicateMeaning(q.programs, q.attrs, c);
    }
  }

  lemma NothingPermitted(q: Request, conv: Conv)
    requires PredicateTree(q.programs, q.attrs).None?
    ensures forall r :: !PermitsOf(q, conv)(r)
  {
    TreesWf(q.programs, q.attrs);
  }

  /** A page of summaries is the next page of the traces that the caller may see and the filter matches, told
      truthfully; its next cursor is the position of its last trace. */
  lemma ListAnswers(
    conn: Connection, conv: Conv, db: Db, q: Request, w: Window, t: Option<Ast>, matches: Row -> bool,
    cur: Option<Cursor>, limit: nat)
    requires Faithful(conn, conv, db) && Readable(q, db) && FilterIs(t, matches, conv, db, TableRows(q, db))
    ensures var r := ListOf(conn, q, w, t, cur, limit);
      && r.Ok? && r.value == ResultOf(r.value.traces)
      && IsPage(PositionsOf(r.value.traces),
                Positions(q.binding, w, TableRows(q, db), PermitsOf(q, conv), matches), cur, limit)
      && forall s :: s in r.value.traces ==> Truthful(q.binding, w, TableRows(q, db), s)
  {
    hide Run, ListQuery, Permits, Says, IsPage, Truthful;
    if PredicateTree(q.programs, q.attrs).None? {
      NothingPermitted(q, conv);
      assert Positions(q.binding, w, TableRows(q, db), PermitsOf(q, conv), matches) == {};
      EmptyPage(cur, limit);
    } else {
      var p := PredicateTree(q.programs, q.attrs).value;
      PredicateSays(q, conv, db);
      ListWf(q.binding, w, p, t, cur, limit);
      SendRuns(conn, conv, db, ListQuery(q.binding, w, p, t, cur, limit));
      ListIsPage(q.binding, w, p, PermitsOf(q, conv), t, matches, cur, limit, conv, db);
    }
  }

  lemma EmptyPage(cur: Option<Cursor>, limit: nat)
    ensures IsPage(PositionsOf([]), {}, cur, limit)
  {
  }

  /** The spans of a page are every span of every trace on it, in or out of the window, each once, and nothing
      else: applying the policy a second time removes nothing. */
  lemma SpansAnswers(
    conn: Connection, conv: Conv, db: Db, q: Request, w: Window, t: Option<Ast>, matches: Row -> bool,
    cur: Option<Cursor>, limit: nat, columns: Projection)
    returns (order: seq<Row>)
    requires Faithful(conn, conv, db) && Readable(q, db) && FilterIs(t, matches, conv, db, TableRows(q, db))
    requires Usable(columns) && HasColumns(columns, TableRows(q, db))
    ensures var list, r := ListOf(conn, q, w, t, cur, limit), SpansOf(conn, q, w, t, cur, limit, columns);
      && list.Ok? && r.Ok?
      && r.value.rows == Map((r: Row) => Shown(columns, r), order)
      && multiset(order)
           == multiset(Select((r: Row) => IdOf(q.binding, r) in TraceIds(list.value.traces), TableRows(q, db)))
      && r.value.next == (if |list.value.traces| < limit then None else list.value.next)
    ensures forall i, j :: 0 <= i < j < |order| ==> SpanOrder(q.binding, TableRows(q, db), order[i], order[j])
  {
    hide Run, ListQuery, SpansQuery, Permits, Says, IsPage, Truthful, SpanOrder, ListOf, FilterIs, TraceIds;
    var list := ListOf(conn, q, w, t, cur, limit);
    var rows := TableRows(q, db);
    ListAnswers(conn, conv, db, q, w, t, matches, cur, limit);
    var ids := TraceIds(list.value.traces);
    var ofPage := (r: Row) => IdOf(q.binding, r) in ids;
    if list.value.traces == [] || PredicateTree(q.programs, q.attrs).None? {
      if PredicateTree(q.programs, q.attrs).None? { NoPage(conn, q, w, t, cur, limit); }
      order := [];
      SelectNone(ofPage, rows);
    } else {
      var p := PredicateTree(q.programs, q.attrs).value;
      PredicateSays(q, conv, db);
      SpansWf(q.binding, p, ids, columns);
      SendRuns(conn, conv, db, SpansQuery(q.binding, p, ids, columns));
      order := SpansRun(q.binding, p, PermitsOf(q, conv), ids, columns, conv, db);
      ListedAreOpen(conn, conv, db, q, w, t, matches, cur, limit);
      var open := (r: Row) => IdOf(q.binding, r) in ids
        && Open(q.binding, rows, PermitsOf(q, conv), IdOf(q.binding, r));
      SelectAgrees(open, ofPage, rows);
    }
  }

  lemma NoPage(conn: Connection, q: Request, w: Window, t: Option<Ast>, cur: Option<Cursor>, limit: nat)
    requires PredicateTree(q.programs, q.attrs).None?
    ensures ListOf(conn, q, w, t, cur, limit) == Ok(ListResult([], None))
  {
  }

  /** Every trace on a page has, in the window, a span the caller may see, and so the trace is open to the
      statements that look at it whole. */
  lemma ListedAreOpen(
    conn: Connection, conv: Conv, db: Db, q: Request, w: Window, t: Option<Ast>, matches: Row -> bool,
    cur: Option<Cursor>, limit: nat)
    requires Faithful(conn, conv, db) && Readable(q, db) && FilterIs(t, matches, conv, db, TableRows(q, db))
    ensures ListOf(conn, q, w, t, cur, limit).Ok?
    ensures forall id :: id in TraceIds(ListOf(conn, q, w, t, cur, limit).value.traces) ==>
      && Listed(q.binding, w, TableRows(q, db), PermitsOf(q, conv), matches, id)
      && Open(q.binding, TableRows(q, db), PermitsOf(q, conv), id)
  {
    hide ListOf, Permits, FilterIs, Truthful, Listed, Open;
    ListAnswers(conn, conv, db, q, w, t, matches, cur, limit);
    var ts := ListOf(conn, q, w, t, cur, limit).value.traces;
    var all := Positions(q.binding, w, TableRows(q, db), PermitsOf(q, conv), matches);
    forall id | id in TraceIds(ts)
      ensures Listed(q.binding, w, TableRows(q, db), PermitsOf(q, conv), matches, id)
      ensures Open(q.binding, TableRows(q, db), PermitsOf(q, conv), id)
    {
      var i :| 0 <= i < |ts| && TraceIds(ts)[i] == id;
      var c := PositionsOf(ts)[i];
      assert c in PositionsOf(ts);
      assert c in all;
      PositionOfTrace(q.binding, w, TableRows(q, db), PermitsOf(q, conv), matches, c);
      AdmittedIsOpen(q.binding, w, TableRows(q, db), PermitsOf(q, conv), matches, id);
    }
  }

  lemma AdmittedIsOpen(b: Binding, w: Window, rows: seq<Row>, permits: Row -> bool, matches: Row -> bool, id: string)
    requires Listed(b, w, rows, permits, matches, id)
    ensures Open(b, rows, permits, id)
  {
    TraceInIs(b, w, rows, id);
  }

  /** A trace the caller may see is returned whole, in time order; any other is not found. */
  lemma DetailAnswers(conn: Connection, conv: Conv, db: Db, q: Request, id: string, columns: Projection)
    returns (order: seq<Row>)
    requires Faithful(conn, conv, db) && Readable(q, db) && Usable(columns) && HasColumns(columns, TableRows(q, db))
    ensures var r := DetailOf(conn, q, id, columns);
      if Open(q.binding, TableRows(q, db), PermitsOf(q, conv), id)
      then r == Ok(Map((r: Row) => Shown(columns, r), order))
        && multiset(order) == multiset(Whole(q.binding, TableRows(q, db), id))
      else r == Err(NotVisible)
    ensures forall i, j :: 0 <= i < j < |order| ==> Time(q.binding, order[i]) <= Time(q.binding, order[j])
  {
    hide Run, DetailQuery, Permits, Says;
    var rows := TableRows(q, db);
    var permits := PermitsOf(q, conv);
    if PredicateTree(q.programs, q.attrs).None? {
      NothingPermitted(q, conv);
      order := [];
    } else {
      var p := PredicateTree(q.programs, q.attrs).value;
      PredicateSays(q, conv, db);
      DetailWf(q.binding, p, id, columns);
      SendRuns(conn, conv, db, DetailQuery(q.binding, p, id, columns));
      order := DetailRun(q.binding, p, permits, id, columns, conv, db);
      MultisetMembers(order, if Open(q.binding, rows, permits, id) then Whole(q.binding, rows, id) else []);
    }
  }

  /** Adding programs, or attributes next to the ones there are, never removes a trace from the list or from
      sight, whatever the policies negate. */
  lemma AccessIsMonotone(
    q: Request, more: Request, b: Binding, w: Window, rows: seq<Row>, matches: Row -> bool, conv: Conv, id: string)
    requires (forall p :: p in q.programs ==> p in more.programs) && Extends(more.attrs, q.attrs)
    ensures Listed(b, w, rows, PermitsOf(q, conv), matches, id) ==>
      Listed(b, w, rows, PermitsOf(more, conv), matches, id)
    ensures Open(b, rows, PermitsOf(q, conv), id) ==> Open(b, rows, PermitsOf(more, conv), id)
  {
    hide Permits;
    forall r | PermitsOf(q, conv)(r) ensures PermitsOf(more, conv)(r) {
      AccessGrows(q.programs, more.programs, q.attrs, more.attrs, r, conv);
    }
  }

  /** Holding a further role keeps every program. */
  lemma RolesAdd(sess: Session, role: string, s: AccessModel.Snapshot, p: Policy.Program)
    requires Holds(sess, s, p)
    ensures Holds(sess.(roles := sess.roles + [role]), s, p)
  {
    if r :| r in sess.roles && r != ADMIN_ROLE && p in Policy.Programs(s.registry, r) {
      assert r in sess.roles + [role];
    }
  }
}
