/** The statement for a page of summaries returns a page of the scroll: the visible traces that match the
    filter, newest first, after the cursor and up to the limit. */
module ListMeaning {
  import opened Basics
  import opened Order
  import opened Schema
  import opened SqlSyntax
  import opened SqlText
  import opened SqlSemantics
  import opened SqlRows
  import opened ExpressionMeaning
  import opened Translate
  import opened Traces
  import opened Reader
  import opened Visibility

  /** A condition raises no error on any of some rows and is TRUE on those a predicate holds of. */
  ghost predicate Says(a: Ast, says: Row -> bool, conv: Conv, db: Db, rows: seq<Row>) {
    forall c: Ctx :: c.conv == conv && c.db == db && c.row in rows ==>
      Flag(Eval(a, c)) && (IsTrue(Eval(a, c)) <==> says(c.row))
  }

  // ---- WHERE --------------------------------------------------------------------------------------------

  lemma TimeCompares(b: Binding, op: Cmp, t: real, c: Ctx)
    requires IsSpan(b, c.row) && (op.Ge? || op.Lt?)
    ensures Eval(Compare(op, Col(b.timestamp), Hole(Num(t))), c)
      == Bool(if op.Ge? then Time(b, c.row) >= t else Time(b, c.row) < t)
  {
  }

  lemma WindowChain(b: Binding, w: Window, a: Ast, c: Ctx)
    requires IsSpan(b, c.row) && Flag(Eval(a, c))
    ensures var r := Eval(Chain(WindowTrees(b, w) + [a], false), c);
      Flag(r) && (IsTrue(r) <==> InWindow(b, w, c.row) && IsTrue(Eval(a, c)))
  {
    hide Eval;
    var trees := WindowTrees(b, w);
    TimeCompares(b, Ge, w.from, c);
    TimeCompares(b, Lt, w.to, c);
    assert forall x :: x in trees + [a] <==> x == trees[0] || x == trees[1] || x == a;
    ChainMeaning(trees + [a], false, c);
  }

  /** The rows of a table inside the window on which a further condition holds. */
  lemma WindowKeeps(b: Binding, w: Window, a: Ast, says: Row -> bool, conv: Conv, db: Db, rows: seq<Row>)
    requires AllSpans(b, rows) && Says(a, says, conv, db, rows)
    ensures Keep(Chain(WindowTrees(b, w) + [a], false), Ctx(conv, db, map[], []), rows)
      == Some(Select((r: Row) => InWindow(b, w, r) && says(r), rows))
  {
    hide Eval, Chain;
    var where, c := Chain(WindowTrees(b, w) + [a], false), Ctx(conv, db, map[], []);
    forall r | r in rows
      ensures var d := Eval(where, c.(row := r)); Logical(d) && (IsTrue(d) <==> InWindow(b, w, r) && says(r))
    {
      WindowChain(b, w, a, c.(row := r));
    }
    KeepIs(where, c, rows, (r: Row) => InWindow(b, w, r) && says(r));
  }

  // ---- the trace ids the policy admits -------------------------------------------------------------------

  predicate Admitted(b: Binding, w: Window, rows: seq<Row>, permits: Row -> bool, id: string) {
    Some_(permits, TraceIn(b, w, rows, id))
  }

  lemma {:induction false} NamesProject(b: Binding, c: Ctx, rows: seq<Row>)
    requires AllSpans(b, rows)
    ensures forall r :: r in rows ==>
      Project(Last(Name(b.traceID)), c.(row := r)) == Some(map[b.traceID := r[b.traceID]])
  {
  }

  /** The statement filters the rows of its table, then does the rest. */
  lemma RunIs(q: Query, conv: Conv, db: Db, kept: seq<Row>)
    requires q.from.Table? && q.from.name in db
    requires Keep(q.where, Ctx(conv, db, map[], []), db[q.from.name]) == Some(kept)
    ensures Run(q, conv, db) == Finish(q, conv, db, kept)
  {
  }

  /** The outputs of sorted entries are the outputs of their rows. */
  lemma OutsOf(sorted: seq<Entry>, es: seq<Entry>, rows: seq<Row>, out: Row -> Row)
    requires multiset(sorted) == multiset(es) && |es| == |rows|
    requires forall i :: 0 <= i < |rows| ==> es[i].out == out(rows[i])
    ensures forall x :: x in Outs(sorted) <==> exists r :: r in rows && x == out(r)
  {
    MultisetMembers(sorted, es);
    forall x | x in Outs(sorted) ensures exists r :: r in rows && x == out(r) {
      var i :| 0 <= i < |sorted| && Outs(sorted)[i] == x;
      assert sorted[i] in es;
      var k :| 0 <= k < |es| && es[k] == sorted[i];
      assert rows[k] in rows;
    }
    forall r | r in rows ensures out(r) in Outs(sorted) {
      var k :| 0 <= k < |rows| && rows[k] == r;
      assert es[k] in sorted;
      var i :| 0 <= i < |sorted| && sorted[i] == es[k];
      assert Outs(sorted)[i] == out(r);
    }
  }

  lemma SelectDistinct(q: Query, c: Ctx, rows: seq<Row>, out: Row -> Row)
    requires q.distinct && q.group.None? && q.order == [] && q.limit.None?
    requires c == Ctx(c.conv, c.db, map[], rows)
    requires forall r :: r in rows ==> Project(q.items, c.(row := r)) == Some(out(r))
    ensures var all := Finish(q, c.conv, c.db, rows);
      all.Some? && forall x :: x in all.value <==> exists r :: r in rows && x == out(r)
  {
    hide Project, PlainEntries, Sort, Distinct;
    PlainEntriesAre(q.items, c, rows, out);
    var es := PlainEntries(q.items, c, rows).value;
    SortIs([], [], es);
    OutsOf(Sort([], es), es, rows, out);
    DistinctIs(Outs(Sort([], es)));
  }

  function OnlyId(b: Binding, r: Row): Row {
    if b.traceID in r then map[b.traceID := r[b.traceID]] else map[]
  }

  /** The subquery yields exactly the ids of traces with an admitted span in the window. */
  lemma IdsRun(b: Binding, w: Window, p: Ast, permits: Row -> bool, conv: Conv, db: Db)
    requires b.table in db && AllSpans(b, db[b.table]) && Says(p, permits, conv, db, db[b.table])
    ensures var ids := Run(IdsQuery(b, WindowTrees(b, w) + [p]), conv, db);
      ids.Some? && forall id: string ::
        (exists r :: r in ids.value && b.traceID in r && r[b.traceID] == Str(id))
          <==> Admitted(b, w, db[b.table], permits, id)
  {
    hide Eval, Chain, Finish, WindowTrees, Run, Keep, InWindow;
    var rows := db[b.table];
    var q := IdsQuery(b, WindowTrees(b, w) + [p]);
    var says := (r: Row) => InWindow(b, w, r) && permits(r);
    var kept := Select(says, rows);
    WindowKeeps(b, w, p, permits, conv, db, rows);
    SelectIs(says, rows);
    var c := Ctx(conv, db, map[], kept);
    NamesProject(b, c, kept);
    SelectDistinct(q, c, kept, (r: Row) => OnlyId(b, r));
    RunIs(q, conv, db, kept);
    forall id: string
      ensures (exists r :: r in Run(q, conv, db).value && b.traceID in r && r[b.traceID] == Str(id))
        <==> Admitted(b, w, rows, permits, id)
    {
      AdmittedIds(b, w, rows, permits, Run(q, conv, db).value, id);
    }
  }

  lemma AdmittedIds(b: Binding, w: Window, rows: seq<Row>, permits: Row -> bool, ids: seq<Row>, id: string)
    requires var kept := Select((r: Row) => InWindow(b, w, r) && permits(r), rows);
      forall x :: x in ids <==> exists r :: r in kept && x == OnlyId(b, r)
    ensures (exists r :: r in ids && b.traceID in r && r[b.traceID] == Str(id)) <==> Admitted(b, w, rows, permits, id)
  {
    var says := (r: Row) => InWindow(b, w, r) && permits(r);
    var kept := Select(says, rows);
    SelectIs(says, rows);
    TraceInIs(b, w, rows, id);
    if r :| r in ids && b.traceID in r && r[b.traceID] == Str(id) {
      var s :| s in kept && r == OnlyId(b, s);
      assert s in TraceIn(b, w, rows, id) && permits(s);
    }
    if Admitted(b, w, rows, permits, id) {
      var s :| s in TraceIn(b, w, rows, id) && permits(s);
      assert s in kept && OnlyId(b, s) in ids;
    }
  }

  lemma InSelectIs(m: string, q: Query, n: string, rows: seq<Row>, c: Ctx)
    requires Run(q, c.conv, c.db) == Some(rows) && q.items == Last(Name(n)) && m in c.row && c.row[m].Str?
    ensures Eval(InSelect(Col(m), q), c) == Bool(exists r :: r in rows && n in r && r[n] == c.row[m])
  {
    hide Run;
    assert Eval(Col(m), c) == c.row[m];
  }

  /** The rows the statement groups: those of the window whose trace has an admitted span in it. */
  lemma ListKeeps(b: Binding, w: Window, p: Ast, permits: Row -> bool, conv: Conv, db: Db)
    requires b.table in db && AllSpans(b, db[b.table]) && Says(p, permits, conv, db, db[b.table])
    ensures var rows := db[b.table];
      var ids := InSelect(Col(b.traceID), IdsQuery(b, WindowTrees(b, w) + [p]));
      Keep(Chain(WindowTrees(b, w) + [ids], false), Ctx(conv, db, map[], []), rows)
        == Some(Select((r: Row) => InWindow(b, w, r) && OfAdmitted(b, w, rows, permits, r), rows))
  {
    hide Eval, Run, Keep, Chain, WindowTrees;
    var rows := db[b.table];
    var inner := IdsQuery(b, WindowTrees(b, w) + [p]);
    var ids := InSelect(Col(b.traceID), inner);
    IdsRun(b, w, p, permits, conv, db);
    var says := (r: Row) => OfAdmitted(b, w, rows, permits, r);
    forall c: Ctx | c.conv == conv && c.db == db && c.row in rows
      ensures Flag(Eval(ids, c)) && (IsTrue(Eval(ids, c)) <==> says(c.row))
    {
      InSelectIs(b.traceID, inner, b.traceID, Run(inner, conv, db).value, c);
    }
    WindowKeeps(b, w, ids, says, conv, db, rows);
    SelectAgrees((r: Row) => InWindow(b, w, r) && says(r),
                 (r: Row) => InWindow(b, w, r) && OfAdmitted(b, w, rows, permits, r), rows);
  }

  predicate OfAdmitted(b: Binding, w: Window, rows: seq<Row>, permits: Row -> bool, r: Row) {
    b.traceID in r && r[b.traceID].Str? && Admitted(b, w, rows, permits, r[b.traceID].s)
  }

  // ---- one group ---------------------------------------------------------------------------------------------

  function SummaryOf(b: Binding, w: Window, rows: seq<Row>, id: string): Summary {
    var spans := TraceIn(b, w, rows, id);
    SummaryFor(b, spans, id)
  }

  function SummaryFor(b: Binding, spans: seq<Row>, id: string): Summary {
    Summary(id, Earliest(b, spans), Earliest(b, spans), (Latest(b, spans) - Earliest(b, spans)) / 1000000.0,
            RootName(b, spans), |spans| as real)
  }

  function SummaryRow(s: Summary): Row {
    map[TRACE_KEY := Str(s.traceID)] + (map[START_TIME := Num(s.startTime)]
      + (map[START_NANOS := Num(s.startNanos)] + (map[DURATION := Num(s.durationMs)]
      + (map[ROOT_NAME := Str(s.rootName)] + map[SPAN_COUNT := Num(s.spanCount)]))))
  }

  lemma SummaryRowScans(s: Summary)
    ensures var r := SummaryRow(s);
      && r.Keys == {TRACE_KEY, START_TIME, START_NANOS, DURATION, ROOT_NAME, SPAN_COUNT}
      && r[TRACE_KEY] == Str(s.traceID) && r[START_NANOS] == Num(s.startNanos) && ScanSummary(r) == Some(s)
  {
    assert START_TIME[1] != SPAN_COUNT[1];
  }

  lemma {:induction false} MinIs(b: Binding, c: Ctx, spans: seq<Row>)
    requires spans != [] && AllSpans(b, spans)
    ensures MinOf(Values(Col(b.timestamp), c, spans)) == Num(Earliest(b, spans))
  {
    var ds := Values(Col(b.timestamp), c, spans);
    assert spans[0] in spans && ds[0] == Num(Time(b, spans[0]));
    if |spans| > 1 {
      MinIs(b, c, spans[1..]);
      assert ds[1..] == Values(Col(b.timestamp), c, spans[1..]);
    }
  }

  lemma {:induction false} CountPositive(ds: seq<Datum>)
    ensures CountOf(ds) > 0 <==> exists d :: d in ds && IsTrue(d)
  {
    if ds != [] {
      CountPositive(ds[1..]);
      assert ds == [ds[0]] + ds[1..];
    }
  }

  /** countIf(f) > 0 asks whether some span of the group matches. */
  lemma HavingMeaning(a: Ast, matches: Row -> bool, conv: Conv, db: Db, rows: seq<Row>, c: Ctx)
    requires Says(a, matches, conv, db, rows) && c.conv == conv && c.db == db && forall r :: r in c.group ==> r in rows
    ensures Eval(HavingTree(a), c) == Bool(Some_(matches, c.group))
  {
    hide Eval, HavingTree;
    var ds := Values(a, c, c.group);
    forall i | 0 <= i < |ds| ensures Flag(ds[i]) && (IsTrue(ds[i]) <==> matches(c.group[i])) {
      assert ds[i] == Eval(a, c.(row := c.group[i]));
    }
    CountPositive(ds);
    SomeMatches(matches, c.group, ds);
    HavingEval(a, c);
  }

  lemma SomeMatches(matches: Row -> bool, spans: seq<Row>, ds: seq<Datum>)
    requires |ds| == |spans| && forall i :: 0 <= i < |ds| ==> (IsTrue(ds[i]) <==> matches(spans[i]))
    ensures Some_(matches, spans) <==> exists d :: d in ds && IsTrue(d)
  {
    if Some_(matches, spans) {
      var r :| r in spans && matches(r);
      var i :| 0 <= i < |spans| && spans[i] == r;
      assert ds[i] in ds;
    }
  }

  lemma HavingEval(a: Ast, c: Ctx)
    requires forall d :: d in Values(a, c, c.group) ==> Logical(d)
    ensures Eval(HavingTree(a), c) == Bool(CountOf(Values(a, c, c.group)) > 0)
  {
    hide Eval, CountOf;
    CountEval(a, c);
    ZeroEval(c);
    EvalCompare(Gt, Call(CountIf, One(a)), Lit(0), c);
  }

  lemma CountEval(a: Ast, c: Ctx)
    requires forall d :: d in Values(a, c, c.group) ==> Logical(d)
    ensures Eval(Call(CountIf, One(a)), c) == Num(CountOf(Values(a, c, c.group)) as real)
  {
    hide Run, EvalArgs, Apply, Partition, AndDatum, OrDatum, NotDatum, CompareDatum, InDatum, CountOf, Logical;
  }

  lemma ZeroEval(c: Ctx)
    ensures Eval(Lit(0), c) == Num(0.0)
  {
    hide Run, EvalArgs, Apply, Aggregate, Values, Partition, AndDatum, OrDatum, NotDatum, CompareDatum, InDatum;
  }

  lemma CursorMeaning(cur: Cursor, s: Summary, head: Row, c: Ctx)
    requires c.row == head + SummaryRow(s)
    ensures Eval(CursorTree(cur), c) == Bool(Below(Cursor(s.startNanos, s.traceID), cur))
  {
    SummaryRowScans(s);
    PairEval(Col(START_NANOS), Col(TRACE_KEY), c);
    PairEval(Hole(Num(cur.startNanos)), Hole(Str(cur.traceID)), c);
  }

  lemma PairEval(a: Ast, d: Ast, c: Ctx)
    ensures Eval(Group(Two(a, d)), c) == Pair(Eval(a, c), Eval(d, c))
  {
    EvalTwo(a, d, c);
  }

  lemma {:induction false} MaxIs(b: Binding, c: Ctx, spans: seq<Row>)
    requires spans != [] && AllSpans(b, spans)
    ensures MaxOf(Values(Col(b.timestamp), c, spans)) == Num(Latest(b, spans))
  {
    var ds := Values(Col(b.timestamp), c, spans);
    assert spans[0] in spans && ds[0] == Num(Time(b, spans[0]));
    if |spans| > 1 {
      MaxIs(b, c, spans[1..]);
      assert ds[1..] == Values(Col(b.timestamp), c, spans[1..]);
    }
  }

  lemma {:induction false} ArgMinIs(b: Binding, c: Ctx, spans: seq<Row>)
    requires spans != [] && AllSpans(b, spans)
    ensures ArgMinOf(Values(Col(b.spanName), c, spans), Values(Col(b.timestamp), c, spans)) == Str(RootName(b, spans))
  {
    var ds, keys := Values(Col(b.spanName), c, spans), Values(Col(b.timestamp), c, spans);
    assert spans[0] in spans && keys[0] == Num(Time(b, spans[0])) && ds[0] == Str(NameOf(b, spans[0]));
    if |spans| > 1 {
      ArgMinIs(b, c, spans[1..]);
      MinIs(b, c, spans[1..]);
      assert keys[1..] == Values(Col(b.timestamp), c, spans[1..]);
      assert ds[1..] == Values(Col(b.spanName), c, spans[1..]);
    }
  }

  lemma NanosEval(fn: Fn, b: Binding, c: Ctx)
    requires c.group != [] && AllSpans(b, c.group) && (fn.Min? || fn.Max?)
    ensures var n := if fn.Min? then Earliest(b, c.group) else Latest(b, c.group);
      Eval(Call(fn, One(Col(b.timestamp))), c) == Num(n) && Eval(NanosOf(fn, b), c) == Num(n)
  {
    MinIs(b, c, c.group);
    MaxIs(b, c, c.group);
    var at := Call(fn, One(Col(b.timestamp)));
    EvalTwo(at, at, c);
  }

  lemma DurationEval(b: Binding, c: Ctx)
    requires c.group != [] && AllSpans(b, c.group)
    ensures Eval(DurationTree(b), c) == Num((Latest(b, c.group) - Earliest(b, c.group)) / 1000000.0)
  {
    hide NanosOf;
    NanosEval(Min, b, c);
    NanosEval(Max, b, c);
    var span := Calc(Minus, NanosOf(Max, b), NanosOf(Min, b));
    EvalTwo(span, span, c);
    assert Eval(Parens(span), c) == Num(Latest(b, c.group) - Earliest(b, c.group));
    assert Eval(Lit(NANOS_PER_MILLI), c) == Num(1000000.0);
  }

  lemma RootEval(b: Binding, c: Ctx)
    requires c.group != [] && AllSpans(b, c.group)
    ensures Eval(RootTree(b), c) == Str(RootName(b, c.group))
  {
    ArgMinIs(b, c, c.group);
  }

  lemma SummaryProject(b: Binding, c: Ctx, id: string)
    requires c.group != [] && AllSpans(b, c.group) && c.row == c.group[0] && OfTrace(b, id, c.row)
    ensures Project(SummaryItems(b), c) == Some(SummaryRow(SummaryFor(b, c.group, id)))
  {
    hide SummaryItems, NanosOf, DurationTree, RootTree, Eval, Project, AllSpans, Earliest, Latest, RootName;
    NanosEval(Min, b, c);
    DurationEval(b, c);
    RootEval(b, c);
    IdEval(b, c, id);
    var s := SummaryFor(b, c.group, id);
    var o5 := map[SPAN_COUNT := Num(s.spanCount)];
    var o4 := map[ROOT_NAME := Str(s.rootName)] + o5;
    var o3 := map[DURATION := Num(s.durationMs)] + o4;
    var o2 := map[START_NANOS := Num(s.startNanos)] + o3;
    var r5 := Last(Alias(Call(Count, Nil), SPAN_COUNT));
    var r4 := More(Alias(RootTree(b), ROOT_NAME), r5);
    var r3 := More(Alias(DurationTree(b), DURATION), r4);
    var r2 := More(Alias(NanosOf(Min, b), START_NANOS), r3);
    var r1 := More(Alias(Call(Min, One(Col(b.timestamp))), START_TIME), r2);
    AliasProject(RootTree(b), ROOT_NAME, r5, c, o5);
    AliasProject(DurationTree(b), DURATION, r4, c, o4);
    AliasProject(NanosOf(Min, b), START_NANOS, r3, c, o3);
    AliasProject(Call(Min, One(Col(b.timestamp))), START_TIME, r2, c, o2);
    AliasProject(Col(b.traceID), TRACE_KEY, r1, c, map[START_TIME := Num(s.startTime)] + o2);
    SummaryItemsAre(b);
  }

  lemma IdEval(b: Binding, c: Ctx, id: string)
    requires OfTrace(b, id, c.row)
    ensures Eval(Col(b.traceID), c) == Str(id)
    ensures Project(Last(Alias(Call(Count, Nil), SPAN_COUNT)), c) == Some(map[SPAN_COUNT := Num(|c.group| as real)])
  {
    assert Eval(Call(Count, Nil), c) == Num(|c.group| as real);
  }

  lemma AliasProject(a: Ast, alias: string, rest: Items, c: Ctx, out: Row)
    requires Eval(a, c) != Bad && Project(rest, c) == Some(out)
    ensures Project(More(Alias(a, alias), rest), c) == Some(map[alias := Eval(a, c)] + out)
  {
    hide Eval;
  }

  lemma SummaryItemsAre(b: Binding)
    ensures SummaryItems(b) ==
      More(Alias(Col(b.traceID), TRACE_KEY), More(Alias(Call(Min, One(Col(b.timestamp))), START_TIME),
        More(Alias(NanosOf(Min, b), START_NANOS), More(Alias(DurationTree(b), DURATION),
          More(Alias(RootTree(b), ROOT_NAME), Last(Alias(Call(Count, Nil), SPAN_COUNT)))))))
  {
  }

  lemma ProjectMore(i: Item, rest: Items, c: Ctx)
    requires ProjectItem(i, c).Some? && Project(rest, c).Some?
    ensures Project(More(i, rest), c) == Some(ProjectItem(i, c).value + Project(rest, c).value)
  {
  }

  // ---- the groups of the statement --------------------------------------------------------------------------

  /** The part of the scroll a statement asks for: the traces that match and come after the cursor. */
  predicate Wanted(b: Binding, w: Window, rows: seq<Row>, matches: Row -> bool, cur: Option<Cursor>, id: string) {
    Some_(matches, TraceIn(b, w, rows, id)) && After(cur, Position(b, w, rows, id))
  }

  ghost predicate FilterSays(t: Option<Ast>, matches: Row -> bool, conv: Conv, db: Db, rows: seq<Row>) {
    match t
    case None => forall r :: matches(r)
    case Some(a) => Says(a, matches, conv, db, rows)
  }

  lemma HavingChain(
    b: Binding, w: Window, t: Option<Ast>, matches: Row -> bool, cur: Option<Cursor>, conv: Conv, db: Db,
    rows: seq<Row>,
    id: string, head: Row, c: Ctx)
    requires FilterSays(t, matches, conv, db, rows) && c.conv == conv && c.db == db
    requires c.group == TraceIn(b, w, rows, id) && c.group != []
    requires c.row == head + SummaryRow(SummaryOf(b, w, rows, id))
    ensures HavingTrees(t, cur) == [] ==> Wanted(b, w, rows, matches, cur, id)
    ensures HavingTrees(t, cur) != [] ==>
      (var d := Eval(Chain(HavingTrees(t, cur), false), c);
       Logical(d) && (IsTrue(d) <==> Wanted(b, w, rows, matches, cur, id)))
  {
    hide Eval, Chain, SummaryRow;
    TraceInIs(b, w, rows, id);
    assert c.group[0] in c.group;
    var trees := HavingTrees(t, cur);
    if t.Some? { HavingMeaning(t.value, matches, conv, db, rows, c); }
    if cur.Some? { CursorMeaning(cur.value, SummaryOf(b, w, rows, id), head, c); }
    forall x | x in trees ensures Flag(Eval(x, c)) {}
    if trees != [] {
      ChainMeaning(trees, false, c);
      assert t.Some? ==> trees[0] == HavingTree(t.value) && trees[0] in trees;
      assert cur.Some? ==> trees[|trees| - 1] == CursorTree(cur.value) && trees[|trees| - 1] in trees;
    }
  }

  /** The rows grouped under an id are the spans of that trace in the window. */
  lemma GroupIs(b: Binding, w: Window, rows: seq<Row>, permits: Row -> bool, id: string)
    requires Admitted(b, w, rows, permits, id)
    ensures var kept := Select((r: Row) => InWindow(b, w, r) && OfAdmitted(b, w, rows, permits, r), rows);
      Partition(b.traceID, Str(id), kept) == TraceIn(b, w, rows, id)
  {
    hide Admitted;
    var q := (r: Row) => InWindow(b, w, r) && OfAdmitted(b, w, rows, permits, r);
    var p := (r: Row) => b.traceID in r && r[b.traceID] == Str(id);
    PartitionIs(b.traceID, Str(id), Select(q, rows), p);
    SelectTwice(p, q, (r: Row) => OfTrace(b, id, r) && InWindow(b, w, r), rows);
  }

  function OutOf(b: Binding, w: Window, rows: seq<Row>, key: Datum): Row {
    if key.Str? then SummaryRow(SummaryOf(b, w, rows, key.s)) else map[]
  }

  predicate Passes(b: Binding, w: Window, rows: seq<Row>, matches: Row -> bool, cur: Option<Cursor>, key: Datum) {
    key.Str? && Wanted(b, w, rows, matches, cur, key.s)
  }

  lemma TraceYields(
    b: Binding, w: Window, p: Ast, permits: Row -> bool, t: Option<Ast>, matches: Row -> bool, cur: Option<Cursor>,
    limit: nat, conv: Conv, db: Db, id: string)
    requires b.table in db && AllSpans(b, db[b.table]) && FilterSays(t, matches, conv, db, db[b.table])
    requires Admitted(b, w, db[b.table], permits, id)
    ensures var rows := db[b.table];
      var kept := Select((r: Row) => InWindow(b, w, r) && OfAdmitted(b, w, rows, permits, r), rows);
      GroupYields(ListQuery(b, w, p, t, cur, limit), b.traceID, Str(id), Ctx(conv, db, map[], kept), kept,
                  OutOf(b, w, rows, Str(id)), Passes(b, w, rows, matches, cur, Str(id)))
  {
    hide Eval, Chain, Project, SummaryItems, SummaryRow, Admitted, Wanted, OfAdmitted, FilterSays, WindowTrees,
      HavingTrees, TraceIn, Partition;
    var rows := db[b.table];
    var q := ListQuery(b, w, p, t, cur, limit);
    var kept := Select((r: Row) => InWindow(b, w, r) && OfAdmitted(b, w, rows, permits, r), rows);
    GroupIs(b, w, rows, permits, id);
    var group := TraceIn(b, w, rows, id);
    GroupSome(b, w, rows, permits, id);
    var g := Ctx(conv, db, group[0], group);
    SummaryProject(b, g, id);
    var out := SummaryRow(SummaryOf(b, w, rows, id));
    HavingChain(b, w, t, matches, cur, conv, db, rows, id, group[0], g.(row := group[0] + out));
  }

  lemma GroupSome(b: Binding, w: Window, rows: seq<Row>, permits: Row -> bool, id: string)
    requires Admitted(b, w, rows, permits, id) && AllSpans(b, rows)
    ensures var group := TraceIn(b, w, rows, id); group != [] && AllSpans(b, group) && OfTrace(b, id, group[0])
  {
    TraceInIs(b, w, rows, id);
    assert TraceIn(b, w, rows, id)[0] in TraceIn(b, w, rows, id);
  }

  // ---- the page ----------------------------------------------------------------------------------------------

  /** An entry for a trace: its output, and the keys it is sorted by. */
  predicate Shows(e: Entry, s: Summary) {
    && e.out == SummaryRow(s)
    && START_NANOS in e.scope && e.scope[START_NANOS] == Num(s.startNanos)
    && TRACE_KEY in e.scope && e.scope[TRACE_KEY] == Str(s.traceID)
  }

  /** The traces on the page and on all later ones. */
  predicate Due(
    b: Binding, w: Window, rows: seq<Row>, permits: Row -> bool, matches: Row -> bool, cur: Option<Cursor>, id: string)
  {
    Listed(b, w, rows, permits, matches, id) && After(cur, Position(b, w, rows, id))
  }

  lemma KeysAre(b: Binding, w: Window, rows: seq<Row>, permits: Row -> bool)
    requires AllSpans(b, rows)
    ensures var kept := Select((r: Row) => InWindow(b, w, r) && OfAdmitted(b, w, rows, permits, r), rows);
      var keys := Distinct(ColumnOf(b.traceID, kept));
      NoRepeats(keys) && forall k :: k in keys <==> k.Str? && Admitted(b, w, rows, permits, k.s)
  {
    hide InWindow;
    var q := (r: Row) => InWindow(b, w, r) && OfAdmitted(b, w, rows, permits, r);
    var kept := Select(q, rows);
    SelectIs(q, rows);
    ColumnOfIs(b.traceID, kept);
    DistinctIs(ColumnOf(b.traceID, kept));
    forall k: Datum | k.Str? && Admitted(b, w, rows, permits, k.s)
      ensures k in ColumnOf(b.traceID, kept)
    {
      TraceInIs(b, w, rows, k.s);
      var r :| r in TraceIn(b, w, rows, k.s) && permits(r);
      assert r in kept;
    }
  }

  /** One entry for every trace that is due, and the statement sorts and cuts them. */
  lemma ListGroups(
    b: Binding, w: Window, p: Ast, permits: Row -> bool, t: Option<Ast>, matches: Row -> bool, cur: Option<Cursor>,
    limit: nat, conv: Conv, db: Db)
    returns (ids: seq<string>, es: seq<Entry>)
    requires b.table in db && AllSpans(b, db[b.table])
    requires Says(p, permits, conv, db, db[b.table]) && FilterSays(t, matches, conv, db, db[b.table])
    ensures NoRepeats(ids) && forall id :: id in ids <==> Due(b, w, db[b.table], permits, matches, cur, id)
    ensures |es| == |ids|
    ensures forall i :: 0 <= i < |ids| ==> Shows(es[i], SummaryOf(b, w, db[b.table], ids[i]))
    ensures Run(ListQuery(b, w, p, t, cur, limit), conv, db) == Some(Take(limit, Outs(Sort(NEWEST_FIRST, es))))
  {
    hide Run, Finish, Eval, Keep, Chain, SummaryItems, WindowTrees, HavingTrees, SummaryRow, TraceIn, InWindow,
      Partition,
      OfAdmitted, Distinct, Sort, Position, After, GroupYields;
    var rows := db[b.table];
    var kept := Select((r: Row) => InWindow(b, w, r) && OfAdmitted(b, w, rows, permits, r), rows);
    var q := ListQuery(b, w, p, t, cur, limit);
    var c := Ctx(conv, db, map[], kept);
    var keys := Distinct(ColumnOf(b.traceID, kept));
    ListKeeps(b, w, p, permits, conv, db);
    RunIs(q, conv, db, kept);
    KeysAre(b, w, rows, permits);
    var out := (k: Datum) => OutOf(b, w, rows, k);
    var pass := (k: Datum) => Passes(b, w, rows, matches, cur, k);
    forall k | k in keys ensures GroupYields(q, b.traceID, k, c, kept, out(k), pass(k)) {
      TraceYields(b, w, p, permits, t, matches, cur, limit, conv, db, k.s);
    }
    GroupEntriesAre(q, b.traceID, keys, c, kept, out, pass);
    es := GroupEntries(q, b.traceID, keys, c, kept).value;
    var ks := Select(pass, keys);
    SelectIs(pass, keys);
    SelectNoRepeats(pass, keys);
    ids := seq(|ks|, i requires 0 <= i < |ks| => KeyText(ks[i]));
    IdsOfKeys(b, w, rows, permits, matches, cur, ks, ids);
    EntriesShow(b, w, rows, kept, out, ks, ids, es);
    FinishGroups(q, b, conv, db, kept, keys, es, limit);
  }

  lemma IdsOfKeys(
    b: Binding, w: Window, rows: seq<Row>, permits: Row -> bool, matches: Row -> bool, cur: Option<Cursor>,
    ks: seq<Datum>, ids: seq<string>)
    requires |ids| == |ks| && NoRepeats(ks) && forall i :: 0 <= i < |ks| ==> ids[i] == KeyText(ks[i])
    requires forall k :: k in ks <==>
      k.Str? && Admitted(b, w, rows, permits, k.s) && Passes(b, w, rows, matches, cur, k)
    ensures NoRepeats(ids) && forall id :: id in ids <==> Due(b, w, rows, permits, matches, cur, id)
    ensures forall i :: 0 <= i < |ks| ==> ks[i] == Str(ids[i])
  {
    hide TraceIn, After, Position;
    assert forall i :: 0 <= i < |ks| ==> ks[i] in ks;
    forall id ensures id in ids <==> Due(b, w, rows, permits, matches, cur, id) {
      if Due(b, w, rows, permits, matches, cur, id) { assert Str(id) in ks; }
    }
  }

  lemma EntriesShow(
    b: Binding, w: Window, rows: seq<Row>, kept: seq<Row>, out: Datum -> Row, ks: seq<Datum>, ids: seq<string>,
    es: seq<Entry>)
    requires EntriesFor(es, ks, b.traceID, kept, out) && |ids| == |ks|
    requires forall i :: 0 <= i < |ks| ==> ks[i] == Str(ids[i]) && out(ks[i]) == OutOf(b, w, rows, ks[i])
    ensures forall i :: 0 <= i < |ids| ==> Shows(es[i], SummaryOf(b, w, rows, ids[i]))
  {
    hide SummaryRow, SummaryOf, Partition;
    forall i | 0 <= i < |ids| ensures Shows(es[i], SummaryOf(b, w, rows, ids[i])) {
      SummaryRowScans(SummaryOf(b, w, rows, ids[i]));
    }
  }

  function KeyText(k: Datum): string {
    if k.Str? then k.s else ""
  }

  lemma FinishGroups(q: Query, b: Binding, conv: Conv, db: Db, kept: seq<Row>, keys: seq<Datum>, es: seq<Entry>,
    limit: nat)
    requires !q.distinct && q.items == SummaryItems(b) && q.group == Some(TRACE_KEY) && q.order == NEWEST_FIRST
    requires q.limit == Some(Hole(Num(limit as real))) && keys == Distinct(ColumnOf(b.traceID, kept))
    requires GroupEntries(q, b.traceID, keys, Ctx(conv, db, map[], kept), kept) == Some(es)
    ensures Finish(q, conv, db, kept) == Some(Take(limit, Outs(Sort(NEWEST_FIRST, es))))
  {
    hide GroupEntries, Sort, Distinct;
    assert KeyColumn(q.items, TRACE_KEY) == Some(b.traceID);
    assert (limit as real).Floor == limit;
  }

  function PositionOf(s: Summary): Cursor {
    Cursor(s.startNanos, s.traceID)
  }

  function PositionsOf(ts: seq<Summary>): (ps: seq<Cursor>)
    ensures |ps| == |ts| && forall i :: 0 <= i < |ts| ==> ps[i] == PositionOf(ts[i])
  {
    seq(|ts|, i requires 0 <= i < |ts| => PositionOf(ts[i]))
  }

  /** Sorting newest first is the order of the scroll. */
  lemma BeforeMeans(e: Entry, s: Summary, f: Entry, t: Summary)
    requires Shows(e, s) && Shows(f, t)
    ensures Before(NEWEST_FIRST, e.scope, f.scope) <==>
      PositionOf(s) == PositionOf(t) || Below(PositionOf(t), PositionOf(s))
  {
    hide SummaryRow;
    assert NEWEST_FIRST[1..] == [Key.Key(TRACE_KEY, true)];
    assert Before([Key.Key(TRACE_KEY, true)], e.scope, f.scope) <==>
      s.traceID == t.traceID || StrLess(t.traceID, s.traceID) by {
      assert [Key.Key(TRACE_KEY, true)][1..] == [];
    }
  }

  predicate ShowsAll(es: seq<Entry>, ss: seq<Summary>) {
    && |es| == |ss|
    && (forall i :: 0 <= i < |es| ==> Shows(es[i], ss[i]))
    && (forall i, j :: 0 <= i < j < |ss| ==> ss[i].traceID != ss[j].traceID)
  }

  lemma ShownOnce(es: seq<Entry>, ss: seq<Summary>)
    requires ShowsAll(es, ss)
    ensures NoRepeats(es) && AllKeyed(NEWEST_FIRST, [true, false], es)
  {
    hide SummaryRow;
    forall i, j | 0 <= i < j < |es| ensures es[i] != es[j] {
      SummaryRowScans(ss[i]);
      SummaryRowScans(ss[j]);
    }
    forall e | e in es ensures Keyed(NEWEST_FIRST, [true, false], e.scope) {
      var i :| 0 <= i < |es| && es[i] == e;
      assert Shows(e, ss[i]);
    }
  }

  /** The sorted entries show the same summaries, in strictly descending order. */
  lemma SortedShows(es: seq<Entry>, ss: seq<Summary>) returns (ts: seq<Summary>)
    requires ShowsAll(es, ss)
    ensures var sorted := Sort(NEWEST_FIRST, es);
      && |ts| == |sorted| == |es|
      && forall i :: 0 <= i < |ts| ==> sorted[i].out == SummaryRow(ts[i])
    ensures forall s :: s in ts <==> s in ss
    ensures forall i, j :: 0 <= i < j < |ts| ==> Below(PositionOf(ts[j]), PositionOf(ts[i]))
  {
    hide SummaryRow, Sort, Before, Below, Keyed;
    var sorted := Sort(NEWEST_FIRST, es);
    ShownOnce(es, ss);
    SortIs(NEWEST_FIRST, [true, false], es);
    MultisetMembers(sorted, es);
    NoRepeatsPermuted(es, sorted);
    forall k | 0 <= k < |sorted| ensures exists i :: 0 <= i < |es| && es[i] == sorted[k] {
      assert sorted[k] in es;
    }
    ts := seq(|sorted|, k requires 0 <= k < |sorted| => var i :| 0 <= i < |es| && es[i] == sorted[k]; ss[i]);
    forall k | 0 <= k < |sorted| ensures Shows(sorted[k], ts[k]) && ts[k] in ss {
    }
    forall s | s in ss ensures s in ts {
      AllShown(es, ss, sorted, ts, s);
    }
    forall i, j | 0 <= i < j < |ts| ensures Below(PositionOf(ts[j]), PositionOf(ts[i])) {
      BeforeMeans(sorted[i], ts[i], sorted[j], ts[j]);
      DifferentShown(es, ss, sorted[i], ts[i], sorted[j], ts[j]);
    }
  }

  lemma AllShown(es: seq<Entry>, ss: seq<Summary>, sorted: seq<Entry>, ts: seq<Summary>, s: Summary)
    requires ShowsAll(es, ss) && |ts| == |sorted| && s in ss
    requires forall e :: e in es ==> e in sorted
    requires forall k :: 0 <= k < |sorted| ==> Shows(sorted[k], ts[k])
    ensures s in ts
  {
    hide SummaryRow;
    var i :| 0 <= i < |ss| && ss[i] == s;
    assert es[i] in sorted;
    var k :| 0 <= k < |sorted| && sorted[k] == es[i];
    SummaryRowScans(s);
    SummaryRowScans(ts[k]);
    assert ts[k] in ts;
  }

  lemma DifferentShown(es: seq<Entry>, ss: seq<Summary>, e: Entry, s: Summary, f: Entry, t: Summary)
    requires ShowsAll(es, ss) && e in es && f in es && e != f && Shows(e, s) && Shows(f, t)
    ensures s.traceID != t.traceID
  {
    hide SummaryRow;
    var i, j :| 0 <= i < |es| && 0 <= j < |es| && es[i] == e && es[j] == f;
    SummaryRowScans(s);
    SummaryRowScans(t);
    SummaryRowScans(ss[i]);
    SummaryRowScans(ss[j]);
    assert i != j;
  }

  lemma PageCut(ts: seq<Summary>, all: set<Cursor>, cur: Option<Cursor>, limit: nat)
    requires forall i, j :: 0 <= i < j < |ts| ==> Below(PositionOf(ts[j]), PositionOf(ts[i]))
    requires forall c :: c in all && After(cur, c) <==> exists s :: s in ts && PositionOf(s) == c
    ensures IsPage(PositionsOf(Take(limit, ts)), all, cur, limit)
  {
    hide Below, After;
    var page := Take(limit, ts);
    var ps := PositionsOf(page);
    forall c | c in ps ensures c in all && After(cur, c) {
      var i :| 0 <= i < |ps| && ps[i] == c;
      assert ts[i] in ts;
    }
    forall c | c in all && After(cur, c) && c !in ps
      ensures |ps| == limit && forall d :: d in ps ==> Below(c, d)
    {
      var s :| s in ts && PositionOf(s) == c;
      var k :| 0 <= k < |ts| && ts[k] == s;
      assert |page| <= k;
      forall d | d in ps ensures Below(c, d) {
        var i :| 0 <= i < |ps| && ps[i] == d;
        assert page[i] == ts[i];
      }
    }
  }

  /** A summary tells the truth about its trace in the window: when its first span starts and what it is called,
      how long after that its last span starts, and how many spans there are. */
  predicate Truthful(b: Binding, w: Window, rows: seq<Row>, s: Summary) {
    var spans, end := TraceIn(b, w, rows, s.traceID), s.startTime + s.durationMs * 1000000.0;
    && (exists r :: r in spans && Time(b, r) == s.startTime && NameOf(b, r) == s.rootName)
    && (exists r :: r in spans && Time(b, r) == end)
    && (forall r :: r in spans ==> s.startTime <= Time(b, r) <= end)
    && s.startNanos == s.startTime && s.spanCount == |spans| as real
  }

  lemma SummaryIsTruthful(b: Binding, w: Window, rows: seq<Row>, id: string)
    requires TraceIn(b, w, rows, id) != []
    ensures Truthful(b, w, rows, SummaryOf(b, w, rows, id))
  {
    var spans := TraceIn(b, w, rows, id);
    EarliestIs(b, spans);
    LatestIs(b, spans);
    RootIs(b, spans);
  }

  /** The statement returns the next page of the traces that the policy admits and the filter matches. */
  lemma ListIsPage(
    b: Binding, w: Window, p: Ast, permits: Row -> bool, t: Option<Ast>, matches: Row -> bool, cur: Option<Cursor>,
    limit: nat, conv: Conv, db: Db)
    requires b.table in db && AllSpans(b, db[b.table])
    requires Says(p, permits, conv, db, db[b.table]) && FilterSays(t, matches, conv, db, db[b.table])
    ensures var out := Run(ListQuery(b, w, p, t, cur, limit), conv, db);
      && out.Some? && ScanSummaries(out.value).Some?
      && var ts := ScanSummaries(out.value).value;
        && IsPage(PositionsOf(ts), Positions(b, w, db[b.table], permits, matches), cur, limit)
        && forall s :: s in ts ==> Truthful(b, w, db[b.table], s)
  {
    hide Run, ListQuery, Shows, SummaryRow, Below, Sort, Listed, Position, IsPage, Says, FilterSays, Truthful,
      AllSpans, Due, Earliest, Latest, RootName, TraceIn;
    var rows := db[b.table];
    var ids, es := ListGroups(b, w, p, permits, t, matches, cur, limit, conv, db);
    var ss := seq(|ids|, i requires 0 <= i < |ids| => SummaryOf(b, w, rows, ids[i]));
    var ts := SortedShows(es, ss);
    forall c
      ensures c in Positions(b, w, rows, permits, matches) && After(cur, c) <==>
        exists s :: s in ts && PositionOf(s) == c
    {
      DueShown(b, w, rows, permits, matches, cur, ids, ss, ts, c);
    }
    PageCut(ts, Positions(b, w, rows, permits, matches), cur, limit);
    var all := Outs(Sort(NEWEST_FIRST, es));
    ScansAs(Take(limit, all), Take(limit, ts));
    AllTruthful(b, w, rows, permits, matches, cur, ids, ss);
    forall s | s in Take(limit, ts) ensures Truthful(b, w, rows, s) {
      assert s in ss;
    }
  }

  lemma AllTruthful(
    b: Binding, w: Window, rows: seq<Row>, permits: Row -> bool, matches: Row -> bool, cur: Option<Cursor>,
    ids: seq<string>, ss: seq<Summary>)
    requires forall id :: id in ids ==> Due(b, w, rows, permits, matches, cur, id)
    requires |ss| == |ids| && forall i :: 0 <= i < |ids| ==> ss[i] == SummaryOf(b, w, rows, ids[i])
    ensures forall s :: s in ss ==> Truthful(b, w, rows, s)
  {
    hide Truthful, SummaryOf, After, TraceIn;
    forall i | 0 <= i < |ids| ensures Truthful(b, w, rows, ss[i]) {
      assert ids[i] in ids;
      SummaryIsTruthful(b, w, rows, ids[i]);
    }
  }

  lemma DueShown(
    b: Binding, w: Window, rows: seq<Row>, permits: Row -> bool, matches: Row -> bool, cur: Option<Cursor>,
    ids: seq<string>, ss: seq<Summary>, ts: seq<Summary>, c: Cursor)
    requires forall id :: id in ids <==> Due(b, w, rows, permits, matches, cur, id)
    requires |ss| == |ids| && forall i :: 0 <= i < |ids| ==> ss[i] == SummaryOf(b, w, rows, ids[i])
    requires forall s :: s in ts <==> s in ss
    ensures c in Positions(b, w, rows, permits, matches) && After(cur, c) <==> exists s :: s in ts && PositionOf(s) == c
  {
    hide Listed, After, TraceIn;
    PositionOfTrace(b, w, rows, permits, matches, c);
    if c in Positions(b, w, rows, permits, matches) && After(cur, c) {
      assert c.traceID in ids;
      var i :| 0 <= i < |ids| && ids[i] == c.traceID;
      assert ss[i] in ts && PositionOf(ss[i]) == c;
    }
    if s :| s in ts && PositionOf(s) == c {
      var i :| 0 <= i < |ss| && ss[i] == s;
      assert ids[i] in ids;
    }
  }

  lemma ScansAs(rows: seq<Row>, ts: seq<Summary>)
    requires |rows| == |ts| && forall i :: 0 <= i < |rows| ==> rows[i] == SummaryRow(ts[i])
    ensures ScanSummaries(rows) == Some(ts)
  {
    hide SummaryRow;
    forall i | 0 <= i < |rows| ensures ScanSummary(rows[i]) == Some(ts[i]) {
      SummaryRowScans(ts[i]);
    }
    assert ScanSummaries(rows).value == ts;
  }
}
