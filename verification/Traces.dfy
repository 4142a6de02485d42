/** The authorized statements over the span table: the page of trace summaries, the spans of a page and the
    spans of one trace, as the text and arguments that are sent to the database. */
module Traces {
  import opened Basics
  import opened Schema
  import opened SqlSyntax
  import opened SqlText
  import opened SqlStatements
  import opened SqlSemantics
  import opened Expression
  import opened Translate
  import Policy

  datatype Window = Window(from: real, to: real)

  /** The position of a trace in the scroll: its start, in nanoseconds, and its id. */
  datatype Cursor = Cursor(startNanos: real, traceID: string)

  /** One trace of a list: when it starts, how many milliseconds pass until its last span starts, what its first
      span is called and how many spans it has. */
  datatype Summary = Summary(
    traceID: string, startTime: real, startNanos: real, durationMs: real, rootName: string, spanCount: real)

  datatype ListResult = ListResult(traces: seq<Summary>, next: Option<Cursor>)

  datatype SpanPage = SpanPage(rows: seq<Row>, next: Option<Cursor>)

  /** Which table to read and who is asking. */
  datatype Request = Request(binding: Binding, programs: seq<Policy.Program>, attrs: map<string, string>)

  datatype Failure = SourceFailed | BadColumn | NotVisible

  /** What the database answers to a statement; None is an error. */
  type Connection = (seq<Token>, seq<Datum>) -> Option<seq<Row>>

  const TRACE_KEY := "TraceKey"
  const START_TIME := "StartTime"
  const START_NANOS := "StartNanos"
  const DURATION := "DurationMs"
  const ROOT_NAME := "RootName"
  const SPAN_COUNT := "SpanCount"
  const PERMITTED := "__lightship_permitted"
  const TRACE_START := "__lightship_trace_start"

  function QueryFragment(q: Query): Fragment {
    Fragment(TextOfQuery(q), ArgsOfQuery(q))
  }

  // ---- the trace ids a caller may see ----------------------------------------------------------------

  function WindowTrees(b: Binding, w: Window): seq<Ast> {
    [Compare(Ge, Col(b.timestamp), Hole(Num(w.from))), Compare(Lt, Col(b.timestamp), Hole(Num(w.to)))]
  }

  function WindowFragment(b: Binding, w: Window): Fragment {
    Fragment([WORD(b.timestamp), CMP(Ge), MARK, AND, WORD(b.timestamp), CMP(Lt), MARK], [Num(w.from), Num(w.to)])
  }

  function IdsQuery(b: Binding, conds: seq<Ast>): Query
    requires conds != []
  {
    Query(true, Last(Name(b.traceID)), Table(b.table), Chain(conds, false), None, None, [], None)
  }

  function TraceIDs(b: Binding, scope: Fragment, q: Fragment): Fragment {
    var where := if scope.sql != [] then scope.sql + ([AND] + q.sql) else q.sql;
    Fragment([SELECT, DISTINCT, WORD(b.traceID), FROM, WORD(b.table), WHERE] + where, scope.args + q.args)
  }

  lemma WindowText(b: Binding, w: Window)
    ensures WindowFragment(b, w) == Fragment(JoinedText(WindowTrees(b, w), false), JoinedArgs(WindowTrees(b, w), false))
  {
    hide TextOf, ArgsOf;
    var from, to := WindowTrees(b, w)[0], WindowTrees(b, w)[1];
    assert WindowTrees(b, w)[1..] == [to];
    CompareText(Ge, Col(b.timestamp), Hole(Num(w.from)));
    CompareText(Lt, Col(b.timestamp), Hole(Num(w.to)));
    AtomTexts(b.timestamp, Num(w.from), 0);
    AtomTexts(b.timestamp, Num(w.to), 0);
    ChainText(from, to, false);
    assert Chain([to], false) == to;
  }

  /** The statement that selects trace ids in a scope is the scope and the predicate joined by AND. */
  lemma TraceIDsText(b: Binding, scope: seq<Ast>, p: Ast)
    ensures TraceIDs(b, Fragment(JoinedText(scope, false), JoinedArgs(scope, false)), FragmentOf(p))
      == QueryFragment(IdsQuery(b, scope + [p]))
  {
    hide TextOf, ArgsOf, ItemsText;
    var q := IdsQuery(b, scope + [p]);
    StatementIs(q);
    StatementArgsAre(q);
    JoinOneMore(scope, p, false);
    if scope != [] { TextNotEmpty(Chain(scope, false)); }
    NameText(b.traceID);
    assert EndText(q, []) == [];
    Flattened(b, TextOf(q.where));
    assert StatementArgs(q) == ArgsOf(q.where);
    assert JoinedText(scope, false) + ([] + TextOf(p)) == JoinedText(scope, false) + TextOf(p);
  }

  lemma Flattened(b: Binding, where: seq<Token>)
    ensures [SELECT] + ([DISTINCT] + ([WORD(b.traceID)] + ([FROM] + ([WORD(b.table)] + ([WHERE] + (where + []))))))
      == [SELECT, DISTINCT, WORD(b.traceID), FROM, WORD(b.table), WHERE] + where
  {
  }

  lemma TextNotEmpty(a: Ast)
    ensures TextOf(a) != []
  {
    SqlRoundTrip.PutOpens(a, End);
  }

  // ---- the page of summaries ---------------------------------------------------------------------------

  function CursorTree(c: Cursor): Ast {
    Compare(Lt, Group(Two(Col(START_NANOS), Col(TRACE_KEY))), Group(Two(Hole(Num(c.startNanos)), Hole(Str(c.traceID)))))
  }

  function HavingTrees(f: Option<Ast>, cur: Option<Cursor>): seq<Ast> {
    (match f case None => [] case Some(a) => [HavingTree(a)])
    + (match cur case None => [] case Some(c) => [CursorTree(c)])
  }

  const NANOS_PER_MILLI := 1000000

  function NanosOf(fn: Fn, b: Binding): Ast {
    Call(ToUnixNano, One(Call(fn, One(Col(b.timestamp)))))
  }

  function DurationTree(b: Binding): Ast {
    Calc(Divide, Parens(Calc(Minus, NanosOf(Max, b), NanosOf(Min, b))), Lit(NANOS_PER_MILLI))
  }

  function RootTree(b: Binding): Ast {
    Call(ArgMin, Two(Col(b.spanName), Col(b.timestamp)))
  }

  function SummaryItems(b: Binding): Items {
    More(Alias(Col(b.traceID), TRACE_KEY),
    More(Alias(Call(Min, One(Col(b.timestamp))), START_TIME),
    More(Alias(NanosOf(Min, b), START_NANOS),
    More(Alias(DurationTree(b), DURATION),
    More(Alias(RootTree(b), ROOT_NAME),
    Last(Alias(Call(Count, Nil), SPAN_COUNT)))))))
  }

  const NEWEST_FIRST: seq<Key> := [Key.Key(START_NANOS, true), Key.Key(TRACE_KEY, true)]

  function ListQuery(b: Binding, w: Window, p: Ast, f: Option<Ast>, cur: Option<Cursor>, limit: nat): Query {
    var ids := InSelect(Col(b.traceID), IdsQuery(b, WindowTrees(b, w) + [p]));
    var conds := HavingTrees(f, cur);
    Query(false, SummaryItems(b), Table(b.table), Chain(WindowTrees(b, w) + [ids], false), Some(TRACE_KEY),
          if conds == [] then None else Some(Chain(conds, false)), NEWEST_FIRST, Some(Hole(Num(limit as real))))
  }

  function DurationText(b: Binding): seq<Token> {
    [LP] + [FN(ToUnixNano), LP, FN(Max), LP, WORD(b.timestamp), RP, RP]
    + [SIGN(Minus)] + [FN(ToUnixNano), LP, FN(Min), LP, WORD(b.timestamp), RP, RP]
    + [RP] + [SIGN(Divide)] + [NUM(NANOS_PER_MILLI)]
  }

  function SummaryItemsText(b: Binding): seq<Token> {
    [WORD(b.traceID), AS, WORD(TRACE_KEY), COMMA]
    + [FN(Min), LP, WORD(b.timestamp), RP, AS, WORD(START_TIME), COMMA]
    + [FN(ToUnixNano), LP, FN(Min), LP, WORD(b.timestamp), RP, RP, AS, WORD(START_NANOS), COMMA]
    + (DurationText(b) + [AS, WORD(DURATION), COMMA])
    + ([FN(ArgMin), LP, WORD(b.spanName), COMMA, WORD(b.timestamp), RP] + [AS, WORD(ROOT_NAME), COMMA])
    + [FN(Count), LP, RP, AS, WORD(SPAN_COUNT)]
  }

  /** Assembles the statement of a page: the policy narrows by trace id in the WHERE, the filter and the
      cursor are conditions on the group. */
  method ListStatement(
    b: Binding, w: Window, pred: Fragment, f: Option<Fragment>, cur: Option<Cursor>, limit: nat,
    ghost p: Ast, ghost t: Option<Ast>)
    returns (s: Fragment)
    requires pred == FragmentOf(p)
    requires f == match t case None => None case Some(a) => Some(FragmentOf(a))
    ensures s == QueryFragment(ListQuery(b, w, p, t, cur, limit))
  {
    hide TextOf, ArgsOf, ListQuery, QueryFragment;
    var window := WindowFragment(b, w);
    var ids := TraceIDs(b, window, pred);
    WindowText(b, w);
    TraceIDsText(b, WindowTrees(b, w), p);

    var having: seq<seq<Token>>, havingArgs: seq<Datum> := [], [];
    ghost var trees: seq<Ast> := [];
    JoinedNoneAnd();
    if f.Some? && f.value.sql != [] {
      var h := Having(f.value);
      HavingText(t.value);
      JoinedStepAnd(having, trees, HavingTree(t.value));
      trees := trees + [HavingTree(t.value)];
      having, havingArgs := having + [h.sql], havingArgs + h.args;
    }
    if t.Some? { TextNotEmpty(t.value); }
    if cur.Some? {
      CursorText(cur.value);
      JoinedStepAnd(having, trees, CursorTree(cur.value));
      trees := trees + [CursorTree(cur.value)];
      having := having + [[LP, WORD(START_NANOS), COMMA, WORD(TRACE_KEY), RP, CMP(Lt), LP, MARK, COMMA, MARK, RP]];
      havingArgs := havingArgs + [Num(cur.value.startNanos), Str(cur.value.traceID)];
    }
    var havingSQL := [];
    if |having| > 0 { havingSQL := [HAVING] + Joined(having, AND); }
    assert trees == HavingTrees(t, cur);

    var sql := [SELECT] + (SummaryItemsText(b) + ([FROM] + ([WORD(b.table)] + ([WHERE] +
      (window.sql + ([AND] + ([WORD(b.traceID), IN, LP] + ids.sql + [RP])))
      + ([GROUPBY, WORD(TRACE_KEY)] + (havingSQL
      + ([ORDERBY, WORD(START_NANOS), DESC, COMMA, WORD(TRACE_KEY), DESC] + [LIMIT, MARK])))))));
    var args := window.args;
    args := args + ids.args;
    args := args + havingArgs;
    args := args + [Num(limit as real)];
    ListText(b, w, p, t, cur, limit, havingSQL, havingArgs);
    return Fragment(sql, args);
  }

  lemma JoinedNoneAnd()
    ensures Joined([], AND) == [] && JoinedText([], false) == [] && JoinedArgs([], false) == []
  {
  }

  lemma JoinedStepAnd(clauses: seq<seq<Token>>, trees: seq<Ast>, a: Ast)
    requires |clauses| == |trees| && Joined(clauses, AND) == JoinedText(trees, false)
    ensures Joined(clauses + [TextOf(a)], AND) == JoinedText(trees + [a], false)
    ensures JoinedArgs(trees + [a], false) == JoinedArgs(trees, false) + ArgsOf(a)
  {
    hide TextOf, ArgsOf, JoinedArgs;
    JoinOneMore(trees, a, false);
    assert (clauses + [TextOf(a)])[..|clauses|] == clauses;
    if clauses == [] {
      assert [] + ([] + TextOf(a)) == TextOf(a);
    } else {
      assert JoinedText(trees, false) + ([AND] + TextOf(a)) == JoinedText(trees, false) + [AND] + TextOf(a);
    }
  }

  lemma CursorText(c: Cursor)
    ensures TextOf(CursorTree(c))
      == [LP, WORD(START_NANOS), COMMA, WORD(TRACE_KEY), RP, CMP(Lt), LP, MARK, COMMA, MARK, RP]
    ensures ArgsOf(CursorTree(c)) == [Num(c.startNanos), Str(c.traceID)]
  {
    var n, i := Num(c.startNanos), Str(c.traceID);
    CompareText(Lt, Group(Two(Col(START_NANOS), Col(TRACE_KEY))), Group(Two(Hole(n), Hole(i))));
    PairText(Col(START_NANOS), Col(TRACE_KEY));
    PairText(Hole(n), Hole(i));
    AtomTexts(START_NANOS, n, 0);
    AtomTexts(TRACE_KEY, i, 0);
  }

  lemma SummaryText(b: Binding)
    ensures ItemsText(SummaryItems(b)) == SummaryItemsText(b) && ItemsArgs(SummaryItems(b)) == []
  {
    hide ItemsText, ItemsArgs, TextOf, ArgsOf, ItemText, NanosOf, DurationTree, RootTree, DurationText;
    var min := Call(Min, One(Col(b.timestamp)));
    AtomTexts(b.traceID, Null, 0);
    AtomTexts(b.timestamp, Null, 0);
    CallOneText(Min, Col(b.timestamp));
    NanosText(Min, b);
    DurationTextIs(b);
    RootText(b);
    CountText();
    var i0, i1, i2 := Alias(Col(b.traceID), TRACE_KEY), Alias(min, START_TIME), Alias(NanosOf(Min, b), START_NANOS);
    var i3, i4 := Alias(DurationTree(b), DURATION), Alias(RootTree(b), ROOT_NAME);
    var i5 := Alias(Call(Count, Nil), SPAN_COUNT);
    var r4 := More(i4, Last(i5));
    var r3 := More(i3, r4);
    var r2 := More(i2, r3);
    var r1 := More(i1, r2);
    ItemsMore(i5, Last(i5));
    AliasText(Call(Count, Nil), SPAN_COUNT);
    AliasArgs(Call(Count, Nil), SPAN_COUNT, Last(i5));
    AliasBefore(RootTree(b), ROOT_NAME, Last(i5));
    AliasBefore(DurationTree(b), DURATION, r4);
    AliasBefore(NanosOf(Min, b), START_NANOS, r3);
    AliasBefore(min, START_TIME, r2);
    AliasBefore(Col(b.traceID), TRACE_KEY, r1);
  }

  /** A named item in front of others, for a tree without placeholders. */
  lemma AliasBefore(a: Ast, alias: string, rest: Items)
    requires ArgsOf(a) == [] && ItemsArgs(rest) == []
    ensures ItemsText(More(Alias(a, alias), rest)) == TextOf(a) + [AS, WORD(alias), COMMA] + ItemsText(rest)
    ensures ItemsArgs(More(Alias(a, alias), rest)) == []
  {
    hide ItemsText, ItemsArgs, TextOf, ArgsOf, ItemText;
    ItemsMore(Alias(a, alias), rest);
    AliasText(a, alias);
    AliasArgs(a, alias, rest);
    assert [AS, WORD(alias)] + [COMMA] == [AS, WORD(alias), COMMA];
  }

  lemma NanosText(fn: Fn, b: Binding)
    ensures TextOf(NanosOf(fn, b)) == [FN(ToUnixNano), LP, FN(fn), LP, WORD(b.timestamp), RP, RP]
    ensures ArgsOf(NanosOf(fn, b)) == []
  {
    hide TextOf, ArgsOf;
    AtomTexts(b.timestamp, Null, 0);
    CallOneText(fn, Col(b.timestamp));
    CallOneText(ToUnixNano, Call(fn, One(Col(b.timestamp))));
  }

  lemma DurationTextIs(b: Binding)
    ensures TextOf(DurationTree(b)) == DurationText(b) && ArgsOf(DurationTree(b)) == []
  {
    hide TextOf, ArgsOf, NanosOf;
    var span := Calc(Minus, NanosOf(Max, b), NanosOf(Min, b));
    NanosText(Max, b);
    NanosText(Min, b);
    CalcText(Minus, NanosOf(Max, b), NanosOf(Min, b));
    ParensText(span);
    AtomTexts("", Null, NANOS_PER_MILLI);
    CalcText(Divide, Parens(span), Lit(NANOS_PER_MILLI));
  }

  lemma RootText(b: Binding)
    ensures TextOf(RootTree(b)) == [FN(ArgMin), LP, WORD(b.spanName), COMMA, WORD(b.timestamp), RP]
    ensures ArgsOf(RootTree(b)) == []
  {
    hide TextOf, ArgsOf;
    AtomTexts(b.spanName, Null, 0);
    AtomTexts(b.timestamp, Null, 0);
    CallTwoText(ArgMin, Col(b.spanName), Col(b.timestamp));
  }

  lemma CountText()
    ensures TextOf(Call(Count, Nil)) == [FN(Count), LP, RP] && ArgsOf(Call(Count, Nil)) == []
  {
    assert Put(Call(Count, Nil), End) == T(FN(Count), T(LP, T(RP, End)));
    FlatTwo(FN(Count), LP, T(RP, End));
    assert Flat(T(RP, End)) == [RP];
  }

  lemma ListText(
    b: Binding, w: Window, p: Ast, t: Option<Ast>, cur: Option<Cursor>, limit: nat,
    havingSQL: seq<Token>, havingArgs: seq<Datum>)
    requires var trees := HavingTrees(t, cur);
      && havingSQL == (if trees == [] then [] else [HAVING] + JoinedText(trees, false))
      && havingArgs == JoinedArgs(trees, false)
    ensures var q, s := ListQuery(b, w, p, t, cur, limit), QueryFragment(ListQuery(b, w, p, t, cur, limit));
      var window, ids := WindowFragment(b, w), QueryFragment(IdsQuery(b, WindowTrees(b, w) + [p]));
      && s.sql == [SELECT] + (SummaryItemsText(b) + ([FROM] + ([WORD(b.table)] + ([WHERE] +
           (window.sql + ([AND] + ([WORD(b.traceID), IN, LP] + ids.sql + [RP])))
           + ([GROUPBY, WORD(TRACE_KEY)] + (havingSQL
           + ([ORDERBY, WORD(START_NANOS), DESC, COMMA, WORD(TRACE_KEY), DESC] + [LIMIT, MARK])))))))
      && s.args == window.args + ids.args + havingArgs + [Num(limit as real)]
  {
    hide ItemsText, ItemsArgs, TextOf, ArgsOf, SummaryItemsText, SummaryItems, HavingTrees, WindowFragment, WindowTrees;
    var q := ListQuery(b, w, p, t, cur, limit);
    var inner := IdsQuery(b, WindowTrees(b, w) + [p]);
    var ids := InSelect(Col(b.traceID), inner);
    StatementIs(q);
    StatementArgsAre(q);
    SummaryText(b);
    WindowText(b, w);
    JoinOneMore(WindowTrees(b, w), ids, false);
    WindowSome(b, w);
    InSelectText(Col(b.traceID), inner);
    AtomTexts(b.traceID, Num(limit as real), 0);
    assert [WORD(b.traceID)] + [IN, LP] == [WORD(b.traceID), IN, LP];
    EndTextIs(q, havingSQL, limit);
    var window := WindowFragment(b, w);
    assert [] + TextOf(q.where) == TextOf(q.where);
    assert [] + (SummaryItemsText(b) + ([FROM] + ([WORD(b.table)] + ([WHERE] + (TextOf(q.where) + EndText(q, []))))))
      == SummaryItemsText(b) + ([FROM] + ([WORD(b.table)] + ([WHERE] + (TextOf(q.where) + EndText(q, [])))));
    assert [WHERE] + TextOf(q.where) + EndText(q, []) == [WHERE] + (TextOf(q.where) + EndText(q, []));
    var inside := QueryFragment(inner);
    assert ArgsOf(ids) == inside.args by { assert [] + inside.args == inside.args; }
    ArgsNested(window.args, inside.args, havingArgs, [Num(limit as real)]);
  }

  lemma ArgsNested(a: seq<Datum>, b: seq<Datum>, c: seq<Datum>, d: seq<Datum>)
    ensures [] + ([] + ((a + b) + (c + d))) == a + b + c + d
  {
  }

  lemma WindowSome(b: Binding, w: Window)
    ensures WindowTrees(b, w) != []
  {
  }

  lemma EndTextIs(q: Query, havingSQL: seq<Token>, limit: nat)
    requires q.group == Some(TRACE_KEY) && q.order == NEWEST_FIRST && q.limit == Some(Hole(Num(limit as real)))
    requires havingSQL == ClauseText(HAVING, q.having)
    ensures EndText(q, []) == [GROUPBY, WORD(TRACE_KEY)] + (havingSQL
           + ([ORDERBY, WORD(START_NANOS), DESC, COMMA, WORD(TRACE_KEY), DESC] + [LIMIT, MARK]))
  {
    AtomTexts("", Num(limit as real), 0);
    assert KeysText(NEWEST_FIRST[1..]) == [WORD(TRACE_KEY), DESC] + [];
    assert OrderText(NEWEST_FIRST) == [ORDERBY, WORD(START_NANOS), DESC, COMMA, WORD(TRACE_KEY), DESC];
    assert ClauseText(LIMIT, q.limit) + [] == [LIMIT, MARK];
  }
}
