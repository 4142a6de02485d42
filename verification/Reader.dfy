/** The statements that return spans, and the reader that sends every statement: a page of summaries, the
    spans of a page, the spans of one trace. */
module Reader {
  import opened Basics
  import opened Schema
  import opened SqlSyntax
  import opened SqlText
  import opened SqlStatements
  import opened SqlSemantics
  import opened Expression
  import opened Translate
  import opened Traces
  import SqlRows

  // ---- projections ----------------------------------------------------------------------------------

  type Projection = seq<string>

  predicate Usable(p: Projection) {
    forall c :: c in p ==> ValidIdent(c)
  }

  /** Some columns, followed by those of a list that are not empty and not there yet. */
  function Widened(cols: seq<string>, more: seq<string>): seq<string> {
    if more == [] then cols
    else
      var before, c := Widened(cols, more[..|more| - 1]), more[|more| - 1];
      if c != "" && c !in before then before + [c] else before
  }

  function Names(cols: seq<string>): Items
    requires cols != []
  {
    if |cols| == 1 then Last(Name(cols[0])) else More(Name(cols[0]), Names(cols[1..]))
  }

  function ColumnsText(cols: seq<string>): seq<Token> {
    if cols == [] then []
    else if |cols| == 1 then [WORD(cols[0])]
    else [WORD(cols[0]), COMMA] + ColumnsText(cols[1..])
  }

  function InnerItems(p: Projection, needed: seq<string>): Items
    requires p != [] ==> Usable(p)
  {
    if p == [] then Last(Star)
    else
      WidenedKeeps([], p);
      WidenedKeeps(Widened([], p), needed);
      Names(Widened(Widened([], p), needed))
  }

  function OuterItems(p: Projection, hidden: seq<string>): Items
    requires Usable(p)
  {
    if p == [] then Last(StarExcept(hidden))
    else
      WidenedKeeps([], p);
      Names(Widened([], p))
  }

  /** Widening keeps what was there, adds every column asked for, and adds none twice. */
  lemma {:induction false} WidenedKeeps(cols: seq<string>, more: seq<string>)
    ensures forall c :: c in Widened(cols, more) <==> c in cols || (c in more && c != "")
    ensures SqlRows.NoRepeats(cols) ==> SqlRows.NoRepeats(Widened(cols, more))
    ensures Usable(more) && more != [] ==> Widened(cols, more) != []
  {
    if more != [] {
      var n := |more| - 1;
      assert more == more[..n] + [more[n]];
      WidenedKeeps(cols, more[..n]);
      assert more[n] in more;
    }
  }

  lemma {:induction false} NamesText(cols: seq<string>)
    requires cols != []
    ensures ItemsText(Names(cols)) == ColumnsText(cols) && ItemsArgs(Names(cols)) == []
  {
    NameText(cols[0]);
    if |cols| > 1 {
      NamesText(cols[1..]);
      ItemsMore(Name(cols[0]), Names(cols[1..]));
      assert [WORD(cols[0])] + [COMMA] == [WORD(cols[0]), COMMA];
    }
  }

  /** The SELECT lists of a statement that wraps rows in a subquery: the inner one also fetches the columns
      the statement itself needs. Refuses a name that could not be a column. */
  method Lists(p: Projection, needed: seq<string>) returns (r: Result<(seq<Token>, seq<Token>), string>)
    ensures r.Ok? <==> forall c :: c in p ==> ValidIdent(c)
    ensures r.Ok? ==> r.value == (ItemsText(InnerItems(p, needed)), ItemsText(OuterItems(p, [PERMITTED])))
  {
    if |p| == 0 {
      StarText([PERMITTED]);
      assert [STAR, EXCEPT, LP] + ([WORD(PERMITTED)] + [RP]) == [STAR, EXCEPT, LP, WORD(PERMITTED), RP];
      return Ok(([STAR], [STAR, EXCEPT, LP, WORD(PERMITTED), RP]));
    }
    var seen: set<string>, cols: seq<string> := {}, [];
    for i := 0 to |p|
      invariant cols == Widened([], p[..i]) && seen == set c | c in cols
      invariant forall c :: c in p[..i] ==> ValidIdent(c)
    {
      var c := p[i];
      assert p[..i + 1] == p[..i] + [c] && p[..i + 1][..i] == p[..i];
      if !ValidIdent(c) { return Err(c); }
      if c !in seen { seen, cols := seen + {c}, cols + [c]; }
    }
    assert p[..|p|] == p;
    ghost var wanted := cols;
    var outer := WordList(cols);
    for i := 0 to |needed|
      invariant cols == Widened(wanted, needed[..i]) && seen == set c | c in cols
    {
      var c := needed[i];
      assert needed[..i + 1] == needed[..i] + [c] && needed[..i + 1][..i] == needed[..i];
      if c != "" && c !in seen { seen, cols := seen + {c}, cols + [c]; }
    }
    assert needed[..|needed|] == needed;
    var inner := WordList(cols);
    WidenedKeeps([], p);
    WidenedKeeps(wanted, needed);
    assert wanted[0] in cols;
    NamesText(wanted);
    NamesText(cols);
    return Ok((inner, outer));
  }

  method WordList(cols: seq<string>) returns (text: seq<Token>)
    ensures text == ColumnsText(cols)
  {
    text := [];
    for i := |cols| downto 0
      invariant text == ColumnsText(cols[i..])
    {
      assert cols[i..][1..] == cols[i + 1..];
      text := (if i + 1 == |cols| then [WORD(cols[i])] else [WORD(cols[i]), COMMA]) + text;
    }
    assert cols[0..] == cols;
  }

  lemma StarText(hidden: seq<string>)
    requires hidden != []
    ensures ItemsText(Last(Star)) == [STAR] && ItemsArgs(Last(Star)) == []
    ensures ItemsText(Last(StarExcept(hidden))) == [STAR, EXCEPT, LP] + (ColumnsText(hidden) + [RP])
    ensures ItemsArgs(Last(StarExcept(hidden))) == []
  {
    FlatTwo(STAR, EXCEPT, T(LP, PutNames(hidden, T(RP, End))));
    HiddenText(hidden, T(RP, End));
    assert PutItems(Last(Star), End) == T(STAR, End) && Flat(End) == [];
    assert PutItems(Last(StarExcept(hidden)), End) == T(STAR, T(EXCEPT, T(LP, PutNames(hidden, T(RP, End)))));
    assert Flat(T(RP, End)) == [RP];
  }

  lemma {:induction false} HiddenText(cols: seq<string>, ts: Tokens)
    ensures Flat(PutNames(cols, ts)) == ColumnsText(cols) + Flat(ts)
  {
    if |cols| > 1 {
      HiddenText(cols[1..], ts);
      FlatTwo(WORD(cols[0]), COMMA, PutNames(cols[1..], ts));
    }
  }

  // ---- the statements -----------------------------------------------------------------------------------

  /** One select list after another. */
  function Then(items: Items, rest: Items): Items {
    match items case Last(i) => More(i, rest) case More(i, more) => More(i, Then(more, rest))
  }

  function InnerQuery(b: Binding, columns: Items, markers: Items, where: Ast): Query {
    Query(false, Then(columns, markers), Table(b.table), where, None, None, [], None)
  }

  function OuterQuery(outer: Items, inner: Query, order: seq<Key>): Query {
    Query(false, outer, Sub(inner), Compare(Gt, Col(PERMITTED), Lit(0)), None, None, order, None)
  }

  function PermittedItem(b: Binding, p: Ast): Item {
    Alias(Over(Sum, One(p), b.traceID), PERMITTED)
  }

  function StartItem(b: Binding): Item {
    Alias(Over(Min, One(Col(b.timestamp)), b.traceID), TRACE_START)
  }

  function Ids(ids: seq<string>): seq<Datum> {
    if ids == [] then [] else [Str(ids[0])] + Ids(ids[1..])
  }

  /** The spans of some traces, of those only the traces the predicate admits. */
  function SpansQuery(b: Binding, p: Ast, ids: seq<string>, columns: Projection): Query
    requires Usable(columns)
  {
    var where := InList(false, Col(b.traceID), Holes(Ids(ids)));
    var markers := More(StartItem(b), Last(PermittedItem(b, p)));
    OuterQuery(OuterItems(columns, [TRACE_START, PERMITTED]),
               InnerQuery(b, InnerItems(columns, [b.traceID, b.timestamp]), markers, where),
               [Key.Key(TRACE_START, true), Key.Key(b.traceID, true), Key.Key(b.timestamp, false)])
  }

  function DetailQuery(b: Binding, p: Ast, id: string, columns: Projection): Query
    requires Usable(columns)
  {
    OuterQuery(OuterItems(columns, [PERMITTED]),
               InnerQuery(b, InnerItems(columns, [b.traceID, b.timestamp]), Last(PermittedItem(b, p)),
                          Compare(Eq, Col(b.traceID), Hole(Str(id)))),
               [Key.Key(b.timestamp, false)])
  }

  lemma {:induction false} ThenText(items: Items, rest: Items)
    ensures ItemsText(Then(items, rest)) == ItemsText(items) + ([COMMA] + ItemsText(rest))
    ensures ItemsArgs(Then(items, rest)) == ItemsArgs(items) + ItemsArgs(rest)
  {
    hide ItemsText;
    match items
    case Last(i) =>
      ItemsMore(i, rest);
      if i.Alias? { AliasArgs(i.a, i.alias, rest); }
      assert ItemText(i) + [COMMA] + ItemsText(rest) == ItemText(i) + ([COMMA] + ItemsText(rest));
    case More(i, more) =>
      ThenText(more, rest);
      ItemsMore(i, more);
      ItemsMore(i, Then(more, rest));
      if i.Alias? {
        AliasArgs(i.a, i.alias, more);
        AliasArgs(i.a, i.alias, Then(more, rest));
      }
  }

  /** A subquery and the statement around it. */
  lemma WrappedText(b: Binding, columns: Items, markers: Items, where: Ast, outer: Items, order: seq<Key>)
    requires ItemsArgs(columns) == [] && ItemsArgs(outer) == []
    ensures var s := QueryFragment(OuterQuery(outer, InnerQuery(b, columns, markers, where), order));
      && s.sql == [SELECT] + (ItemsText(outer) + ([FROM] + ([LP] + ([SELECT] + (ItemsText(columns) + ([COMMA]
           + (ItemsText(markers) + ([FROM] + ([WORD(b.table)] + ([WHERE] + (TextOf(where) + ([RP] + ([WHERE]
           + ([WORD(PERMITTED), CMP(Gt), NUM(0)] + (OrderText(order))))))))))))))))
      && s.args == ItemsArgs(markers) + ArgsOf(where)
  {
    hide ItemsText, ItemsArgs, TextOf, ArgsOf, KeysText;
    var inner := InnerQuery(b, columns, markers, where);
    var q := OuterQuery(outer, inner, order);
    StatementIs(inner);
    StatementArgsAre(inner);
    StatementIs(q);
    StatementArgsAre(q);
    ThenText(columns, markers);
    CompareText(Gt, Col(PERMITTED), Lit(0));
    AtomTexts(PERMITTED, Null, 0);
    assert TextOf(q.where) == [WORD(PERMITTED), CMP(Gt), NUM(0)];
    Regrouped(ItemsText(outer), ItemsText(columns), ItemsText(markers), WORD(b.table), TextOf(where),
              TextOf(q.where), OrderText(order));
    assert [] + ItemsArgs(markers) == ItemsArgs(markers);
    assert SourceArgs(q.from) == ItemsArgs(markers) + ArgsOf(where) by {
      assert StatementArgs(inner) == ItemsArgs(markers) + ArgsOf(where);
    }
  }

  lemma Regrouped(
    outer: seq<Token>, columns: seq<Token>, markers: seq<Token>, table: Token, where: seq<Token>,
    permitted: seq<Token>, order: seq<Token>)
    ensures
      var none: seq<Token> := [];
      var end := none + (none + (none + (none + none)));
      var inner := [SELECT] + (none + ((columns + ([COMMA] + markers)) + ([FROM] + ([table] + ([WHERE] + (where
        + (end)))))));
      [SELECT] + (none + (outer + ([FROM] + (([LP] + inner + [RP]) + ([WHERE] + (permitted + (none + (none
        + (order + (none + (none)))))))))))
      == [SELECT] + (outer + ([FROM] + ([LP] + ([SELECT] + (columns + ([COMMA] + (markers + ([FROM]
         + ([table] + ([WHERE] + (where + ([RP] + ([WHERE] + (permitted + (order)))))))))))))))
  {
  }

  lemma MarkersText(b: Binding, p: Ast)
    ensures ItemsText(Last(PermittedItem(b, p))) == PermittedText(b, TextOf(p))
    ensures ItemsText(More(StartItem(b), Last(PermittedItem(b, p)))) == StartText(b) + [COMMA]
      + PermittedText(b, TextOf(p))
    ensures ItemsArgs(Last(PermittedItem(b, p))) == ArgsOf(p)
    ensures ItemsArgs(More(StartItem(b), Last(PermittedItem(b, p)))) == ArgsOf(p)
  {
    hide ItemsText, ItemsArgs, TextOf, ArgsOf, ItemText;
    var sum, min := Over(Sum, One(p), b.traceID), Over(Min, One(Col(b.timestamp)), b.traceID);
    OverText(Sum, p, b.traceID);
    OverText(Min, Col(b.timestamp), b.traceID);
    AtomTexts(b.timestamp, Null, 0);
    AliasText(sum, PERMITTED);
    AliasText(min, TRACE_START);
    ItemsMore(PermittedItem(b, p), Last(Star));
    ItemsMore(StartItem(b), Last(PermittedItem(b, p)));
    AliasArgs(sum, PERMITTED, Last(Star));
    AliasArgs(min, TRACE_START, Last(PermittedItem(b, p)));
  }

  /** One placeholder for each trace id. */
  function Marks(n: nat): seq<seq<Token>> {
    if n == 0 then [] else Marks(n - 1) + [[MARK]]
  }

  lemma {:induction false} HoldersText(ids: seq<string>)
    ensures |Marks(|ids|)| == |ids| && Joined(Marks(|ids|), COMMA) == TextOfArgs(Holes(Ids(ids)))
    ensures ids != [] ==> Holes(Ids(ids)).Cons?
  {
    if ids != [] {
      var n := |ids| - 1;
      HoldersText(ids[..n]);
      assert Marks(|ids|)[..n] == Marks(n) && Marks(|ids|)[n] == [MARK];
      IdsSplit(ids[..n], ids[n]);
      assert ids == ids[..n] + [ids[n]];
      HolesText(Ids(ids[..n]), Str(ids[n]));
    }
  }

  lemma {:induction false} IdsSplit(ids: seq<string>, id: string)
    ensures Ids(ids + [id]) == Ids(ids) + [Str(id)] && |Ids(ids)| == |ids|
  {
    if ids != [] {
      IdsSplit(ids[1..], id);
      assert (ids + [id])[1..] == ids[1..] + [id];
    }
  }

  function StartText(b: Binding): seq<Token> {
    [FN(Min), LP, WORD(b.timestamp), RP, OVER, LP, PARTITIONBY, WORD(b.traceID), RP, AS, WORD(TRACE_START)]
  }

  function PermittedText(b: Binding, predicate_: seq<Token>): seq<Token> {
    [FN(Sum), LP] + predicate_ + [RP, OVER, LP, PARTITIONBY, WORD(b.traceID), RP, AS, WORD(PERMITTED)]
  }

  lemma SpansText(b: Binding, p: Ast, ids: seq<string>, columns: Projection)
    requires Usable(columns) && ids != []
    ensures var s := QueryFragment(SpansQuery(b, p, ids, columns));
      var condition := [WORD(b.traceID), IN, LP] + Joined(Marks(|ids|), COMMA) + [RP];
      var (outer, inner) := (
        ItemsText(OuterItems(columns, [TRACE_START, PERMITTED])),
        ItemsText(InnerItems(columns, [b.traceID, b.timestamp])));
      && s.sql == [SELECT] + (outer + ([FROM] + ([LP] + ([SELECT] + (inner
      + ([COMMA] + ((StartText(b) + [COMMA] + PermittedText(b, TextOf(p)))
      + ([FROM] + ([WORD(b.table)] + ([WHERE] + (condition + ([RP] + ([WHERE]
      + ([WORD(PERMITTED), CMP(Gt), NUM(0)]
      + ([ORDERBY, WORD(TRACE_START), DESC, COMMA, WORD(b.traceID), DESC, COMMA, WORD(b.timestamp), ASC])))))))))))))))
      && s.args == ArgsOf(p) + Ids(ids)
  {
    hide TextOf, ArgsOf, TextOfArgs, ItemsText, ItemsArgs, QueryFragment, Joined, OuterItems, InnerItems, OrderText,
      Holes, Ids, Marks, StartText, PermittedText;
    var where := InList(false, Col(b.traceID), Holes(Ids(ids)));
    var order := [Key.Key(TRACE_START, true), Key.Key(b.traceID, true), Key.Key(b.timestamp, false)];
    ListsText(columns, [b.traceID, b.timestamp], [TRACE_START, PERMITTED]);
    WrappedText(b, InnerItems(columns, [b.traceID, b.timestamp]), More(StartItem(b), Last(PermittedItem(b, p))), where,
                OuterItems(columns, [TRACE_START, PERMITTED]), order);
    MarkersText(b, p);
    ConditionText(b, ids);
    SpansOrderText(b);
  }

  lemma ConditionText(b: Binding, ids: seq<string>)
    ensures var a := InList(false, Col(b.traceID), Holes(Ids(ids)));
      && TextOf(a) == [WORD(b.traceID), IN, LP] + Joined(Marks(|ids|), COMMA) + [RP]
      && ArgsOf(a) == Ids(ids)
  {
    hide TextOf, ArgsOf, TextOfArgs, Joined, Marks, Ids, Holes;
    HoldersText(ids);
    Expression.InListText(false, Col(b.traceID), Ids(ids));
    AtomTexts(b.traceID, Null, 0);
    Membership(WORD(b.traceID), Joined(Marks(|ids|), COMMA));
    assert [] + Ids(ids) == Ids(ids);
  }

  lemma Membership(column: Token, members: seq<Token>)
    ensures [column] + ([] + ([IN, LP] + (members + [RP]))) == [column, IN, LP] + members + [RP]
  {
  }

  /** Assembles the statement for the spans of a page. The policy is applied again, so that no trace id,
      wherever it comes from, yields spans of a trace the caller may not see. */
  method SpansStatement(b: Binding, pred: Fragment, ids: seq<string>, columns: Projection, ghost p: Ast)
    returns (r: Result<Fragment, string>)
    requires pred == FragmentOf(p) && ids != []
    ensures r.Ok? <==> Usable(columns)
    ensures r.Ok? ==> r.value == QueryFragment(SpansQuery(b, p, ids, columns))
  {
    hide TextOf, ArgsOf, TextOfArgs, ItemsText, ItemsArgs, QueryFragment, Joined, OuterItems, InnerItems, SpansQuery;
    var holders: seq<seq<Token>>, args := [], pred.args;
    for i := 0 to |ids|
      invariant holders == Marks(i) && args == pred.args + Ids(ids[..i])
    {
      IdsSplit(ids[..i], ids[i]);
      assert ids[..i + 1] == ids[..i] + [ids[i]];
      holders, args := holders + [[MARK]], args + [Str(ids[i])];
    }
    assert ids[..|ids|] == ids;
    var lists := Lists(columns, [b.traceID, b.timestamp]);
    if lists.Err? { return Err(lists.error); }
    var (inner, outer) := lists.value;
    if |columns| == 0 {
      outer := [STAR, EXCEPT, LP, WORD(TRACE_START), COMMA, WORD(PERMITTED), RP];
    }
    ListsText(columns, [b.traceID, b.timestamp], [TRACE_START, PERMITTED]);
    HiddenBoth();
    SpansText(b, p, ids, columns);
    var condition := [WORD(b.traceID), IN, LP] + Joined(holders, COMMA) + [RP];
    var sql := [SELECT] + (outer + ([FROM] + ([LP] + ([SELECT] + (inner
      + ([COMMA] + ((StartText(b) + [COMMA] + PermittedText(b, pred.sql))
      + ([FROM] + ([WORD(b.table)] + ([WHERE] + (condition + ([RP] + ([WHERE]
      + ([WORD(PERMITTED), CMP(Gt), NUM(0)]
      + ([ORDERBY, WORD(TRACE_START), DESC, COMMA, WORD(b.traceID), DESC, COMMA, WORD(b.timestamp), ASC])))))))))))))));
    return Ok(Fragment(sql, args));
  }

  /** How both statements end their lists of columns. */
  lemma ListsText(columns: Projection, needed: seq<string>, hidden: seq<string>)
    requires Usable(columns) && hidden != []
    ensures ItemsArgs(InnerItems(columns, needed)) == [] && ItemsArgs(OuterItems(columns, hidden)) == []
    ensures columns != [] ==> OuterItems(columns, hidden) == OuterItems(columns, [PERMITTED])
    ensures columns == [] ==>
      ItemsText(OuterItems(columns, hidden)) == [STAR, EXCEPT, LP] + (ColumnsText(hidden) + [RP])
  {
    if columns == [] {
      StarText(hidden);
    } else {
      WidenedKeeps([], columns);
      WidenedKeeps(Widened([], columns), needed);
      assert Widened([], columns)[0] in Widened(Widened([], columns), needed);
      NamesText(Widened([], columns));
      NamesText(Widened(Widened([], columns), needed));
    }
  }

  lemma HiddenBoth()
    ensures [STAR, EXCEPT, LP] + (ColumnsText([TRACE_START, PERMITTED]) + [RP])
      == [STAR, EXCEPT, LP, WORD(TRACE_START), COMMA, WORD(PERMITTED), RP]
    ensures [STAR, EXCEPT, LP] + (ColumnsText([PERMITTED]) + [RP]) == [STAR, EXCEPT, LP, WORD(PERMITTED), RP]
  {
    assert [TRACE_START, PERMITTED][1..] == [PERMITTED];
    assert ColumnsText([PERMITTED]) == [WORD(PERMITTED)];
  }

  lemma SpansOrderText(b: Binding)
    ensures OrderText([Key.Key(TRACE_START, true), Key.Key(b.traceID, true), Key.Key(b.timestamp, false)])
      == [ORDERBY, WORD(TRACE_START), DESC, COMMA, WORD(b.traceID), DESC, COMMA, WORD(b.timestamp), ASC]
    ensures OrderText([Key.Key(b.timestamp, false)]) == [ORDERBY, WORD(b.timestamp), ASC]
  {
    var k0, k1, k2 := Key.Key(TRACE_START, true), Key.Key(b.traceID, true), Key.Key(b.timestamp, false);
    assert [k0, k1, k2][1..] == [k1, k2] && [k1, k2][1..] == [k2];
    assert KeysText([k2]) == [WORD(b.timestamp), ASC];
    assert KeysText([k1, k2]) == [WORD(b.traceID), DESC, COMMA, WORD(b.timestamp), ASC];
    assert KeysText([k0, k1, k2])
      == [WORD(TRACE_START), DESC, COMMA, WORD(b.traceID), DESC, COMMA, WORD(b.timestamp), ASC];
  }

  method DetailStatement(b: Binding, pred: Fragment, id: string, columns: Projection, ghost p: Ast)
    returns (r: Result<Fragment, string>)
    requires pred == FragmentOf(p)
    ensures r.Ok? <==> Usable(columns)
    ensures r.Ok? ==> r.value == QueryFragment(DetailQuery(b, p, id, columns))
  {
    hide TextOf, ArgsOf, ItemsText, ItemsArgs, QueryFragment;
    var lists := Lists(columns, [b.traceID, b.timestamp]);
    if lists.Err? { return Err(lists.error); }
    var (inner, outer) := lists.value;
    ghost var where := Compare(Eq, Col(b.traceID), Hole(Str(id)));
    ListsText(columns, [b.traceID, b.timestamp], [PERMITTED]);
    WrappedText(b, InnerItems(columns, [b.traceID, b.timestamp]), Last(PermittedItem(b, p)), where,
                OuterItems(columns, [PERMITTED]), [Key.Key(b.timestamp, false)]);
    MarkersText(b, p);
    CompareText(Eq, Col(b.traceID), Hole(Str(id)));
    AtomTexts(b.traceID, Str(id), 0);
    SpansOrderText(b);
    var permitted := PermittedText(b, pred.sql);
    var condition := [WORD(b.traceID)] + [CMP(Eq)] + [MARK];
    var sql := [SELECT] + (outer + ([FROM] + ([LP] + ([SELECT] + (inner + ([COMMA] + (permitted + ([FROM]
      + ([WORD(b.table)] + ([WHERE] + (condition + ([RP] + ([WHERE] + ([WORD(PERMITTED), CMP(Gt), NUM(0)]
      + ([ORDERBY, WORD(b.timestamp), ASC])))))))))))))));
    var args := pred.args;
    args := args + [Str(id)];
    return Ok(Fragment(sql, args));
  }

  // ---- sending them ----------------------------------------------------------------------------------------

  function Send(conn: Connection, q: Query): Result<seq<Row>, Failure> {
    match conn(TextOfQuery(q), ArgsOfQuery(q)) case None => Err(SourceFailed) case Some(rows) => Ok(rows)
  }

  function ScanSummary(row: Row): Option<Summary> {
    if TRACE_KEY in row && row[TRACE_KEY].Str? && START_TIME in row && row[START_TIME].Num?
      && START_NANOS in row && row[START_NANOS].Num? && DURATION in row && row[DURATION].Num?
      && ROOT_NAME in row && row[ROOT_NAME].Str? && SPAN_COUNT in row && row[SPAN_COUNT].Num?
    then Some(Summary(row[TRACE_KEY].s, row[START_TIME].n, row[START_NANOS].n, row[DURATION].n, row[ROOT_NAME].s,
                      row[SPAN_COUNT].n))
    else None
  }

  function ScanSummaries(rows: seq<Row>): (r: Option<seq<Summary>>)
    ensures r.Some? ==> |r.value| == |rows|
    ensures r.Some? <==> forall i :: 0 <= i < |rows| ==> ScanSummary(rows[i]).Some?
    ensures r.Some? ==> forall i :: 0 <= i < |rows| ==> ScanSummary(rows[i]) == Some(r.value[i])
  {
    if rows == [] then Some([])
    else
      match (ScanSummaries(rows[..|rows| - 1]), ScanSummary(rows[|rows| - 1]))
      case (Some(before), Some(s)) => Some(before + [s])
      case _ => None
  }

  function ResultOf(ts: seq<Summary>): ListResult {
    ListResult(ts, if ts == [] then None else Some(Cursor(ts[|ts| - 1].startNanos, ts[|ts| - 1].traceID)))
  }

  /** A page of summaries; a caller to whom no program applies gets an empty one, without a statement. */
  function ListOf(conn: Connection, q: Request, w: Window, t: Option<Ast>, cur: Option<Cursor>, limit: nat):
    Result<ListResult, Failure>
  {
    match PredicateTree(q.programs, q.attrs)
    case None => Ok(ListResult([], None))
    case Some(p) =>
      var rows :- Send(conn, ListQuery(q.binding, w, p, t, cur, limit));
      match ScanSummaries(rows) case None => Err(SourceFailed) case Some(ts) => Ok(ResultOf(ts))
  }

  function TraceIds(ts: seq<Summary>): (ids: seq<string>)
    ensures |ids| == |ts| && forall i :: 0 <= i < |ts| ==> ids[i] == ts[i].traceID
  {
    seq(|ts|, i requires 0 <= i < |ts| => ts[i].traceID)
  }

  function SpansOf(
    conn: Connection, q: Request, w: Window, t: Option<Ast>, cur: Option<Cursor>, limit: nat, columns: Projection):
    Result<SpanPage, Failure>
  {
    var page :- ListOf(conn, q, w, t, cur, limit);
    match PredicateTree(q.programs, q.attrs)
    case None => Ok(SpanPage([], None))
    case Some(p) =>
      if page.traces == [] then Ok(SpanPage([], None))
      else if !Usable(columns) then Err(BadColumn)
      else
        var rows :- Send(conn, SpansQuery(q.binding, p, TraceIds(page.traces), columns));
        Ok(SpanPage(rows, if |page.traces| < limit then None else page.next))
  }

  /** Every span of a trace; a trace the caller may not see is answered like one that does not exist. */
  function DetailOf(conn: Connection, q: Request, id: string, columns: Projection): Result<seq<Row>, Failure> {
    if !Usable(columns) then Err(BadColumn)
    else
      match PredicateTree(q.programs, q.attrs)
      case None => Err(NotVisible)
      case Some(p) =>
        var rows :- Send(conn, DetailQuery(q.binding, p, id, columns));
        if rows == [] then Err(NotVisible) else Ok(rows)
  }

  class TraceReader {
    const conn: Connection

    constructor (conn: Connection)
      ensures this.conn == conn
    {
      this.conn := conn;
    }

    method List(q: Request, w: Window, f: Option<Fragment>, cur: Option<Cursor>, limit: nat, ghost t: Option<Ast>)
      returns (r: Result<ListResult, Failure>)
      requires f == match t case None => None case Some(a) => Some(FragmentOf(a))
      ensures r == ListOf(conn, q, w, t, cur, limit)
    {
      hide ListQuery, TextOf, ArgsOf;
      var pred := Predicate(q.programs, q.attrs);
      if pred.Err? { return Ok(ListResult([], None)); }
      ghost var p := PredicateTree(q.programs, q.attrs).value;
      var s := ListStatement(q.binding, w, pred.value, f, cur, limit, p, t);
      var rows := conn(s.sql, s.args);
      if rows.None? { return Err(SourceFailed); }
      var ts: seq<Summary> := [];
      for i := 0 to |rows.value|
        invariant ScanSummaries(rows.value[..i]) == Some(ts)
      {
        assert rows.value[..i + 1][..i] == rows.value[..i];
        var row := ScanSummary(rows.value[i]);
        if row.None? {
          assert ScanSummaries(rows.value).None?;
          return Err(SourceFailed);
        }
        ts := ts + [row.value];
      }
      assert rows.value[..|rows.value|] == rows.value;
      var next: Option<Cursor> := None;
      var n := |ts|;
      if n > 0 {
        var last := ts[n - 1];
        next := Some(Cursor(last.startNanos, last.traceID));
      }
      return Ok(ListResult(ts, next));
    }

    method Spans(
      q: Request, w: Window, f: Option<Fragment>, cur: Option<Cursor>, limit: nat, columns: Projection,
      ghost t: Option<Ast>)
      returns (r: Result<SpanPage, Failure>)
      requires f == match t case None => None case Some(a) => Some(FragmentOf(a))
      ensures r == SpansOf(conn, q, w, t, cur, limit, columns)
    {
      hide ListOf, SpansQuery, TextOf, ArgsOf;
      var page := List(q, w, f, cur, limit, t);
      if page.Err? { return Err(page.error); }
      if |page.value.traces| == 0 { return Ok(SpanPage([], None)); }
      var ids: seq<string> := [];
      for i := 0 to |page.value.traces|
        invariant |ids| == i && ids == TraceIds(page.value.traces)[..i]
      {
        ids := ids + [page.value.traces[i].traceID];
      }
      assert ids == TraceIds(page.value.traces);
      var pred := Predicate(q.programs, q.attrs);
      if pred.Err? { return Ok(SpanPage([], None)); }
      ghost var p := PredicateTree(q.programs, q.attrs).value;
      var s := SpansStatement(q.binding, pred.value, ids, columns, p);
      if s.Err? { return Err(BadColumn); }
      var rows := conn(s.value.sql, s.value.args);
      if rows.None? { return Err(SourceFailed); }
      var next := page.value.next;
      if |page.value.traces| < limit { next := None; }
      return Ok(SpanPage(rows.value, next));
    }

    method Detail(q: Request, id: string, columns: Projection) returns (r: Result<seq<Row>, Failure>)
      ensures r == DetailOf(conn, q, id, columns)
    {
      hide DetailQuery, TextOf, ArgsOf;
      var pred := Predicate(q.programs, q.attrs);
      if !Usable(columns) { return Err(BadColumn); }
      if pred.Err? { return Err(NotVisible); }
      ghost var p := PredicateTree(q.programs, q.attrs).value;
      var s := DetailStatement(q.binding, pred.value, id, columns, p);
      var rows := conn(s.value.sql, s.value.args);
      if rows.None? { return Err(SourceFailed); }
      if |rows.value| == 0 { return Err(NotVisible); }
      return Ok(rows.value);
    }
  }
}
