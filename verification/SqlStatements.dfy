/** The text of a whole statement, clause by clause. */
module SqlStatements {
  import opened Basics
  import opened SqlSyntax
  import opened SqlText

  function ItemsText(items: Items): seq<Token> { Flat(PutItems(items, End)) }

  function ItemText(i: Item): seq<Token> { Flat(PutItem(i, End)) }

  function ItemsArgs(items: Items): seq<Datum> { FillItems(items, []) }

  function SourceText(s: Source): seq<Token> {
    match s case Table(t) => [WORD(t)] case Sub(q) => [LP] + TextOfQuery(q) + [RP]
  }

  function SourceArgs(s: Source): seq<Datum> {
    match s case Table(_) => [] case Sub(q) => ArgsOfQuery(q)
  }

  function ClauseText(t: Token, a: Option<Ast>): seq<Token> {
    match a case None => [] case Some(b) => [t] + TextOf(b)
  }

  function ClauseArgs(a: Option<Ast>): seq<Datum> {
    match a case None => [] case Some(b) => ArgsOf(b)
  }

  function GroupText(g: Option<string>): seq<Token> {
    match g case None => [] case Some(c) => [GROUPBY, WORD(c)]
  }

  function KeysText(keys: seq<Key>): seq<Token> {
    if keys == [] then []
    else
      [WORD(keys[0].column), if keys[0].descending then DESC else ASC]
      + (if |keys| == 1 then [] else [COMMA] + KeysText(keys[1..]))
  }

  function OrderText(keys: seq<Key>): seq<Token> {
    if keys == [] then [] else [ORDERBY] + KeysText(keys)
  }

  lemma FlatPutItems(items: Items, ts: Tokens)
    ensures Flat(PutItems(items, ts)) == ItemsText(items) + Flat(ts)
  {
    PutItemsJoin(items, End, ts);
    FlatJoin(PutItems(items, End), ts);
  }

  lemma FlatPutItem(i: Item, ts: Tokens)
    ensures Flat(PutItem(i, ts)) == ItemText(i) + Flat(ts)
  {
    PutItemJoin(i, End, ts);
    FlatJoin(PutItem(i, End), ts);
  }

  lemma FlatPutSource(s: Source, ts: Tokens)
    ensures Flat(PutSource(s, ts)) == SourceText(s) + Flat(ts)
  {
    if s.Sub? {
      FlatPutQuery(s.q, T(RP, ts));
    }
  }

  lemma FlatPutClause(t: Token, a: Option<Ast>, ts: Tokens)
    ensures Flat(PutClause(t, a, ts)) == ClauseText(t, a) + Flat(ts)
  {
    if a.Some? { FlatPut(a.value, ts); }
  }

  lemma {:induction false} FlatPutKeys(keys: seq<Key>, ts: Tokens)
    ensures Flat(PutKeys(keys, ts)) == KeysText(keys) + Flat(ts)
  {
    if keys != [] {
      FlatPutKeys(keys[1..], ts);
      var dir := if keys[0].descending then DESC else ASC;
      FlatTwo(WORD(keys[0].column), dir, if |keys| == 1 then ts else T(COMMA, PutKeys(keys[1..], ts)));
    }
  }

  /** The clauses after WHERE, and what follows them. */
  function EndText(q: Query, rest: seq<Token>): seq<Token> {
    GroupText(q.group) + (ClauseText(HAVING, q.having) + (OrderText(q.order) + (ClauseText(LIMIT, q.limit) + rest)))
  }

  lemma FlatPutOrder(keys: seq<Key>, ts: Tokens)
    ensures Flat(PutOrder(keys, ts)) == OrderText(keys) + Flat(ts)
  {
    FlatPutKeys(keys, ts);
  }

  lemma FlatPutEnd(q: Query, ts: Tokens)
    ensures Flat(PutEnd(q, ts)) == EndText(q, Flat(ts))
  {
    hide ClauseText, OrderText, PutClause, PutOrder;
    var t5 := PutClause(LIMIT, q.limit, ts);
    FlatPutClause(LIMIT, q.limit, ts);
    FlatPutOrder(q.order, t5);
    var t4 := PutOrder(q.order, t5);
    FlatPutClause(HAVING, q.having, t4);
    var t3 := PutClause(HAVING, q.having, t4);
    if q.group.Some? { FlatTwo(GROUPBY, WORD(q.group.value), t3); }
  }

  function StatementText(q: Query): seq<Token> {
    [SELECT] + ((if q.distinct then [DISTINCT] else []) + (ItemsText(q.items)
    + ([FROM] + (SourceText(q.from) + ([WHERE] + (TextOf(q.where) + EndText(q, [])))))))
  }

  function StatementArgs(q: Query): seq<Datum> {
    ItemsArgs(q.items) + (SourceArgs(q.from) + (ArgsOf(q.where) + (ClauseArgs(q.having) + ClauseArgs(q.limit))))
  }

  /** A statement is its clauses, one after the other. */
  lemma StatementIs(q: Query)
    ensures TextOfQuery(q) == StatementText(q)
  {
    hide ItemsText, SourceText, TextOf, EndText, PutEnd, PutItems, PutSource;
    var e := PutEnd(q, End);
    FlatPutEnd(q, End);
    FlatPut(q.where, e);
    var t2 := T(WHERE, Put(q.where, e));
    FlatPutSource(q.from, t2);
    var t1 := T(FROM, PutSource(q.from, t2));
    FlatPutItems(q.items, t1);
    var t0 := PutItems(q.items, t1);
    assert [] + Flat(t0) == Flat(t0);
    assert Flat(T(DISTINCT, t0)) == [DISTINCT] + Flat(t0);
  }

  lemma FilledClause(a: Option<Ast>, xs: seq<Datum>)
    ensures FillOption(a, xs) == ClauseArgs(a) + xs
  {
    if a.Some? { Filled(a.value, xs); }
  }

  lemma FilledSource(s: Source, xs: seq<Datum>)
    ensures FillSource(s, xs) == SourceArgs(s) + xs
  {
    if s.Sub? { FilledQuery(s.q, xs); }
  }

  lemma FilledItems(items: Items, xs: seq<Datum>)
    ensures FillItems(items, xs) == ItemsArgs(items) + xs
  {
    FillItemsApart(items, [], xs);
    assert [] + xs == xs;
  }

  lemma StatementArgsAre(q: Query)
    ensures ArgsOfQuery(q) == StatementArgs(q)
  {
    hide ItemsArgs, ClauseArgs, ArgsOf, SourceArgs, FillOption, FillSource, FillItems, Fill;
    FilledClause(q.limit, []);
    assert ClauseArgs(q.limit) + [] == ClauseArgs(q.limit);
    var x0 := FillOption(q.limit, []);
    FilledClause(q.having, x0);
    var x1 := FillOption(q.having, x0);
    Filled(q.where, x1);
    var x2 := Fill(q.where, x1);
    FilledSource(q.from, x2);
    FilledItems(q.items, FillSource(q.from, x2));
  }

  lemma ItemsMore(i: Item, rest: Items)
    ensures ItemsText(More(i, rest)) == ItemText(i) + [COMMA] + ItemsText(rest)
    ensures ItemsText(Last(i)) == ItemText(i)
  {
    FlatPutItem(i, T(COMMA, PutItems(rest, End)));
  }

  lemma NameText(n: string)
    ensures ItemText(Name(n)) == [WORD(n)] && ItemsText(Last(Name(n))) == [WORD(n)]
  {
    assert PutItem(Name(n), End) == PutItems(Last(Name(n)), End) == T(WORD(n), End);
    assert Flat(End) == [];
  }

  lemma AliasText(a: Ast, alias: string)
    ensures ItemText(Alias(a, alias)) == TextOf(a) + [AS, WORD(alias)]
  {
    FlatPut(a, T(AS, T(WORD(alias), End)));
    FlatTwo(AS, WORD(alias), End);
  }

  lemma AliasArgs(a: Ast, alias: string, rest: Items)
    ensures ItemsArgs(More(Alias(a, alias), rest)) == ArgsOf(a) + ItemsArgs(rest)
    ensures ItemsArgs(Last(Alias(a, alias))) == ArgsOf(a)
  {
    Filled(a, ItemsArgs(rest));
  }

  lemma OverText(fn: Fn, a: Ast, p: string)
    ensures TextOf(Over(fn, One(a), p)) == [FN(fn), LP] + TextOf(a) + [RP, OVER, LP, PARTITIONBY, WORD(p), RP]
    ensures ArgsOf(Over(fn, One(a), p)) == ArgsOf(a)
  {
    var after := PutOver(p, End);
    FlatFour(RP, OVER, LP, PARTITIONBY, T(WORD(p), T(RP, End)));
    FlatTwo(WORD(p), RP, End);
    assert Flat(T(RP, after)) == [RP, OVER, LP, PARTITIONBY, WORD(p), RP];
    FlatPut(a, T(RP, after));
    PutArgsOneTwo(a, a, T(RP, after), []);
    FlatTwo(FN(fn), LP, Put(a, T(RP, after)));
    assert Put(Over(fn, One(a), p), End) == T(FN(fn), T(LP, Put(a, T(RP, after))));
  }

  lemma InSelectText(x: Ast, q: Query)
    ensures TextOf(InSelect(x, q)) == TextOf(x) + [IN, LP] + TextOfQuery(q) + [RP]
    ensures ArgsOf(InSelect(x, q)) == ArgsOf(x) + ArgsOfQuery(q)
  {
    FlatPut(x, T(IN, T(LP, PutQuery(q, T(RP, End)))));
    FlatPutQuery(q, T(RP, End));
    FlatTwo(IN, LP, PutQuery(q, T(RP, End)));
    Filled(x, ArgsOfQuery(q));
    assert Flat(T(RP, End)) == [RP];
  }

  lemma PairText(a: Ast, b: Ast)
    ensures TextOf(Group(Two(a, b))) == [LP] + TextOf(a) + [COMMA] + TextOf(b) + [RP]
    ensures ArgsOf(Group(Two(a, b))) == ArgsOf(a) + ArgsOf(b)
  {
    PutArgsOneTwo(a, b, T(RP, End), []);
    FlatPut(a, T(COMMA, Put(b, T(RP, End))));
    FlatPut(b, T(RP, End));
    Filled(a, ArgsOf(b));
    assert Flat(T(RP, End)) == [RP];
  }
}
