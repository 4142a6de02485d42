/** Statements as a builder holds them: a sequence of tokens appended to from the left, and the positional
    arguments in the order they were appended. */
module SqlText {
  import opened Basics
  import opened SqlSyntax
  import opened SqlRoundTrip

  function Flat(ts: Tokens): seq<Token> {
    match ts case End => [] case T(t, rest) => [t] + Flat(rest)
  }

  function Lex(s: seq<Token>): Tokens {
    if s == [] then End else T(s[0], Lex(s[1..]))
  }

  function TextOf(a: Ast): seq<Token> { Flat(Put(a, End)) }

  function ArgsOf(a: Ast): seq<Datum> { Fill(a, []) }

  function TextOfArgs(args: Args): seq<Token> { Flat(PutArgs(args, End)) }

  function ArgsOfArgs(args: Args): seq<Datum> { FillArgs(args, []) }

  function TextOfQuery(q: Query): seq<Token> { Flat(PutQuery(q, End)) }

  function ArgsOfQuery(q: Query): seq<Datum> { FillQuery(q, []) }

  lemma {:induction false} LexFlat(ts: Tokens)
    ensures Lex(Flat(ts)) == ts
  {
    if ts.T? {
      LexFlat(ts.rest);
      assert Flat(ts)[1..] == Flat(ts.rest);
    }
  }

  // ---- the text of a tree does not depend on what follows it -----------------------------------

  function Join(ts: Tokens, more: Tokens): Tokens {
    match ts case End => more case T(t, rest) => T(t, Join(rest, more))
  }

  lemma JoinDeep(t: Token, u: Token, v: Token, ts: Tokens, more: Tokens)
    ensures Join(T(t, T(u, T(v, ts))), more) == T(t, T(u, T(v, Join(ts, more))))
    ensures Join(T(t, T(u, ts)), more) == T(t, T(u, Join(ts, more)))
  {
    assert Join(T(u, T(v, ts)), more) == T(u, T(v, Join(ts, more)));
  }

  lemma {:induction false} FlatJoin(ts: Tokens, more: Tokens)
    ensures Flat(Join(ts, more)) == Flat(ts) + Flat(more)
  {
    if ts.T? { FlatJoin(ts.rest, more); }
  }

  lemma {:induction false} PutJoin(a: Ast, ts: Tokens, more: Tokens)
    ensures Put(a, Join(ts, more)) == Join(Put(a, ts), more)
    decreases a
  {
    match a
    case Hole(_) =>
    case Lit(_) =>
    case Text(_) =>
    case Col(_) =>
    case At(_, k) => PutJoin(k, T(RB, ts), more);
    case Call(_, args) => PutArgsJoin(args, T(RP, ts), more);
    case Over(fn, args, p) =>
      PutArgsJoin(args, T(RP, PutOver(p, ts)), more);
      JoinDeep(PARTITIONBY, WORD(p), RP, ts, more);
      JoinDeep(OVER, LP, PARTITIONBY, T(WORD(p), T(RP, ts)), more);
      JoinDeep(FN(fn), LP, LP, PutArgs(args, T(RP, PutOver(p, ts))), more);
    case Group(items) => PutArgsJoin(items, T(RP, ts), more);
    case List(items) => PutArgsJoin(items, T(RB, ts), more);
    case Compare(op, l, r) => PutJoin(r, ts, more); PutJoin(l, T(CMP(op), Put(r, ts)), more);
    case Calc(sign, l, r) => PutJoin(r, ts, more); PutJoin(l, T(SIGN(sign), Put(r, ts)), more);
    case InList(neg, x, items) =>
      PutArgsJoin(items, T(RP, ts), more);
      var inside := T(IN, T(LP, PutArgs(items, T(RP, ts))));
      JoinDeep(NOT, IN, LP, PutArgs(items, T(RP, ts)), more);
      JoinDeep(IN, LP, LP, PutArgs(items, T(RP, ts)), more);
      PutJoin(x, if neg then T(NOT, inside) else inside, more);
    case InSelect(x, q) =>
      PutQueryJoin(q, T(RP, ts), more);
      PutJoin(x, T(IN, T(LP, PutQuery(q, T(RP, ts)))), more);
    case Between(x, lo, hi) =>
      PutJoin(hi, ts, more);
      PutJoin(lo, T(AND, Put(hi, ts)), more);
      PutJoin(x, T(BETWEEN, Put(lo, T(AND, Put(hi, ts)))), more);
    case Not(x) => PutJoin(x, ts, more);
    case And(l, r) => PutJoin(r, ts, more); PutJoin(l, T(AND, Put(r, ts)), more);
    case Or(l, r) => PutJoin(r, ts, more); PutJoin(l, T(OR, Put(r, ts)), more);
  }

  lemma {:induction false} PutArgsJoin(args: Args, ts: Tokens, more: Tokens)
    ensures PutArgs(args, Join(ts, more)) == Join(PutArgs(args, ts), more)
    decreases args
  {
    match args
    case Nil =>
    case Cons(a, Nil) => PutJoin(a, ts, more);
    case Cons(a, rest) => PutArgsJoin(rest, ts, more); PutJoin(a, T(COMMA, PutArgs(rest, ts)), more);
  }

  lemma {:induction false} PutNamesJoin(names: seq<string>, ts: Tokens, more: Tokens)
    ensures PutNames(names, Join(ts, more)) == Join(PutNames(names, ts), more)
  {
    if |names| > 1 { PutNamesJoin(names[1..], ts, more); }
  }

  lemma {:induction false} PutItemJoin(i: Item, ts: Tokens, more: Tokens)
    ensures PutItem(i, Join(ts, more)) == Join(PutItem(i, ts), more)
    decreases i
  {
    match i
    case Star =>
    case StarExcept(names) =>
      PutNamesJoin(names, T(RP, ts), more);
      JoinDeep(STAR, EXCEPT, LP, PutNames(names, T(RP, ts)), more);
    case Name(_) =>
    case Alias(a, alias) => PutJoin(a, T(AS, T(WORD(alias), ts)), more);
  }

  lemma {:induction false} PutItemsJoin(items: Items, ts: Tokens, more: Tokens)
    ensures PutItems(items, Join(ts, more)) == Join(PutItems(items, ts), more)
    decreases items
  {
    match items
    case Last(i) => PutItemJoin(i, ts, more);
    case More(i, rest) => PutItemsJoin(rest, ts, more); PutItemJoin(i, T(COMMA, PutItems(rest, ts)), more);
  }

  lemma {:induction false} PutSourceJoin(s: Source, ts: Tokens, more: Tokens)
    ensures PutSource(s, Join(ts, more)) == Join(PutSource(s, ts), more)
    decreases s
  {
    if s.Sub? { PutQueryJoin(s.q, T(RP, ts), more); }
  }

  lemma {:induction false} PutKeysJoin(keys: seq<Key>, ts: Tokens, more: Tokens)
    ensures PutKeys(keys, Join(ts, more)) == Join(PutKeys(keys, ts), more)
  {
    if keys != [] {
      var dir := if keys[0].descending then DESC else ASC;
      JoinDeep(WORD(keys[0].column), dir, COMMA, PutKeys(keys[1..], ts), more);
      JoinDeep(WORD(keys[0].column), dir, dir, ts, more);
      PutKeysJoin(keys[1..], ts, more);
    }
  }

  lemma {:induction false} PutClauseJoin(t: Token, a: Option<Ast>, ts: Tokens, more: Tokens)
    ensures PutClause(t, a, Join(ts, more)) == Join(PutClause(t, a, ts), more)
    decreases a
  {
    if a.Some? { PutJoin(a.value, ts, more); }
  }

  lemma {:induction false} PutEndJoin(q: Query, ts: Tokens, more: Tokens)
    ensures PutEnd(q, Join(ts, more)) == Join(PutEnd(q, ts), more)
    decreases q, 0
  {
    PutClauseJoin(LIMIT, q.limit, ts, more);
    PutKeysJoin(q.order, PutClause(LIMIT, q.limit, ts), more);
    PutClauseJoin(HAVING, q.having, PutOrder(q.order, PutClause(LIMIT, q.limit, ts)), more);
  }

  lemma {:induction false} PutQueryJoin(q: Query, ts: Tokens, more: Tokens)
    ensures PutQuery(q, Join(ts, more)) == Join(PutQuery(q, ts), more)
    decreases q, 1
  {
    PutEndJoin(q, ts, more);
    PutJoin(q.where, PutEnd(q, ts), more);
    var t2 := T(WHERE, Put(q.where, PutEnd(q, ts)));
    PutSourceJoin(q.from, t2, more);
    PutItemsJoin(q.items, T(FROM, PutSource(q.from, t2)), more);
  }

  lemma FlatPut(a: Ast, ts: Tokens)
    ensures Flat(Put(a, ts)) == TextOf(a) + Flat(ts)
  {
    PutJoin(a, End, ts);
    FlatJoin(Put(a, End), ts);
  }

  lemma FlatPutArgs(args: Args, ts: Tokens)
    ensures Flat(PutArgs(args, ts)) == TextOfArgs(args) + Flat(ts)
  {
    PutArgsJoin(args, End, ts);
    FlatJoin(PutArgs(args, End), ts);
  }

  lemma FlatPutQuery(q: Query, ts: Tokens)
    ensures Flat(PutQuery(q, ts)) == TextOfQuery(q) + Flat(ts)
  {
    PutQueryJoin(q, End, ts);
    FlatJoin(PutQuery(q, End), ts);
  }

  // ---- the arguments of a tree do not depend on what follows them -------------------------------

  lemma {:induction false} FillApart(a: Ast, xs: seq<Datum>, more: seq<Datum>)
    ensures Fill(a, xs + more) == Fill(a, xs) + more
    decreases a
  {
    match a
    case Hole(_) =>
    case Lit(_) =>
    case Text(_) =>
    case Col(_) =>
    case At(_, k) => FillApart(k, xs, more);
    case Call(_, args) => FillArgsApart(args, xs, more);
    case Over(_, args, _) => FillArgsApart(args, xs, more);
    case Group(items) => FillArgsApart(items, xs, more);
    case List(items) => FillArgsApart(items, xs, more);
    case Compare(_, l, r) => FillApart(r, xs, more); FillApart(l, Fill(r, xs), more);
    case Calc(_, l, r) => FillApart(r, xs, more); FillApart(l, Fill(r, xs), more);
    case InList(_, x, items) => FillArgsApart(items, xs, more); FillApart(x, FillArgs(items, xs), more);
    case InSelect(x, q) => FillQueryApart(q, xs, more); FillApart(x, FillQuery(q, xs), more);
    case Between(x, lo, hi) =>
      FillApart(hi, xs, more);
      FillApart(lo, Fill(hi, xs), more);
      FillApart(x, Fill(lo, Fill(hi, xs)), more);
    case Not(x) => FillApart(x, xs, more);
    case And(l, r) => FillApart(r, xs, more); FillApart(l, Fill(r, xs), more);
    case Or(l, r) => FillApart(r, xs, more); FillApart(l, Fill(r, xs), more);
  }

  lemma {:induction false} FillArgsApart(args: Args, xs: seq<Datum>, more: seq<Datum>)
    ensures FillArgs(args, xs + more) == FillArgs(args, xs) + more
    decreases args
  {
    match args
    case Nil =>
    case Cons(a, rest) => FillArgsApart(rest, xs, more); FillApart(a, FillArgs(rest, xs), more);
  }

  lemma {:induction false} FillItemsApart(items: Items, xs: seq<Datum>, more: seq<Datum>)
    ensures FillItems(items, xs + more) == FillItems(items, xs) + more
    decreases items
  {
    match items
    case Last(i) => if i.Alias? { FillApart(i.a, xs, more); }
    case More(i, rest) =>
      FillItemsApart(rest, xs, more);
      if i.Alias? { FillApart(i.a, FillItems(rest, xs), more); }
  }

  lemma {:induction false} FillOptionApart(a: Option<Ast>, xs: seq<Datum>, more: seq<Datum>)
    ensures FillOption(a, xs + more) == FillOption(a, xs) + more
    decreases a
  {
    if a.Some? { FillApart(a.value, xs, more); }
  }

  lemma {:induction false} FillQueryApart(q: Query, xs: seq<Datum>, more: seq<Datum>)
    ensures FillQuery(q, xs + more) == FillQuery(q, xs) + more
    decreases q
  {
    FillOptionApart(q.limit, xs, more);
    FillOptionApart(q.having, FillOption(q.limit, xs), more);
    FillApart(q.where, FillOption(q.having, FillOption(q.limit, xs)), more);
    var x2 := Fill(q.where, FillOption(q.having, FillOption(q.limit, xs)));
    if q.from.Sub? { FillQueryApart(q.from.q, x2, more); }
    FillItemsApart(q.items, FillSource(q.from, x2), more);
  }

  lemma Filled(a: Ast, xs: seq<Datum>)
    ensures Fill(a, xs) == ArgsOf(a) + xs
  {
    FillApart(a, [], xs);
    assert [] + xs == xs;
  }

  lemma FilledQuery(q: Query, xs: seq<Datum>)
    ensures FillQuery(q, xs) == ArgsOfQuery(q) + xs
  {
    FillQueryApart(q, [], xs);
    assert [] + xs == xs;
  }

  // ---- reading a whole text ------------------------------------------------------------------------

  /** The one expression a text is, with its placeholders bound; None if it is not one. */
  function ReadAst(text: seq<Token>, args: seq<Datum>): Option<Ast> {
    match Parse(0, Lex(text), args)
    case Done(a, End, xs) => if xs == [] then Some(a) else None
    case _ => None
  }

  /** The one statement a text is, with its placeholders bound; None if it is not one. */
  function ReadQuery(text: seq<Token>, args: seq<Datum>): Option<Query> {
    match ParseQuery(Lex(text), args)
    case Done(q, End, xs) => if xs == [] then Some(q) else None
    case _ => None
  }

  lemma ReadBackText(a: Ast)
    requires Wf(a)
    ensures ReadAst(TextOf(a), ArgsOf(a)) == Some(a)
  {
    LexFlat(Put(a, End));
    ReadBack(0, a, End, []);
  }

  lemma ReadBackStatement(q: Query)
    requires WfQuery(q)
    ensures ReadQuery(TextOfQuery(q), ArgsOfQuery(q)) == Some(q)
  {
    LexFlat(PutQuery(q, End));
    ReadBackQuery(q, End, []);
  }

  // ---- the texts of common shapes -------------------------------------------------------------------

  function One(a: Ast): Args { Cons(a, Nil) }

  function Two(a: Ast, b: Ast): Args { Cons(a, Cons(b, Nil)) }

  function Parens(a: Ast): Ast { Group(One(a)) }

  lemma FlatTwo(t: Token, u: Token, ts: Tokens)
    ensures Flat(T(t, T(u, ts))) == [t, u] + Flat(ts)
  {
    assert Flat(T(u, ts)) == [u] + Flat(ts);
  }

  lemma FlatFour(t: Token, u: Token, v: Token, w: Token, ts: Tokens)
    ensures Flat(T(t, T(u, T(v, T(w, ts))))) == [t, u, v, w] + Flat(ts)
  {
    FlatTwo(v, w, ts);
    FlatTwo(t, u, T(v, T(w, ts)));
  }

  lemma PutArgsOneTwo(a: Ast, b: Ast, ts: Tokens, xs: seq<Datum>)
    ensures PutArgs(One(a), ts) == Put(a, ts) && FillArgs(One(a), xs) == Fill(a, xs)
    ensures PutArgs(Two(a, b), ts) == Put(a, T(COMMA, Put(b, ts))) && FillArgs(Two(a, b), xs) == Fill(a, Fill(b, xs))
  {
    assert PutArgs(One(b), ts) == Put(b, ts);
    assert FillArgs(Nil, xs) == xs;
    assert FillArgs(One(b), xs) == Fill(b, xs);
  }

  lemma ParensText(a: Ast)
    ensures TextOf(Parens(a)) == [LP] + TextOf(a) + [RP] && ArgsOf(Parens(a)) == ArgsOf(a)
  {
    PutArgsOneTwo(a, a, T(RP, End), []);
    assert Put(Parens(a), End) == T(LP, Put(a, T(RP, End)));
    FlatPut(a, T(RP, End));
    assert Flat(T(RP, End)) == [RP];
  }

  lemma ChainText(l: Ast, r: Ast, disj: bool)
    ensures TextOf(if disj then Or(l, r) else And(l, r)) == TextOf(l) + [if disj then OR else AND] + TextOf(r)
    ensures ArgsOf(if disj then Or(l, r) else And(l, r)) == ArgsOf(l) + ArgsOf(r)
  {
    FlatPut(l, T(if disj then OR else AND, Put(r, End)));
    Filled(l, ArgsOf(r));
  }

  /** a AND (b AND (c ...)), or the same with OR, for at least one tree. */
  function Chain(as_: seq<Ast>, disj: bool): Ast
    requires as_ != []
  {
    if |as_| == 1 then as_[0]
    else if disj then Or(as_[0], Chain(as_[1..], disj))
    else And(as_[0], Chain(as_[1..], disj))
  }

  function JoinedText(as_: seq<Ast>, disj: bool): seq<Token> {
    if as_ == [] then [] else TextOf(Chain(as_, disj))
  }

  function JoinedArgs(as_: seq<Ast>, disj: bool): seq<Datum> {
    if as_ == [] then [] else ArgsOf(Chain(as_, disj))
  }

  /** Joining texts with an operator is the text of the chain. */
  lemma {:induction false} JoinOneMore(as_: seq<Ast>, a: Ast, disj: bool)
    ensures JoinedText(as_ + [a], disj) ==
      JoinedText(as_, disj) + ((if as_ == [] then [] else [if disj then OR else AND]) + TextOf(a))
    ensures JoinedArgs(as_ + [a], disj) == JoinedArgs(as_, disj) + ArgsOf(a)
  {
    hide TextOf, ArgsOf;
    if as_ == [] {
      assert [] + [a] == [a];
    } else {
      var op, tail := [if disj then OR else AND], as_[1..];
      assert (as_ + [a])[0] == as_[0] && (as_ + [a])[1..] == tail + [a];
      ChainText(as_[0], Chain(tail + [a], disj), disj);
      JoinOneMore(tail, a, disj);
      if tail != [] {
        ChainText(as_[0], Chain(tail, disj), disj);
        Regroup(TextOf(as_[0]) + op, JoinedText(tail, disj), op + TextOf(a));
        Regroup(ArgsOf(as_[0]), JoinedArgs(tail, disj), ArgsOf(a));
      } else {
        Regroup(TextOf(as_[0]), op, TextOf(a));
      }
    }
  }

  lemma JoinedNone(disj: bool)
    ensures JoinedText([], disj) == [] && JoinedArgs([], disj) == []
  {
  }

  lemma JoinedSome(as_: seq<Ast>, disj: bool)
    requires as_ != []
    ensures JoinedText(as_, disj) == TextOf(Chain(as_, disj)) && JoinedArgs(as_, disj) == ArgsOf(Chain(as_, disj))
  {
  }

  lemma Regroup<X>(a: seq<X>, b: seq<X>, c: seq<X>)
    ensures a + (b + c) == a + b + c
  {
  }

  lemma {:induction false} ChainWf(as_: seq<Ast>, disj: bool)
    requires as_ != [] && forall a :: a in as_ ==> Wf(a) && Level(a) >= 2
    ensures Wf(Chain(as_, disj)) && Level(Chain(as_, disj)) >= if disj then 0 else 1
    ensures |as_| == 1 ==> Level(Chain(as_, disj)) >= 2
  {
    if |as_| > 1 { ChainWf(as_[1..], disj); }
  }

  lemma CallTwoText(fn: Fn, a: Ast, b: Ast)
    ensures TextOf(Call(fn, Two(a, b))) == [FN(fn), LP] + TextOf(a) + [COMMA] + TextOf(b) + [RP]
    ensures ArgsOf(Call(fn, Two(a, b))) == ArgsOf(a) + ArgsOf(b)
  {
    PutArgsOneTwo(a, b, T(RP, End), []);
    FlatTwo(FN(fn), LP, PutArgs(Two(a, b), T(RP, End)));
    FlatPut(a, T(COMMA, Put(b, T(RP, End))));
    FlatPut(b, T(RP, End));
    Filled(a, ArgsOf(b));
    assert Flat(T(RP, End)) == [RP];
  }

  lemma CallOneText(fn: Fn, a: Ast)
    ensures TextOf(Call(fn, One(a))) == [FN(fn), LP] + TextOf(a) + [RP] && ArgsOf(Call(fn, One(a))) == ArgsOf(a)
  {
    PutArgsOneTwo(a, a, T(RP, End), []);
    FlatTwo(FN(fn), LP, PutArgs(One(a), T(RP, End)));
    FlatPut(a, T(RP, End));
    assert Flat(T(RP, End)) == [RP];
  }

  lemma CompareText(cmp: Cmp, l: Ast, r: Ast)
    ensures TextOf(Compare(cmp, l, r)) == TextOf(l) + [CMP(cmp)] + TextOf(r)
    ensures ArgsOf(Compare(cmp, l, r)) == ArgsOf(l) + ArgsOf(r)
  {
    FlatPut(l, T(CMP(cmp), Put(r, End)));
    Filled(l, ArgsOf(r));
  }

  lemma CalcText(sign: Sign, l: Ast, r: Ast)
    ensures TextOf(Calc(sign, l, r)) == TextOf(l) + [SIGN(sign)] + TextOf(r)
    ensures ArgsOf(Calc(sign, l, r)) == ArgsOf(l) + ArgsOf(r)
  {
    FlatPut(l, T(SIGN(sign), Put(r, End)));
    Filled(l, ArgsOf(r));
  }

  lemma InListTextOf(negated: bool, x: Ast, items: Args)
    ensures TextOf(InList(negated, x, items))
         == TextOf(x) + ((if negated then [NOT] else []) + ([IN, LP] + (TextOfArgs(items) + [RP])))
    ensures ArgsOf(InList(negated, x, items)) == ArgsOf(x) + ArgsOfArgs(items)
  {
    var inside := T(IN, T(LP, PutArgs(items, T(RP, End))));
    FlatPut(x, if negated then T(NOT, inside) else inside);
    FlatPutArgs(items, T(RP, End));
    FlatTwo(IN, LP, PutArgs(items, T(RP, End)));
    assert Flat(T(RP, End)) == [RP];
    Filled(x, ArgsOfArgs(items));
  }

  lemma AtomTexts(c: string, d: Datum, n: nat)
    ensures TextOf(Col(c)) == [WORD(c)] && ArgsOf(Col(c)) == []
    ensures TextOf(Hole(d)) == [MARK] && ArgsOf(Hole(d)) == [d]
    ensures TextOf(Lit(n)) == [NUM(n)] && ArgsOf(Lit(n)) == []
    ensures TextOf(At(c, Hole(d))) == [WORD(c), LB, MARK, RB] && ArgsOf(At(c, Hole(d))) == [d]
  {
    assert Put(At(c, Hole(d)), End) == T(WORD(c), T(LB, T(MARK, T(RB, End))));
    FlatFour(WORD(c), LB, MARK, RB, End);
    assert Fill(Hole(d), []) == [d] + [];
  }
}
