/** The SQL LightShip writes: tokens, syntax trees, how a tree is printed, and how a database reads the
    printed tokens back while it binds each placeholder to the next positional argument. */
module SqlSyntax {
  import opened Basics

  /** A value of a column, a literal or a positional argument. */
  datatype Datum =
    | Null
    | Bool(b: bool)
    | Str(s: string)
    | Num(n: real)
    | Arr(elems: seq<string>)
    | Dict(entries: map<string, string>)
    | Pair(fst: Datum, snd: Datum)
    | Bad // the database raises a type error

  datatype Cmp = Eq | Ne | Gt | Ge | Lt | Le

  datatype Sign = Minus | Divide

  datatype Fn =
    | MapContains | ToBoolOrNull | ToFloat64OrNull | JSONExtract
    | StartsWith | Has | HasAny | HasAll
    | CountIf | Sum | Min | Max | ArgMin | Count | ToUnixNano

  datatype Token =
    | LP | RP | LB | RB | COMMA | MARK
    | AND | OR | NOT | IN | BETWEEN
    | CMP(op: Cmp) | SIGN(sign: Sign) | WORD(w: string) | FN(fn: Fn) | NUM(n: nat) | QUOTED(q: string)
    | SELECT | DISTINCT | STAR | EXCEPT | AS | FROM | WHERE
    | GROUPBY | HAVING | ORDERBY | DESC | ASC | LIMIT | OVER | PARTITIONBY

  datatype Ast =
    | Hole(v: Datum)
    | Lit(n: nat)
    | Text(s: string)
    | Col(name: string)
    | At(column: string, key: Ast)
    | Call(fn: Fn, args: Args)
    | Over(fn: Fn, args: Args, partition: string)
    | Group(items: Args)
    | List(items: Args)
    | Compare(op: Cmp, l: Ast, r: Ast)
    | Calc(sign: Sign, l: Ast, r: Ast)
    | InList(negated: bool, x: Ast, items: Args)
    | InSelect(x: Ast, q: Query)
    | Between(x: Ast, lo: Ast, hi: Ast)
    | Not(x: Ast)
    | And(l: Ast, r: Ast)
    | Or(l: Ast, r: Ast)

  datatype Args = Nil | Cons(head: Ast, tail: Args)

  datatype Item =
    | Star
    | StarExcept(names: seq<string>)
    | Name(name: string)
    | Alias(a: Ast, alias: string)

  datatype Items = Last(item: Item) | More(item: Item, rest: Items)

  datatype Source = Table(name: string) | Sub(q: Query)

  datatype Key = Key(column: string, descending: bool)

  datatype Query = Query(
    distinct: bool,
    items: Items,
    from: Source,
    where: Ast,
    group: Option<string>,
    having: Option<Ast>,
    order: seq<Key>,
    limit: Option<Ast>)

  // ---- printing: a tree in front of the tokens that follow it -------------------------------

  /** A token text, first token first. */
  datatype Tokens = End | T(first: Token, rest: Tokens) {
    ghost function Size(): nat {
      match this case End => 0 case T(_, rest) => 1 + rest.Size()
    }
  }

  function Put(a: Ast, ts: Tokens): Tokens
    decreases a
  {
    match a
    case Hole(_) => T(MARK, ts)
    case Lit(n) => T(NUM(n), ts)
    case Text(s) => T(QUOTED(s), ts)
    case Col(c) => T(WORD(c), ts)
    case At(c, k) => T(WORD(c), T(LB, Put(k, T(RB, ts))))
    case Call(f, args) => T(FN(f), T(LP, PutArgs(args, T(RP, ts))))
    case Over(f, args, p) => T(FN(f), T(LP, PutArgs(args, T(RP, PutOver(p, ts)))))
    case Group(items) => T(LP, PutArgs(items, T(RP, ts)))
    case List(items) => T(LB, PutArgs(items, T(RB, ts)))
    case Compare(op, l, r) => Put(l, T(CMP(op), Put(r, ts)))
    case Calc(sign, l, r) => Put(l, T(SIGN(sign), Put(r, ts)))
    case InList(neg, x, items) =>
      var inside := T(IN, T(LP, PutArgs(items, T(RP, ts))));
      Put(x, if neg then T(NOT, inside) else inside)
    case InSelect(x, q) => Put(x, T(IN, T(LP, PutQuery(q, T(RP, ts)))))
    case Between(x, lo, hi) => Put(x, T(BETWEEN, Put(lo, T(AND, Put(hi, ts)))))
    case Not(x) => T(NOT, Put(x, ts))
    case And(l, r) => Put(l, T(AND, Put(r, ts)))
    case Or(l, r) => Put(l, T(OR, Put(r, ts)))
  }

  function PutOver(p: string, ts: Tokens): Tokens {
    T(OVER, T(LP, T(PARTITIONBY, T(WORD(p), T(RP, ts)))))
  }

  function PutArgs(args: Args, ts: Tokens): Tokens
    decreases args
  {
    match args
    case Nil => ts
    case Cons(a, Nil) => Put(a, ts)
    case Cons(a, rest) => Put(a, T(COMMA, PutArgs(rest, ts)))
  }

  function PutNames(names: seq<string>, ts: Tokens): Tokens {
    if names == [] then ts
    else T(WORD(names[0]), if |names| == 1 then ts else T(COMMA, PutNames(names[1..], ts)))
  }

  function PutItem(i: Item, ts: Tokens): Tokens
    decreases i
  {
    match i
    case Star => T(STAR, ts)
    case StarExcept(names) => T(STAR, T(EXCEPT, T(LP, PutNames(names, T(RP, ts)))))
    case Name(n) => T(WORD(n), ts)
    case Alias(a, alias) => Put(a, T(AS, T(WORD(alias), ts)))
  }

  function PutItems(items: Items, ts: Tokens): Tokens
    decreases items
  {
    match items
    case Last(i) => PutItem(i, ts)
    case More(i, rest) => PutItem(i, T(COMMA, PutItems(rest, ts)))
  }

  function PutSource(s: Source, ts: Tokens): Tokens
    decreases s
  {
    match s
    case Table(t) => T(WORD(t), ts)
    case Sub(q) => T(LP, PutQuery(q, T(RP, ts)))
  }

  function PutKeys(keys: seq<Key>, ts: Tokens): Tokens {
    if keys == [] then ts
    else
      var end := if |keys| == 1 then ts else T(COMMA, PutKeys(keys[1..], ts));
      T(WORD(keys[0].column), T(if keys[0].descending then DESC else ASC, end))
  }

  /** The clauses after WHERE. */
  function PutEnd(q: Query, ts: Tokens): Tokens
    decreases q, 0
  {
    var t4 := PutOrder(q.order, PutClause(LIMIT, q.limit, ts));
    var t3 := PutClause(HAVING, q.having, t4);
    match q.group case None => t3 case Some(g) => T(GROUPBY, T(WORD(g), t3))
  }

  function PutClause(t: Token, a: Option<Ast>, ts: Tokens): Tokens
    decreases a
  {
    match a case None => ts case Some(b) => T(t, Put(b, ts))
  }

  function PutOrder(keys: seq<Key>, ts: Tokens): Tokens {
    if keys == [] then ts else T(ORDERBY, PutKeys(keys, ts))
  }

  function PutQuery(q: Query, ts: Tokens): Tokens
    decreases q, 1
  {
    var t1 := T(FROM, PutSource(q.from, T(WHERE, Put(q.where, PutEnd(q, ts)))));
    var t0 := PutItems(q.items, t1);
    T(SELECT, if q.distinct then T(DISTINCT, t0) else t0)
  }

  // ---- the positional arguments of a tree, in front of the arguments that follow ---------------

  function Fill(a: Ast, xs: seq<Datum>): seq<Datum>
    decreases a
  {
    match a
    case Hole(v) => [v] + xs
    case Lit(_) => xs
    case Text(_) => xs
    case Col(_) => xs
    case At(_, k) => Fill(k, xs)
    case Call(_, args) => FillArgs(args, xs)
    case Over(_, args, _) => FillArgs(args, xs)
    case Group(items) => FillArgs(items, xs)
    case List(items) => FillArgs(items, xs)
    case Compare(_, l, r) => Fill(l, Fill(r, xs))
    case Calc(_, l, r) => Fill(l, Fill(r, xs))
    case InList(_, x, items) => Fill(x, FillArgs(items, xs))
    case InSelect(x, q) => Fill(x, FillQuery(q, xs))
    case Between(x, lo, hi) => Fill(x, Fill(lo, Fill(hi, xs)))
    case Not(x) => Fill(x, xs)
    case And(l, r) => Fill(l, Fill(r, xs))
    case Or(l, r) => Fill(l, Fill(r, xs))
  }

  function FillArgs(args: Args, xs: seq<Datum>): seq<Datum>
    decreases args
  {
    match args
    case Nil => xs
    case Cons(a, rest) => Fill(a, FillArgs(rest, xs))
  }

  function FillItems(items: Items, xs: seq<Datum>): seq<Datum>
    decreases items
  {
    match items
    case Last(Alias(a, _)) => Fill(a, xs)
    case Last(_) => xs
    case More(Alias(a, _), rest) => Fill(a, FillItems(rest, xs))
    case More(_, rest) => FillItems(rest, xs)
  }

  function FillOption(a: Option<Ast>, xs: seq<Datum>): seq<Datum>
    decreases a
  {
    match a case None => xs case Some(b) => Fill(b, xs)
  }

  function FillQuery(q: Query, xs: seq<Datum>): seq<Datum>
    decreases q
  {
    var x2 := Fill(q.where, FillOption(q.having, FillOption(q.limit, xs)));
    FillItems(q.items, FillSource(q.from, x2))
  }

  function FillSource(s: Source, xs: seq<Datum>): seq<Datum>
    decreases s
  {
    match s case Table(_) => xs case Sub(q) => FillQuery(q, xs)
  }

  // ---- reading ----------------------------------------------------------------------------------

  datatype Parsed<+T> = Fail | Done(v: T, ts: Tokens, xs: seq<Datum>) {
    predicate IsFailure() { Fail? }

    function PropagateFailure<U>(): Parsed<U>
      requires Fail?
    {
      Fail
    }

    function Extract(): (T, Tokens, seq<Datum>)
      requires Done?
    {
      (v, ts, xs)
    }
  }

  predicate Next(ts: Tokens, t: Token) {
    ts.T? && ts.first == t
  }

  function Expect(t: Token, ts: Tokens, xs: seq<Datum>): (p: Parsed<()>)
    ensures p.Done? ==> p.ts.Size() < ts.Size()
  {
    if Next(ts, t) then Done((), ts.rest, xs) else Fail
  }

  /** Operator precedence, loosest first: 0 is OR, 1 is AND, 2 is NOT, 3 is a comparison, 4 is an operand.
      Calculations are read like comparisons, one at a time: what is written here brackets them. */
  function Parse(k: nat, ts: Tokens, xs: seq<Datum>): (p: Parsed<Ast>)
    requires k <= 4
    ensures p.Done? ==> p.ts.Size() < ts.Size()
    decreases ts.Size(), 9 - k
  {
    if k == 0 then
      var (l, ts, xs) :- Parse(1, ts, xs);
      if !Next(ts, OR) then Done(l, ts, xs) else
      var (r, ts, xs) :- Parse(0, ts.rest, xs);
      Done(Or(l, r), ts, xs)
    else if k == 1 then
      var (l, ts, xs) :- Parse(2, ts, xs);
      if !Next(ts, AND) then Done(l, ts, xs) else
      var (r, ts, xs) :- Parse(1, ts.rest, xs);
      Done(And(l, r), ts, xs)
    else if k == 2 then
      if !Next(ts, NOT) then Parse(3, ts, xs) else
      var (x, ts, xs) :- Parse(2, ts.rest, xs);
      Done(Not(x), ts, xs)
    else if k == 3 then
      var (x, ts, xs) :- Parse(4, ts, xs);
      ParseTail(x, ts, xs)
    else
      ParseOperand(ts, xs)
  }

  /** What may follow the left operand of a comparison. */
  function ParseTail(x: Ast, ts: Tokens, xs: seq<Datum>): (p: Parsed<Ast>)
    ensures p.Done? ==> p.ts.Size() <= ts.Size()
    decreases ts.Size(), 0
  {
    if ts == End then Done(x, ts, xs)
    else if ts.first.CMP? then
      var op := ts.first.op;
      var (r, ts, xs) :- Parse(4, ts.rest, xs);
      Done(Compare(op, x, r), ts, xs)
    else if ts.first.SIGN? then
      var sign := ts.first.sign;
      var (r, ts, xs) :- Parse(4, ts.rest, xs);
      Done(Calc(sign, x, r), ts, xs)
    else if ts.first == BETWEEN then
      var (lo, ts, xs) :- Parse(4, ts.rest, xs);
      var (_, ts, xs) :- Expect(AND, ts, xs);
      var (hi, ts, xs) :- Parse(4, ts, xs);
      Done(Between(x, lo, hi), ts, xs)
    else if ts.first == NOT then
      var (_, ts, xs) :- Expect(IN, ts.rest, xs);
      var (_, ts, xs) :- Expect(LP, ts, xs);
      ParseMembers(true, x, ts, xs)
    else if ts.first == IN then
      var (_, ts, xs) :- Expect(LP, ts.rest, xs);
      if !Next(ts, SELECT) then ParseMembers(false, x, ts, xs) else
      var (q, ts, xs) :- ParseQuery(ts, xs);
      var (_, ts, xs) :- Expect(RP, ts, xs);
      Done(InSelect(x, q), ts, xs)
    else Done(x, ts, xs)
  }

  /** The rest of an IN list after its opening bracket. */
  function ParseMembers(negated: bool, x: Ast, ts: Tokens, xs: seq<Datum>): (p: Parsed<Ast>)
    ensures p.Done? ==> p.ts.Size() < ts.Size()
    decreases ts.Size(), 11
  {
    var (items, ts, xs) :- ParseArgs(ts, xs);
    var (_, ts, xs) :- Expect(RP, ts, xs);
    Done(InList(negated, x, items), ts, xs)
  }

  function ParseOperand(ts: Tokens, xs: seq<Datum>): (p: Parsed<Ast>)
    ensures p.Done? ==> p.ts.Size() < ts.Size()
    decreases ts.Size(), 4
  {
    if ts == End then Fail else
    match ts.first
    case MARK => if xs == [] then Fail else Done(Hole(xs[0]), ts.rest, xs[1..])
    case NUM(n) => Done(Lit(n), ts.rest, xs)
    case QUOTED(s) => Done(Text(s), ts.rest, xs)
    case WORD(c) =>
      if !Next(ts.rest, LB) then Done(Col(c), ts.rest, xs) else
      var (k, ts, xs) :- Parse(0, ts.rest.rest, xs);
      var (_, ts, xs) :- Expect(RB, ts, xs);
      Done(At(c, k), ts, xs)
    case FN(f) => ParseCall(f, ts.rest, xs)
    case LP =>
      var (items, ts, xs) :- ParseArgs(ts.rest, xs);
      var (_, ts, xs) :- Expect(RP, ts, xs);
      Done(Group(items), ts, xs)
    case LB =>
      var (items, ts, xs) :- ParseArgs(ts.rest, xs);
      var (_, ts, xs) :- Expect(RB, ts, xs);
      Done(List(items), ts, xs)
    case _ => Fail
  }

  function ParseCall(f: Fn, ts: Tokens, xs: seq<Datum>): (p: Parsed<Ast>)
    ensures p.Done? ==> p.ts.Size() < ts.Size()
    decreases ts.Size(), 4
  {
    var (_, ts, xs) :- Expect(LP, ts, xs);
    if Next(ts, RP) then Done(Call(f, Nil), ts.rest, xs) else
    var (args, ts, xs) :- ParseArgs(ts, xs);
    var (_, ts, xs) :- Expect(RP, ts, xs);
    ParseWindow(f, args, ts, xs)
  }

  function ParseWindow(f: Fn, args: Args, ts: Tokens, xs: seq<Datum>): (p: Parsed<Ast>)
    ensures p.Done? ==> p.ts.Size() <= ts.Size()
  {
    if !Next(ts, OVER) then Done(Call(f, args), ts, xs) else
    var (p, ts, xs) :- ParsePartition(ts.rest, xs);
    Done(Over(f, args, p), ts, xs)
  }

  function ParseArgs(ts: Tokens, xs: seq<Datum>): (p: Parsed<Args>)
    ensures p.Done? ==> p.ts.Size() < ts.Size() && p.v.Cons?
    decreases ts.Size(), 10
  {
    var (a, ts, xs) :- Parse(0, ts, xs);
    if !Next(ts, COMMA) then Done(Cons(a, Nil), ts, xs) else
    var (rest, ts, xs) :- ParseArgs(ts.rest, xs);
    Done(Cons(a, rest), ts, xs)
  }

  function ParseWord(ts: Tokens, xs: seq<Datum>): (p: Parsed<string>)
    ensures p.Done? ==> p.ts.Size() < ts.Size()
  {
    if ts.T? && ts.first.WORD? then Done(ts.first.w, ts.rest, xs) else Fail
  }

  function ParsePartition(ts: Tokens, xs: seq<Datum>): (p: Parsed<string>)
    ensures p.Done? ==> p.ts.Size() < ts.Size()
  {
    var (_, ts, xs) :- Expect(LP, ts, xs);
    var (_, ts, xs) :- Expect(PARTITIONBY, ts, xs);
    var (p, ts, xs) :- ParseWord(ts, xs);
    var (_, ts, xs) :- Expect(RP, ts, xs);
    Done(p, ts, xs)
  }

  function ParseNames(ts: Tokens, xs: seq<Datum>): (p: Parsed<seq<string>>)
    ensures p.Done? ==> p.ts.Size() < ts.Size()
    decreases ts.Size()
  {
    var (n, ts, xs) :- ParseWord(ts, xs);
    if !Next(ts, COMMA) then Done([n], ts, xs) else
    var (rest, ts, xs) :- ParseNames(ts.rest, xs);
    Done([n] + rest, ts, xs)
  }

  function ParseExcept(ts: Tokens, xs: seq<Datum>): (p: Parsed<seq<string>>)
    ensures p.Done? ==> p.ts.Size() < ts.Size()
  {
    var (_, ts, xs) :- Expect(LP, ts, xs);
    var (names, ts, xs) :- ParseNames(ts, xs);
    var (_, ts, xs) :- Expect(RP, ts, xs);
    Done(names, ts, xs)
  }

  function ParseItem(ts: Tokens, xs: seq<Datum>): (p: Parsed<Item>)
    ensures p.Done? ==> p.ts.Size() < ts.Size()
    decreases ts.Size(), 11
  {
    if Next(ts, STAR) then
      if !Next(ts.rest, EXCEPT) then Done(Star, ts.rest, xs) else
      var (names, ts, xs) :- ParseExcept(ts.rest.rest, xs);
      Done(StarExcept(names), ts, xs)
    else
      var (a, ts, xs) :- Parse(0, ts, xs);
      if Next(ts, AS) then
        var (alias, ts, xs) :- ParseWord(ts.rest, xs);
        Done(Alias(a, alias), ts, xs)
      else if a.Col? then Done(Name(a.name), ts, xs)
      else Fail
  }

  function ParseItems(ts: Tokens, xs: seq<Datum>): (p: Parsed<Items>)
    ensures p.Done? ==> p.ts.Size() < ts.Size()
    decreases ts.Size(), 12
  {
    var (i, ts, xs) :- ParseItem(ts, xs);
    if !Next(ts, COMMA) then Done(Last(i), ts, xs) else
    var (rest, ts, xs) :- ParseItems(ts.rest, xs);
    Done(More(i, rest), ts, xs)
  }

  function ParseKeys(ts: Tokens, xs: seq<Datum>): (p: Parsed<seq<Key>>)
    ensures p.Done? ==> p.ts.Size() < ts.Size()
    decreases ts.Size()
  {
    var (c, ts, xs) :- ParseWord(ts, xs);
    if !Next(ts, DESC) && !Next(ts, ASC) then Fail else
    var k := Key(c, ts.first == DESC);
    if !Next(ts.rest, COMMA) then Done([k], ts.rest, xs) else
    assert ts.Size() == 1 + ts.rest.Size();
    var (rest, ts, xs) :- ParseKeys(ts.rest.rest, xs);
    Done([k] + rest, ts, xs)
  }

  function ParseSource(ts: Tokens, xs: seq<Datum>): (p: Parsed<Source>)
    ensures p.Done? ==> p.ts.Size() < ts.Size()
    decreases ts.Size(), 1
  {
    if Next(ts, LP) then
      var (q, ts, xs) :- ParseQuery(ts.rest, xs);
      var (_, ts, xs) :- Expect(RP, ts, xs);
      Done(Sub(q), ts, xs)
    else
      var (t, ts, xs) :- ParseWord(ts, xs);
      Done(Table(t), ts, xs)
  }

  /** A clause that is there only if its keyword is. */
  function ParseClause(t: Token, ts: Tokens, xs: seq<Datum>): (p: Parsed<Option<Ast>>)
    ensures p.Done? ==> p.ts.Size() <= ts.Size()
    decreases ts.Size(), 1
  {
    if !Next(ts, t) then Done(None, ts, xs) else
    var (a, ts, xs) :- Parse(0, ts.rest, xs);
    Done(Some(a), ts, xs)
  }

  function ParseGroup(ts: Tokens, xs: seq<Datum>): (p: Parsed<Option<string>>)
    ensures p.Done? ==> p.ts.Size() <= ts.Size()
  {
    if !Next(ts, GROUPBY) then Done(None, ts, xs) else
    var (g, ts, xs) :- ParseWord(ts.rest, xs);
    Done(Some(g), ts, xs)
  }

  function ParseOrder(ts: Tokens, xs: seq<Datum>): (p: Parsed<seq<Key>>)
    ensures p.Done? ==> p.ts.Size() <= ts.Size()
  {
    if !Next(ts, ORDERBY) then Done([], ts, xs) else ParseKeys(ts.rest, xs)
  }

  function ParseQuery(ts: Tokens, xs: seq<Datum>): (p: Parsed<Query>)
    ensures p.Done? ==> p.ts.Size() < ts.Size() && Next(ts, SELECT)
    decreases ts.Size(), 0
  {
    var (_, ts, xs) :- Expect(SELECT, ts, xs);
    if Next(ts, DISTINCT) then ParseSelect(true, ts.rest, xs) else ParseSelect(false, ts, xs)
  }

  function ParseSelect(distinct: bool, ts: Tokens, xs: seq<Datum>): (p: Parsed<Query>)
    ensures p.Done? ==> p.ts.Size() < ts.Size()
    decreases ts.Size(), 13
  {
    var (items, ts, xs) :- ParseItems(ts, xs);
    var (_, ts, xs) :- Expect(FROM, ts, xs);
    var (from, ts, xs) :- ParseSource(ts, xs);
    ParseWhere(distinct, items, from, ts, xs)
  }

  function ParseWhere(distinct: bool, items: Items, from: Source, ts: Tokens, xs: seq<Datum>): (p: Parsed<Query>)
    ensures p.Done? ==> p.ts.Size() < ts.Size()
    decreases ts.Size(), 0
  {
    var (_, ts, xs) :- Expect(WHERE, ts, xs);
    var (where, ts, xs) :- Parse(0, ts, xs);
    var (group, ts, xs) :- ParseGroup(ts, xs);
    var (having, ts, xs) :- ParseClause(HAVING, ts, xs);
    var (order, ts, xs) :- ParseOrder(ts, xs);
    var (limit, ts, xs) :- ParseClause(LIMIT, ts, xs);
    Done(Query(distinct, items, from, where, group, having, order, limit), ts, xs)
  }
}
