/** Printing loses nothing: a well-formed tree in front of tokens that cannot continue it is read back as
    the same tree, and each of its placeholders is bound to its own argument. */
module SqlRoundTrip {
  import opened Basics
  import opened SqlSyntax

  /** How tightly the root of a tree binds, on the scale of Parse. */
  function Level(a: Ast): (k: nat)
    ensures k <= 4
  {
    match a
    case Or(_, _) => 0
    case And(_, _) => 1
    case Not(_) => 2
    case Compare(_, _, _) => 3
    case Calc(_, _, _) => 3
    case InList(_, _, _) => 3
    case InSelect(_, _) => 3
    case Between(_, _, _) => 3
    case _ => 4
  }

  /** No operand binds more loosely than its operator allows; AND and OR chains lean right. */
  predicate Wf(a: Ast)
    decreases a
  {
    match a
    case At(_, k) => Wf(k)
    case Call(_, args) => WfArgs(args)
    case Over(_, args, _) => args.Cons? && WfArgs(args)
    case Group(items) => items.Cons? && WfArgs(items)
    case List(items) => items.Cons? && WfArgs(items)
    case Compare(_, l, r) => Wf(l) && Wf(r) && Level(l) == Level(r) == 4
    case Calc(_, l, r) => Wf(l) && Wf(r) && Level(l) == Level(r) == 4
    case InList(_, x, items) => Wf(x) && Level(x) == 4 && items.Cons? && WfArgs(items)
    case InSelect(x, q) => Wf(x) && Level(x) == 4 && WfQuery(q)
    case Between(x, lo, hi) => Wf(x) && Wf(lo) && Wf(hi) && Level(x) == Level(lo) == Level(hi) == 4
    case Not(x) => Wf(x) && Level(x) >= 2
    case And(l, r) => Wf(l) && Wf(r) && Level(l) >= 2 && Level(r) >= 1
    case Or(l, r) => Wf(l) && Wf(r) && Level(l) >= 1
    case _ => true
  }

  predicate WfArgs(args: Args)
    decreases args
  {
    match args
    case Nil => true
    case Cons(a, rest) => Wf(a) && WfArgs(rest)
  }

  predicate WfItem(i: Item)
    decreases i
  {
    match i
    case Star => true
    case StarExcept(names) => names != []
    case Name(_) => true
    case Alias(a, _) => Wf(a)
  }

  predicate WfItems(items: Items)
    decreases items
  {
    match items
    case Last(i) => WfItem(i)
    case More(i, rest) => WfItem(i) && WfItems(rest)
  }

  predicate WfQuery(q: Query)
    decreases q
  {
    && WfItems(q.items)
    && (match q.from case Table(_) => true case Sub(inner) => WfQuery(inner))
    && Wf(q.where)
    && (match q.having case None => true case Some(h) => Wf(h))
    && (match q.limit case None => true case Some(l) => Wf(l))
  }

  /** The tokens do not continue an expression read at precedence k. */
  predicate Stops(k: nat, ts: Tokens) {
    && !Next(ts, LB) && !Next(ts, OVER)
    && (k <= 3 ==> ts == End || !(ts.first.CMP? || ts.first.SIGN? || ts.first in {IN, NOT, BETWEEN}))
    && (k <= 1 ==> !Next(ts, AND))
    && (k <= 0 ==> !Next(ts, OR))
  }

  predicate Opens(t: Token) {
    t.MARK? || t.NUM? || t.QUOTED? || t.WORD? || t.FN? || t.LP? || t.LB? || t.NOT?
  }

  /** A printed tree starts with a token that opens an expression, and not with NOT if it is an operand. */
  lemma {:induction false} PutOpens(a: Ast, ts: Tokens)
    ensures Put(a, ts).T? && Opens(Put(a, ts).first)
    ensures Wf(a) && Level(a) >= 3 ==> Put(a, ts).first != NOT
    decreases a
  {
    match a
    case Compare(op, l, r) => PutOpens(l, T(CMP(op), Put(r, ts)));
    case Calc(sign, l, r) => PutOpens(l, T(SIGN(sign), Put(r, ts)));
    case InList(neg, x, items) =>
      var inside := T(IN, T(LP, PutArgs(items, T(RP, ts))));
      PutOpens(x, if neg then T(NOT, inside) else inside);
    case InSelect(x, q) => PutOpens(x, T(IN, T(LP, PutQuery(q, T(RP, ts)))));
    case Between(x, lo, hi) => PutOpens(x, T(BETWEEN, Put(lo, T(AND, Put(hi, ts)))));
    case And(l, r) => PutOpens(l, T(AND, Put(r, ts)));
    case Or(l, r) => PutOpens(l, T(OR, Put(r, ts)));
    case _ =>
  }

  lemma PutArgsOpens(args: Args, ts: Tokens)
    requires args.Cons?
    ensures PutArgs(args, ts).T? && Opens(PutArgs(args, ts).first)
  {
    PutOpens(args.head, if args.tail == Nil then ts else T(COMMA, PutArgs(args.tail, ts)));
  }

  lemma {:induction false} ReadBack(k: nat, a: Ast, ts: Tokens, xs: seq<Datum>)
    requires Wf(a) && k <= Level(a) && Stops(k, ts)
    ensures Parse(k, Put(a, ts), Fill(a, xs)) == Done(a, ts, xs)
    decreases a, 9 - k
  {
    if k < Level(a) {
      ReadBack(k + 1, a, ts, xs);
      PutOpens(a, ts);
      Climb(k, a, Put(a, ts), Fill(a, xs), ts, xs);
    } else if k == 3 {
      ReadBackComparison(a, ts, xs);
    } else if k == 4 {
      ReadBackOperand(a, ts, xs);
    } else {
      match a
      case Or(l, r) =>
        ReadBack(1, l, T(OR, Put(r, ts)), Fill(r, xs));
        ReadBack(0, r, ts, xs);
        StepOr(l, r, Put(a, ts), Fill(a, xs), Put(r, ts), Fill(r, xs), ts, xs);
      case And(l, r) =>
        ReadBack(2, l, T(AND, Put(r, ts)), Fill(r, xs));
        ReadBack(1, r, ts, xs);
        StepAnd(l, r, Put(a, ts), Fill(a, xs), Put(r, ts), Fill(r, xs), ts, xs);
      case Not(x) =>
        ReadBack(2, x, ts, xs);
        StepNot(x, Put(x, ts), Fill(x, xs), ts, xs);
    }
  }

  lemma StepOr(l: Ast, r: Ast, t0: Tokens, x0: seq<Datum>, t1: Tokens, x1: seq<Datum>, ts: Tokens, xs: seq<Datum>)
    requires Parse(1, t0, x0) == Done(l, T(OR, t1), x1) && Parse(0, t1, x1) == Done(r, ts, xs)
    ensures Parse(0, t0, x0) == Done(Or(l, r), ts, xs)
  {
  }

  lemma StepAnd(l: Ast, r: Ast, t0: Tokens, x0: seq<Datum>, t1: Tokens, x1: seq<Datum>, ts: Tokens, xs: seq<Datum>)
    requires Parse(2, t0, x0) == Done(l, T(AND, t1), x1) && Parse(1, t1, x1) == Done(r, ts, xs)
    ensures Parse(1, t0, x0) == Done(And(l, r), ts, xs)
  {
  }

  lemma StepNot(x: Ast, t1: Tokens, x1: seq<Datum>, ts: Tokens, xs: seq<Datum>)
    requires Parse(2, t1, x1) == Done(x, ts, xs)
    ensures Parse(2, T(NOT, t1), x1) == Done(Not(x), ts, xs)
  {
  }

  /** An expression that stops where precedence k would stop is also one of precedence k. */
  lemma Climb(k: nat, a: Ast, t0: Tokens, x0: seq<Datum>, ts: Tokens, xs: seq<Datum>)
    requires k < 4 && Stops(k, ts) && (k == 2 ==> !Next(t0, NOT))
    requires Parse(k + 1, t0, x0) == Done(a, ts, xs)
    ensures Parse(k, t0, x0) == Done(a, ts, xs)
  {
  }

  lemma {:induction false} ReadBackComparison(a: Ast, ts: Tokens, xs: seq<Datum>)
    requires Wf(a) && Level(a) == 3 && Stops(3, ts)
    ensures Parse(3, Put(a, ts), Fill(a, xs)) == Done(a, ts, xs)
    decreases a, 1
  {
    match a
    case Compare(_, _, _) => ReadBackCompare(a, ts, xs);
    case Calc(_, _, _) => ReadBackCalc(a, ts, xs);
    case Between(_, _, _) => ReadBackBetween(a, ts, xs);
    case InList(_, _, _) => ReadBackInList(a, ts, xs);
    case InSelect(_, _) => ReadBackInSelect(a, ts, xs);
  }

  lemma {:induction false} ReadBackCompare(a: Ast, ts: Tokens, xs: seq<Datum>)
    requires Wf(a) && a.Compare? && Stops(3, ts)
    ensures Parse(3, Put(a, ts), Fill(a, xs)) == Done(a, ts, xs)
    decreases a, 0
  {
    ReadBack(4, a.l, T(CMP(a.op), Put(a.r, ts)), Fill(a.r, xs));
    ReadBack(4, a.r, ts, xs);
    CompareTail(a, Put(a.r, ts), Fill(a.r, xs), ts, xs);
    Tail(a.l, Put(a, ts), Fill(a, xs), T(CMP(a.op), Put(a.r, ts)), Fill(a.r, xs), a, ts, xs);
  }

  lemma {:induction false} ReadBackCalc(a: Ast, ts: Tokens, xs: seq<Datum>)
    requires Wf(a) && a.Calc? && Stops(3, ts)
    ensures Parse(3, Put(a, ts), Fill(a, xs)) == Done(a, ts, xs)
    decreases a, 0
  {
    ReadBack(4, a.l, T(SIGN(a.sign), Put(a.r, ts)), Fill(a.r, xs));
    ReadBack(4, a.r, ts, xs);
    CalcTail(a, Put(a.r, ts), Fill(a.r, xs), ts, xs);
    Tail(a.l, Put(a, ts), Fill(a, xs), T(SIGN(a.sign), Put(a.r, ts)), Fill(a.r, xs), a, ts, xs);
  }

  lemma {:induction false} ReadBackBetween(a: Ast, ts: Tokens, xs: seq<Datum>)
    requires Wf(a) && a.Between? && Stops(3, ts)
    ensures Parse(3, Put(a, ts), Fill(a, xs)) == Done(a, ts, xs)
    decreases a, 0
  {
    var t2, x2 := T(AND, Put(a.hi, ts)), Fill(a.hi, xs);
    var t1, x1 := Put(a.lo, t2), Fill(a.lo, x2);
    ReadBack(4, a.x, T(BETWEEN, t1), x1);
    ReadBack(4, a.lo, t2, x2);
    ReadBack(4, a.hi, ts, xs);
    BetweenTail(a, t1, x1, Put(a.hi, ts), x2, ts, xs);
    Tail(a.x, Put(a, ts), Fill(a, xs), T(BETWEEN, t1), x1, a, ts, xs);
  }

  lemma {:induction false} ReadBackInList(a: Ast, ts: Tokens, xs: seq<Datum>)
    requires Wf(a) && a.InList?
    ensures Parse(3, Put(a, ts), Fill(a, xs)) == Done(a, ts, xs)
    decreases a, 0
  {
    var t2, x2 := PutArgs(a.items, T(RP, ts)), FillArgs(a.items, xs);
    var t1 := T(IN, T(LP, t2));
    var t0 := if a.negated then T(NOT, t1) else t1;
    ReadBack(4, a.x, t0, x2);
    PutArgsOpens(a.items, T(RP, ts));
    ReadBackArgs(a.items, T(RP, ts), xs);
    InListTail(a, t2, x2, ts, xs);
    Tail(a.x, Put(a, ts), Fill(a, xs), t0, x2, a, ts, xs);
  }

  lemma {:induction false} ReadBackInSelect(a: Ast, ts: Tokens, xs: seq<Datum>)
    requires Wf(a) && a.InSelect?
    ensures Parse(3, Put(a, ts), Fill(a, xs)) == Done(a, ts, xs)
    decreases a, 0
  {
    var t2, x2 := PutQuery(a.q, T(RP, ts)), FillQuery(a.q, xs);
    ReadBack(4, a.x, T(IN, T(LP, t2)), x2);
    ReadBackQuery(a.q, T(RP, ts), xs);
    InSelectTail(a, t2, x2, ts, xs);
    Tail(a.x, Put(a, ts), Fill(a, xs), T(IN, T(LP, t2)), x2, a, ts, xs);
  }

  lemma CompareTail(a: Ast, t1: Tokens, x1: seq<Datum>, ts: Tokens, xs: seq<Datum>)
    requires a.Compare? && Parse(4, t1, x1) == Done(a.r, ts, xs)
    ensures ParseTail(a.l, T(CMP(a.op), t1), x1) == Done(a, ts, xs)
  {
  }

  lemma CalcTail(a: Ast, t1: Tokens, x1: seq<Datum>, ts: Tokens, xs: seq<Datum>)
    requires a.Calc? && Parse(4, t1, x1) == Done(a.r, ts, xs)
    ensures ParseTail(a.l, T(SIGN(a.sign), t1), x1) == Done(a, ts, xs)
  {
  }

  lemma BetweenTail(a: Ast, t1: Tokens, x1: seq<Datum>, t2: Tokens, x2: seq<Datum>, ts: Tokens, xs: seq<Datum>)
    requires a.Between? && Parse(4, t1, x1) == Done(a.lo, T(AND, t2), x2) && Parse(4, t2, x2) == Done(a.hi, ts, xs)
    ensures ParseTail(a.x, T(BETWEEN, t1), x1) == Done(a, ts, xs)
  {
  }

  lemma InListTail(a: Ast, t2: Tokens, x2: seq<Datum>, ts: Tokens, xs: seq<Datum>)
    requires a.InList? && !Next(t2, SELECT) && ParseArgs(t2, x2) == Done(a.items, T(RP, ts), xs)
    ensures var t1 := T(IN, T(LP, t2));
      ParseTail(a.x, if a.negated then T(NOT, t1) else t1, x2) == Done(a, ts, xs)
  {
  }

  lemma InSelectTail(a: Ast, t2: Tokens, x2: seq<Datum>, ts: Tokens, xs: seq<Datum>)
    requires a.InSelect? && ParseQuery(t2, x2) == Done(a.q, T(RP, ts), xs)
    ensures ParseTail(a.x, T(IN, T(LP, t2)), x2) == Done(a, ts, xs)
  {
  }

  /** A comparison is its left operand followed by what ParseTail makes of the rest. */
  lemma Tail(x: Ast, t0: Tokens, x0: seq<Datum>, t1: Tokens, x1: seq<Datum>, a: Ast, ts: Tokens, xs: seq<Datum>)
    requires Parse(4, t0, x0) == Done(x, t1, x1) && ParseTail(x, t1, x1) == Done(a, ts, xs)
    ensures Parse(3, t0, x0) == Done(a, ts, xs)
  {
  }

  lemma {:induction false} ReadBackOperand(a: Ast, ts: Tokens, xs: seq<Datum>)
    requires Wf(a) && Level(a) == 4 && Stops(4, ts)
    ensures Parse(4, Put(a, ts), Fill(a, xs)) == Done(a, ts, xs)
    decreases a, 2
  {
    match a
    case Hole(_) =>
    case Lit(_) =>
    case Text(_) =>
    case Col(_) =>
    case At(c, k) =>
      ReadBack(0, k, T(RB, ts), xs);
      StepAt(a, Put(k, T(RB, ts)), Fill(k, xs), ts, xs);
    case Call(f, args) => ReadBackCall(a, ts, xs);
    case Over(f, args, p) => ReadBackOver(a, ts, xs);
    case Group(items) =>
      ReadBackArgs(items, T(RP, ts), xs);
      StepGroup(a, PutArgs(items, T(RP, ts)), FillArgs(items, xs), ts, xs);
    case List(items) =>
      ReadBackArgs(items, T(RB, ts), xs);
      StepGroup(a, PutArgs(items, T(RB, ts)), FillArgs(items, xs), ts, xs);
  }

  lemma StepAt(a: Ast, t1: Tokens, x1: seq<Datum>, ts: Tokens, xs: seq<Datum>)
    requires a.At? && Parse(0, t1, x1) == Done(a.key, T(RB, ts), xs)
    ensures Parse(4, T(WORD(a.column), T(LB, t1)), x1) == Done(a, ts, xs)
  {
  }

  lemma StepGroup(a: Ast, t1: Tokens, x1: seq<Datum>, ts: Tokens, xs: seq<Datum>)
    requires a.Group? || a.List?
    requires ParseArgs(t1, x1) == Done(a.items, T(if a.Group? then RP else RB, ts), xs)
    ensures Parse(4, T(if a.Group? then LP else LB, t1), x1) == Done(a, ts, xs)
  {
  }

  lemma {:induction false} ReadBackCall(a: Ast, ts: Tokens, xs: seq<Datum>)
    requires Wf(a) && a.Call? && Stops(4, ts)
    ensures Parse(4, Put(a, ts), Fill(a, xs)) == Done(a, ts, xs)
    decreases a, 1
  {
    if a.args.Cons? {
      var t1 := PutArgs(a.args, T(RP, ts));
      PutArgsOpens(a.args, T(RP, ts));
      ReadBackArgs(a.args, T(RP, ts), xs);
      StepCall(a.fn, a.args, t1, FillArgs(a.args, xs), ts, xs);
    } else {
      StepFn(a.fn, T(LP, T(RP, ts)), xs);
      assert Put(a, ts) == T(FN(a.fn), T(LP, T(RP, ts)));
    }
  }

  lemma StepFn(f: Fn, t1: Tokens, x1: seq<Datum>)
    ensures Parse(4, T(FN(f), t1), x1) == ParseCall(f, t1, x1)
  {
  }

  lemma {:induction false} ReadBackOver(a: Ast, ts: Tokens, xs: seq<Datum>)
    requires Wf(a) && a.Over?
    ensures Parse(4, Put(a, ts), Fill(a, xs)) == Done(a, ts, xs)
    decreases a, 1
  {
    var t1 := PutOver(a.partition, ts);
    PutArgsOpens(a.args, T(RP, t1));
    ReadBackArgs(a.args, T(RP, t1), xs);
    StepCall(a.fn, a.args, PutArgs(a.args, T(RP, t1)), FillArgs(a.args, xs), t1, xs);
    ReadBackWindow(a.fn, a.args, a.partition, ts, xs);
  }

  lemma StepCall(f: Fn, args: Args, t1: Tokens, x1: seq<Datum>, ts: Tokens, xs: seq<Datum>)
    requires !Next(t1, RP) && ParseArgs(t1, x1) == Done(args, T(RP, ts), xs)
    ensures Parse(4, T(FN(f), T(LP, t1)), x1) == ParseWindow(f, args, ts, xs)
  {
    StepFn(f, T(LP, t1), x1);
  }

  lemma ReadBackWindow(f: Fn, args: Args, p: string, ts: Tokens, xs: seq<Datum>)
    ensures ParseWindow(f, args, PutOver(p, ts), xs) == Done(Over(f, args, p), ts, xs)
  {
    assert ParsePartition(PutOver(p, ts).rest, xs) == Done(p, ts, xs);
  }

  lemma {:induction false} ReadBackArgs(args: Args, ts: Tokens, xs: seq<Datum>)
    requires args.Cons? && WfArgs(args) && ts.T? && ts.first in {RP, RB}
    ensures ParseArgs(PutArgs(args, ts), FillArgs(args, xs)) == Done(args, ts, xs)
    decreases args
  {
    if args.tail == Nil {
      ReadBack(0, args.head, ts, xs);
    } else {
      ReadBack(0, args.head, T(COMMA, PutArgs(args.tail, ts)), FillArgs(args.tail, xs));
      ReadBackArgs(args.tail, ts, xs);
    }
  }

  lemma {:induction false} ReadBackNames(names: seq<string>, ts: Tokens, xs: seq<Datum>)
    requires names != [] && !Next(ts, COMMA)
    ensures ParseNames(PutNames(names, ts), xs) == Done(names, ts, xs)
  {
    if |names| > 1 {
      ReadBackNames(names[1..], ts, xs);
      assert [names[0]] + names[1..] == names;
    } else {
      assert names == [names[0]];
    }
  }

  lemma {:induction false} ReadBackItem(i: Item, ts: Tokens, xs: seq<Datum>)
    requires WfItem(i) && ts.T? && ts.first in {COMMA, FROM}
    ensures ParseItem(PutItem(i, ts), FillItems(Last(i), xs)) == Done(i, ts, xs)
    decreases i, 1
  {
    match i
    case Star =>
    case StarExcept(names) => ReadBackExcept(names, ts, xs);
    case Name(n) =>
      ReadBackName(n, ts, xs);
      StepItem(Col(n), i, T(WORD(n), ts), xs, ts, ts, xs);
    case Alias(a, alias) => ReadBackAlias(i, ts, xs);
  }

  lemma ReadBackExcept(names: seq<string>, ts: Tokens, xs: seq<Datum>)
    requires names != []
    ensures ParseItem(PutItem(StarExcept(names), ts), xs) == Done(StarExcept(names), ts, xs)
  {
    ReadBackNames(names, T(RP, ts), xs);
    assert ParseExcept(T(LP, PutNames(names, T(RP, ts))), xs) == Done(names, ts, xs);
  }

  lemma {:induction false} ReadBackAlias(i: Item, ts: Tokens, xs: seq<Datum>)
    requires WfItem(i) && i.Alias?
    ensures ParseItem(PutItem(i, ts), FillItems(Last(i), xs)) == Done(i, ts, xs)
    decreases i, 0
  {
    var t1 := T(AS, T(WORD(i.alias), ts));
    PutOpens(i.a, t1);
    ReadBack(0, i.a, t1, xs);
    StepItem(i.a, i, Put(i.a, t1), Fill(i.a, xs), t1, ts, xs);
  }

  lemma StepItem(a: Ast, i: Item, t0: Tokens, x0: seq<Datum>, t1: Tokens, ts: Tokens, xs: seq<Datum>)
    requires Parse(0, t0, x0) == Done(a, t1, xs) && !Next(t0, STAR)
    requires (i.Alias? && i.a == a && t1 == T(AS, T(WORD(i.alias), ts)))
          || (i.Name? && a == Col(i.name) && t1 == ts && !Next(t1, AS))
    ensures ParseItem(t0, x0) == Done(i, ts, xs)
  {
  }

  lemma ReadBackName(n: string, ts: Tokens, xs: seq<Datum>)
    requires ts.T? && ts.first in {COMMA, FROM}
    ensures Parse(0, T(WORD(n), ts), xs) == Done(Col(n), ts, xs)
  {
    assert Parse(4, T(WORD(n), ts), xs) == Done(Col(n), ts, xs);
    Climb(3, Col(n), T(WORD(n), ts), xs, ts, xs);
    Climb(2, Col(n), T(WORD(n), ts), xs, ts, xs);
    Climb(1, Col(n), T(WORD(n), ts), xs, ts, xs);
  }

  lemma {:induction false} ReadBackItems(items: Items, ts: Tokens, xs: seq<Datum>)
    requires WfItems(items) && Next(ts, FROM)
    ensures ParseItems(PutItems(items, ts), FillItems(items, xs)) == Done(items, ts, xs)
    decreases items
  {
    match items
    case Last(i) => ReadBackItem(i, ts, xs);
    case More(i, rest) =>
      ReadBackItem(i, T(COMMA, PutItems(rest, ts)), FillItems(rest, xs));
      ReadBackItems(rest, ts, xs);
  }

  lemma {:induction false} ReadBackKeys(keys: seq<Key>, ts: Tokens, xs: seq<Datum>)
    requires keys != [] && !Next(ts, COMMA)
    ensures ParseKeys(PutKeys(keys, ts), xs) == Done(keys, ts, xs)
  {
    if |keys| > 1 {
      ReadBackKeys(keys[1..], ts, xs);
      assert [keys[0]] + keys[1..] == keys;
    } else {
      assert keys == [keys[0]];
    }
  }

  lemma {:induction false} ReadBackClause(t: Token, a: Option<Ast>, ts: Tokens, xs: seq<Datum>)
    requires a.Some? ==> Wf(a.value) && Stops(0, ts)
    requires a.None? ==> !Next(ts, t)
    ensures ParseClause(t, PutClause(t, a, ts), FillOption(a, xs)) == Done(a, ts, xs)
    decreases a
  {
    if a.Some? { ReadBack(0, a.value, ts, xs); }
  }

  /** What may follow a whole statement. */
  predicate Ends(ts: Tokens) {
    ts == End || ts.first == RP
  }

  lemma {:induction false} ReadBackQuery(q: Query, ts: Tokens, xs: seq<Datum>)
    requires WfQuery(q) && Ends(ts)
    ensures ParseQuery(PutQuery(q, ts), FillQuery(q, xs)) == Done(q, ts, xs)
    decreases q, 2
  {
    var t2, x2 := T(WHERE, Put(q.where, PutEnd(q, ts))), Fill(q.where, FillOption(q.having, FillOption(q.limit, xs)));
    var t1, x1 := PutSource(q.from, t2), FillSource(q.from, x2);
    var t0, x0 := PutItems(q.items, T(FROM, t1)), FillItems(q.items, x1);
    ReadBackItems(q.items, T(FROM, t1), x1);
    ReadBackFrom(q.from, t2, x2);
    ReadBackWhere(q, ts, xs);
    PutItemsHead(q.items, T(FROM, t1));
    StepSelect(q, t0, x0, t1, x1, t2, x2, ts, xs);
  }

  lemma {:induction false} ReadBackWhere(q: Query, ts: Tokens, xs: seq<Datum>)
    requires WfQuery(q) && Ends(ts)
    ensures ParseWhere(q.distinct, q.items, q.from, T(WHERE, Put(q.where, PutEnd(q, ts))),
                       Fill(q.where, FillOption(q.having, FillOption(q.limit, xs)))) == Done(q, ts, xs)
    decreases q, 1
  {
    var t5 := PutClause(LIMIT, q.limit, ts);
    var t4 := PutOrder(q.order, t5);
    var t3 := PutClause(HAVING, q.having, t4);
    var x4 := FillOption(q.limit, xs);
    var x3 := FillOption(q.having, x4);
    EndStops(q, ts);
    ReadBackClause(LIMIT, q.limit, ts, xs);
    ReadBackOrder(q.order, t5, x4);
    ReadBackClause(HAVING, q.having, t4, x4);
    ReadBack(0, q.where, PutEnd(q, ts), x3);
    ReadBackGroup(q.group, t3, x3);
    StepWhere(q, Put(q.where, PutEnd(q, ts)), Fill(q.where, x3), PutEnd(q, ts), x3, t3, t4, x4, t5, ts, xs);
  }

  /** Nothing after WHERE continues an expression, and each clause is told from the next by its keyword. */
  lemma EndStops(q: Query, ts: Tokens)
    requires Ends(ts)
    ensures var t5 := PutClause(LIMIT, q.limit, ts);
      var t4 := PutOrder(q.order, t5);
      var t3 := PutClause(HAVING, q.having, t4);
      && Stops(0, ts) && !Next(ts, LIMIT)
      && !Next(t5, COMMA) && !Next(t5, ORDERBY)
      && Stops(0, t4) && !Next(t4, HAVING)
      && !Next(t3, GROUPBY) && Stops(0, PutEnd(q, ts))
  {
  }

  lemma ReadBackOrder(keys: seq<Key>, ts: Tokens, xs: seq<Datum>)
    requires !Next(ts, COMMA) && !Next(ts, ORDERBY)
    ensures ParseOrder(PutOrder(keys, ts), xs) == Done(keys, ts, xs)
  {
    if keys != [] { ReadBackKeys(keys, ts, xs); }
  }

  lemma ReadBackGroup(g: Option<string>, ts: Tokens, xs: seq<Datum>)
    requires !Next(ts, GROUPBY)
    ensures ParseGroup(match g case None => ts case Some(w) => T(GROUPBY, T(WORD(w), ts)), xs) == Done(g, ts, xs)
  {
  }

  lemma StepWhere(q: Query, t1: Tokens, x2: seq<Datum>, t2: Tokens, x3: seq<Datum>, t3: Tokens, t4: Tokens,
                  x4: seq<Datum>, t5: Tokens, ts: Tokens, xs: seq<Datum>)
    requires Parse(0, t1, x2) == Done(q.where, t2, x3)
    requires ParseGroup(t2, x3) == Done(q.group, t3, x3)
    requires ParseClause(HAVING, t3, x3) == Done(q.having, t4, x4)
    requires ParseOrder(t4, x4) == Done(q.order, t5, x4)
    requires ParseClause(LIMIT, t5, x4) == Done(q.limit, ts, xs)
    ensures ParseWhere(q.distinct, q.items, q.from, T(WHERE, t1), x2) == Done(q, ts, xs)
  {
  }

  lemma StepSelect(q: Query, t0: Tokens, x0: seq<Datum>, t1: Tokens, x1: seq<Datum>, t2: Tokens, x2: seq<Datum>,
                   ts: Tokens, xs: seq<Datum>)
    requires ParseItems(t0, x0) == Done(q.items, T(FROM, t1), x1)
    requires ParseSource(t1, x1) == Done(q.from, t2, x2)
    requires ParseWhere(q.distinct, q.items, q.from, t2, x2) == Done(q, ts, xs)
    requires !Next(t0, DISTINCT)
    ensures ParseQuery(T(SELECT, if q.distinct then T(DISTINCT, t0) else t0), x0) == Done(q, ts, xs)
  {
    assert ParseSelect(q.distinct, t0, x0) == Done(q, ts, xs);
  }

  lemma {:induction false} ReadBackFrom(from: Source, ts: Tokens, xs: seq<Datum>)
    requires from.Sub? ==> WfQuery(from.q)
    ensures ParseSource(PutSource(from, ts), FillSource(from, xs)) == Done(from, ts, xs)
    decreases from
  {
    match from
    case Table(_) =>
    case Sub(inner) => ReadBackQuery(inner, T(RP, ts), xs);
  }

  lemma {:induction false} PutItemsHead(items: Items, ts: Tokens)
    ensures PutItems(items, ts).T? && PutItems(items, ts).first != DISTINCT
  {
    var i, t := items.item, if items.Last? then ts else T(COMMA, PutItems(items.rest, ts));
    if i.Alias? { PutOpens(i.a, T(AS, T(WORD(i.alias), t))); }
  }
}
