/** What the database computes for a syntax tree: three-valued logic, aggregates over a group, window
    aggregates over a partition, and whole statements over stored tables. */
module SqlSemantics {
  import opened Basics
  import opened Order
  import opened SqlSyntax

  /** The database's conversions of a stored string. */
  datatype Conv = Conv(
    toBool: string -> Option<bool>, toNum: string -> Option<real>, toArr: string -> seq<string>)

  type Row = map<string, Datum>

  type Db = map<string, seq<Row>>

  /** Where an expression is evaluated: the current row, and the rows of its group. */
  datatype Ctx = Ctx(conv: Conv, db: Db, row: Row, group: seq<Row>)

  // ---- logic -----------------------------------------------------------------------------------

  predicate Logical(d: Datum) {
    d.Bool? || d.Num? || d.Null?
  }

  predicate IsTrue(d: Datum) {
    d == Bool(true) || (d.Num? && d.n != 0.0)
  }

  predicate IsFalse(d: Datum) {
    d == Bool(false) || d == Num(0.0)
  }

  function AndDatum(l: Datum, r: Datum): Datum {
    if !Logical(l) || !Logical(r) then Bad
    else if IsFalse(l) || IsFalse(r) then Bool(false)
    else if l.Null? || r.Null? then Null
    else Bool(true)
  }

  function OrDatum(l: Datum, r: Datum): Datum {
    if !Logical(l) || !Logical(r) then Bad
    else if IsTrue(l) || IsTrue(r) then Bool(true)
    else if l.Null? || r.Null? then Null
    else Bool(false)
  }

  function NotDatum(d: Datum): Datum {
    if !Logical(d) then Bad else if d.Null? then Null else Bool(!IsTrue(d))
  }

  // ---- comparison ------------------------------------------------------------------------------

  predicate SameKind(l: Datum, r: Datum) {
    (l.Num? && r.Num?) || (l.Str? && r.Str?)
  }

  predicate Comparable(l: Datum, r: Datum) {
    SameKind(l, r) || (l.Pair? && r.Pair? && SameKind(l.fst, r.fst) && SameKind(l.snd, r.snd))
  }

  predicate ScalarLess(l: Datum, r: Datum)
    requires SameKind(l, r)
  {
    if l.Num? then l.n < r.n else StrLess(l.s, r.s)
  }

  /** Pairs are compared like tuples: by the first component, then by the second. */
  predicate Less(l: Datum, r: Datum)
    requires Comparable(l, r)
  {
    if l.Pair? then ScalarLess(l.fst, r.fst) || (l.fst == r.fst && ScalarLess(l.snd, r.snd))
    else ScalarLess(l, r)
  }

  function CompareDatum(op: Cmp, l: Datum, r: Datum): Datum {
    if l == Bad || r == Bad then Bad
    else if l.Null? || r.Null? then Null
    else if op.Eq? || op.Ne? then
      if Comparable(l, r) || (l.Bool? && r.Bool?) then Bool((l == r) == op.Eq?) else Bad
    else if !Comparable(l, r) then Bad
    else
      Bool(match op
           case Gt => Less(r, l)
           case Ge => !Less(l, r)
           case Lt => Less(l, r)
           case Le => !Less(r, l))
  }

  function CalcDatum(sign: Sign, l: Datum, r: Datum): Datum {
    if !(l.Num? || l.Null?) || !(r.Num? || r.Null?) then Bad
    else if l.Null? || r.Null? then Null
    else if sign.Minus? then Num(l.n - r.n)
    else if r.n == 0.0 then Bad
    else Num(l.n / r.n)
  }

  function InDatum(x: Datum, ds: seq<Datum>): Datum {
    if ds == [] then (if x == Bad then Bad else Bool(false))
    else OrDatum(CompareDatum(Eq, x, ds[0]), InDatum(x, ds[1..]))
  }

  function Strings(ds: seq<Datum>): Option<seq<string>> {
    if ds == [] then Some([])
    else
      match Strings(ds[1..])
      case None => None
      case Some(rest) => if ds[0].Str? then Some([ds[0].s] + rest) else None
  }

  // ---- functions -------------------------------------------------------------------------------

  function Apply(fn: Fn, ds: seq<Datum>, conv: Conv): Datum {
    if fn.ToUnixNano? && |ds| == 1 then (if ds[0].Num? then ds[0] else Bad)
    else if fn.ToBoolOrNull? && |ds| == 1 && ds[0].Str? then
      (match conv.toBool(ds[0].s) case None => Null case Some(b) => Bool(b))
    else if fn.ToFloat64OrNull? && |ds| == 1 && ds[0].Str? then
      (match conv.toNum(ds[0].s) case None => Null case Some(n) => Num(n))
    else if fn.JSONExtract? && |ds| == 2 && ds[0].Str? && ds[1] == Str("Array(String)") then
      Arr(conv.toArr(ds[0].s))
    else if fn.MapContains? && |ds| == 2 && ds[0].Dict? && ds[1].Str? then Bool(ds[1].s in ds[0].entries)
    else if fn.StartsWith? && |ds| == 2 && ds[0].Str? && ds[1].Str? then Bool(ds[1].s <= ds[0].s)
    else if fn.Has? && |ds| == 2 && ds[0].Arr? && ds[1].Str? then Bool(ds[1].s in ds[0].elems)
    else if fn.HasAny? && |ds| == 2 && ds[0].Arr? && ds[1].Arr? then
      Bool(exists x :: x in ds[1].elems && x in ds[0].elems)
    else if fn.HasAll? && |ds| == 2 && ds[0].Arr? && ds[1].Arr? then
      Bool(forall x :: x in ds[1].elems ==> x in ds[0].elems)
    else Bad
  }

  /** A NULL is skipped; the sum of nothing but NULLs is NULL. */
  function SumOf(ds: seq<Datum>): Datum {
    if ds == [] then Null
    else
      var rest := SumOf(ds[1..]);
      var d := if ds[0].Bool? then Num(if ds[0].b then 1.0 else 0.0) else ds[0];
      if !Logical(d) || rest == Bad then Bad
      else if d.Null? then rest
      else if rest.Num? then Num(d.n + rest.n)
      else d
  }

  function MinOf(ds: seq<Datum>): Datum {
    if ds == [] || !ds[0].Num? then Bad
    else if |ds| == 1 then ds[0]
    else
      var rest := MinOf(ds[1..]);
      if !rest.Num? then Bad else if rest.n < ds[0].n then rest else ds[0]
  }

  function MaxOf(ds: seq<Datum>): Datum {
    if ds == [] || !ds[0].Num? then Bad
    else if |ds| == 1 then ds[0]
    else
      var rest := MaxOf(ds[1..]);
      if !rest.Num? then Bad else if rest.n > ds[0].n then rest else ds[0]
  }

  /** The value that goes with the least of some keys; of equal keys, with the first. */
  function ArgMinOf(ds: seq<Datum>, keys: seq<Datum>): Datum
    requires |ds| == |keys|
  {
    if ds == [] || !keys[0].Num? then Bad
    else if |ds| == 1 then ds[0]
    else
      var rest := MinOf(keys[1..]);
      if !rest.Num? then Bad else if rest.n < keys[0].n then ArgMinOf(ds[1..], keys[1..]) else ds[0]
  }

  function CountOf(ds: seq<Datum>): nat {
    if ds == [] then 0 else (if IsTrue(ds[0]) then 1 else 0) + CountOf(ds[1..])
  }

  predicate IsAggregate(fn: Fn) {
    fn.CountIf? || fn.Sum? || fn.Min? || fn.Max? || fn.Count?
  }

  function Aggregate(fn: Fn, ds: seq<Datum>): Datum {
    match fn
    case CountIf => if forall d :: d in ds ==> Logical(d) then Num(CountOf(ds) as real) else Bad
    case Sum => SumOf(ds)
    case Min => MinOf(ds)
    case Max => MaxOf(ds)
    case _ => Bad
  }

  // ---- expressions -----------------------------------------------------------------------------

  ghost function Eval(a: Ast, c: Ctx): Datum
    decreases a, 0, 0
  {
    match a
    case Hole(v) => v
    case Lit(n) => Num(n as real)
    case Text(s) => Str(s)
    case Col(n) => if n in c.row then c.row[n] else Bad
    case At(m, k) =>
      var key := Eval(k, c);
      if m in c.row && c.row[m].Dict? && key.Str?
      then Str(if key.s in c.row[m].entries then c.row[m].entries[key.s] else "")
      else Bad
    case Call(fn, args) =>
      if fn.Count? && args.Nil? then Num(|c.group| as real)
      else if IsAggregate(fn) then
        (if args.Cons? && args.tail.Nil? then Aggregate(fn, Values(args.head, c, c.group)) else Bad)
      else if fn.ArgMin? then
        (if args.Cons? && args.tail.Cons? && args.tail.tail.Nil?
         then ArgMinOf(Values(args.head, c, c.group), Values(args.tail.head, c, c.group)) else Bad)
      else Apply(fn, EvalArgs(args, c), c.conv)
    case Over(fn, args, p) =>
      if args.Cons? && args.tail.Nil? && p in c.row
      then Aggregate(fn, Values(args.head, c, Partition(p, c.row[p], c.group)))
      else Bad
    case Group(items) =>
      var ds := EvalArgs(items, c);
      if |ds| == 1 then ds[0] else if |ds| == 2 then Pair(ds[0], ds[1]) else Bad
    case List(items) => (match Strings(EvalArgs(items, c)) case None => Bad case Some(ss) => Arr(ss))
    case Compare(op, l, r) => CompareDatum(op, Eval(l, c), Eval(r, c))
    case Calc(sign, l, r) => CalcDatum(sign, Eval(l, c), Eval(r, c))
    case InList(neg, x, items) =>
      var d := InDatum(Eval(x, c), EvalArgs(items, c));
      if neg then NotDatum(d) else d
    case InSelect(x, q) =>
      var d := Eval(x, c);
      (match (Run(q, c.conv, c.db), q.items)
       case (Some(rows), Last(Name(n))) =>
         if d == Bad then Bad else Bool(exists r :: r in rows && n in r && r[n] == d)
       case _ => Bad)
    case Between(x, lo, hi) =>
      AndDatum(CompareDatum(Ge, Eval(x, c), Eval(lo, c)), CompareDatum(Le, Eval(x, c), Eval(hi, c)))
    case Not(x) => NotDatum(Eval(x, c))
    case And(l, r) => AndDatum(Eval(l, c), Eval(r, c))
    case Or(l, r) => OrDatum(Eval(l, c), Eval(r, c))
  }

  ghost function EvalArgs(args: Args, c: Ctx): (ds: seq<Datum>)
    decreases args, 0, 0
  {
    match args
    case Nil => []
    case Cons(a, rest) => [Eval(a, c)] + EvalArgs(rest, c)
  }

  /** The value of an expression on each of some rows. */
  ghost function Values(a: Ast, c: Ctx, rows: seq<Row>): (ds: seq<Datum>)
    ensures |ds| == |rows|
    ensures forall i :: 0 <= i < |rows| ==> ds[i] == Eval(a, c.(row := rows[i]))
    decreases a, 1, |rows|
  {
    if rows == [] then []
    else [Eval(a, c.(row := rows[0]))] + Values(a, c, rows[1..])
  }

  /** The rows that agree with a value in one column. */
  function Partition(column: string, v: Datum, rows: seq<Row>): seq<Row> {
    if rows == [] then []
    else
      var rest := Partition(column, v, rows[1..]);
      if column in rows[0] && rows[0][column] == v then [rows[0]] + rest else rest
  }

  // ---- statements ------------------------------------------------------------------------------

  /** One output row, and the row its ORDER BY keys are looked up in. */
  datatype Entry = Entry(out: Row, scope: Row)

  /** The rows on which a condition is TRUE; None if it raises an error on any of them. */
  ghost function Keep(a: Ast, c: Ctx, rows: seq<Row>): Option<seq<Row>>
    decreases a, 1, |rows|
  {
    if rows == [] then Some([])
    else
      var d := Eval(a, c.(row := rows[0]));
      match Keep(a, c, rows[1..])
      case None => None
      case Some(rest) => if !Logical(d) then None else if IsTrue(d) then Some([rows[0]] + rest) else Some(rest)
  }

  ghost function Project(items: Items, c: Ctx): Option<Row>
    decreases items, 0, 0
  {
    match items
    case Last(i) => ProjectItem(i, c)
    case More(i, rest) =>
      (match (ProjectItem(i, c), Project(rest, c))
       case (Some(r), Some(s)) => Some(r + s)
       case _ => None)
  }

  ghost function ProjectItem(i: Item, c: Ctx): Option<Row>
    decreases i, 0, 0
  {
    match i
    case Star => Some(c.row)
    case StarExcept(names) => Some(c.row - (set n | n in names))
    case Name(n) => if n in c.row then Some(map[n := c.row[n]]) else None
    case Alias(a, alias) => var d := Eval(a, c); if d == Bad then None else Some(map[alias := d])
  }

  /** One entry per row. */
  ghost function PlainEntries(items: Items, c: Ctx, rows: seq<Row>): Option<seq<Entry>>
    decreases items, 1, |rows|
  {
    if rows == [] then Some([])
    else
      match (Project(items, c.(row := rows[0])), PlainEntries(items, c, rows[1..]))
      case (Some(out), Some(rest)) => Some([Entry(out, rows[0] + out)] + rest)
      case _ => None
  }

  /** The different values of some data, in order of first occurrence from the end. */
  function Distinct<D(==)>(ds: seq<D>): seq<D> {
    if ds == [] then []
    else if ds[0] in ds[1..] then Distinct(ds[1..])
    else [ds[0]] + Distinct(ds[1..])
  }

  function KeyColumn(items: Items, g: string): Option<string> {
    match items
    case Last(Alias(Col(n), alias)) => if alias == g then Some(n) else None
    case Last(_) => None
    case More(Alias(Col(n), alias), rest) => if alias == g then Some(n) else KeyColumn(rest, g)
    case More(_, rest) => KeyColumn(rest, g)
  }

  function ColumnOf(n: string, rows: seq<Row>): seq<Datum> {
    if rows == [] then [] else [if n in rows[0] then rows[0][n] else Bad] + ColumnOf(n, rows[1..])
  }

  /** One entry per group that passes HAVING. */
  ghost function GroupEntries(q: Query, column: string, keys: seq<Datum>, c: Ctx, rows: seq<Row>): Option<seq<Entry>>
    decreases q, 0, |keys|
  {
    if keys == [] then Some([])
    else
      match GroupEntries(q, column, keys[1..], c, rows)
      case None => None
      case Some(rest) =>
        var group := Partition(column, keys[0], rows);
        if group == [] then None
        else
          var g := c.(row := group[0], group := group);
          match Project(q.items, g)
          case None => None
          case Some(out) =>
            var e := Entry(out, group[0] + out);
            match q.having
            case None => Some([e] + rest)
            case Some(h) =>
              var d := Eval(h, g.(row := e.scope));
              if !Logical(d) then None else if IsTrue(d) then Some([e] + rest) else Some(rest)
  }

  /** The first entry has to come before the second. */
  predicate Before(keys: seq<Key>, a: Row, b: Row) {
    if keys == [] then true
    else
      var n := keys[0].column;
      if n !in a || n !in b || !Comparable(a[n], b[n]) then Before(keys[1..], a, b)
      else if a[n] == b[n] then Before(keys[1..], a, b)
      else if keys[0].descending then Less(b[n], a[n]) else Less(a[n], b[n])
  }

  function Insert(keys: seq<Key>, e: Entry, es: seq<Entry>): seq<Entry> {
    if es == [] || Before(keys, e.scope, es[0].scope) then [e] + es
    else [es[0]] + Insert(keys, e, es[1..])
  }

  function Sort(keys: seq<Key>, es: seq<Entry>): seq<Entry> {
    if es == [] then [] else Insert(keys, es[0], Sort(keys, es[1..]))
  }

  function Outs(es: seq<Entry>): (rows: seq<Row>)
    ensures |rows| == |es|
    ensures forall i :: 0 <= i < |es| ==> rows[i] == es[i].out
  {
    if es == [] then [] else [es[0].out] + Outs(es[1..])
  }

  function Take<D>(n: nat, s: seq<D>): seq<D> {
    if n < |s| then s[..n] else s
  }

  ghost function Rows(from: Source, conv: Conv, db: Db): Option<seq<Row>>
    decreases from, 0, 0
  {
    match from
    case Table(t) => if t in db then Some(db[t]) else None
    case Sub(q) => Run(q, conv, db)
  }

  /** The result of a statement, or None if it fails. */
  ghost function Run(q: Query, conv: Conv, db: Db): Option<seq<Row>>
    decreases q, 2, 0
  {
    match Rows(q.from, conv, db)
    case None => None
    case Some(rows) =>
      match Keep(q.where, Ctx(conv, db, map[], []), rows)
      case None => None
      case Some(kept) => Finish(q, conv, db, kept)
  }

  /** What happens after WHERE. */
  ghost function Finish(q: Query, conv: Conv, db: Db, kept: seq<Row>): Option<seq<Row>>
    decreases q, 1, 0
  {
    var c := Ctx(conv, db, map[], kept);
    var entries :=
      match q.group
      case None => PlainEntries(q.items, c, kept)
      case Some(g) =>
        (match KeyColumn(q.items, g)
         case None => None
         case Some(n) => GroupEntries(q, n, Distinct(ColumnOf(n, kept)), c, kept));
    match entries
    case None => None
    case Some(es) =>
      var rows := Outs(Sort(q.order, es));
      var all := if q.distinct then Distinct(rows) else rows;
      match q.limit
      case None => Some(all)
      case Some(l) =>
        var n := Eval(l, c);
        if n.Num? && n.n >= 0.0 then Some(Take(n.n.Floor, all)) else None
  }
}
