/** What the clauses of a statement do to a sequence of rows, stated without reference to how a database
    computes it. */
module SqlRows {
  import opened Basics
  import opened Order
  import opened SqlSyntax
  import opened SqlSemantics

  // ---- WHERE -----------------------------------------------------------------------------------------

  /** The elements that satisfy a predicate, in order. */
  function Select<D>(p: D -> bool, s: seq<D>): seq<D> {
    if s == [] then [] else (if p(s[0]) then [s[0]] else []) + Select(p, s[1..])
  }

  lemma {:induction false} SelectIs<D>(p: D -> bool, s: seq<D>)
    ensures forall x :: x in Select(p, s) <==> x in s && p(x)
    ensures |Select(p, s)| <= |s|
  {
    if s != [] {
      SelectIs(p, s[1..]);
      assert s == [s[0]] + s[1..];
    }
  }

  lemma {:induction false} SelectNone<D>(p: D -> bool, s: seq<D>)
    requires forall x :: x in s ==> !p(x)
    ensures Select(p, s) == []
  {
    if s != [] {
      assert s[0] in s;
      SelectNone(p, s[1..]);
    }
  }

  lemma {:induction false} SelectAgrees<D>(p: D -> bool, q: D -> bool, s: seq<D>)
    requires forall x :: x in s ==> p(x) == q(x)
    ensures Select(p, s) == Select(q, s)
  {
    if s != [] {
      assert s[0] in s;
      SelectAgrees(p, q, s[1..]);
    }
  }

  lemma {:induction false} SelectTwice<D>(p: D -> bool, q: D -> bool, both: D -> bool, s: seq<D>)
    requires forall x :: x in s ==> both(x) == (q(x) && p(x))
    ensures Select(p, Select(q, s)) == Select(both, s)
  {
    if s != [] {
      assert s[0] in s;
      SelectTwice(p, q, both, s[1..]);
      var rest := Select(q, s[1..]);
      if q(s[0]) {
        assert Select(q, s)[0] == s[0] && Select(q, s)[1..] == rest;
      } else {
        assert Select(q, s) == rest;
      }
    }
  }

  /** The rows a condition is TRUE on are kept, as long as it raises no error on any row. */
  lemma {:induction false} KeepIs(a: Ast, c: Ctx, rows: seq<Row>, p: Row -> bool)
    requires forall r :: r in rows ==> Logical(Eval(a, c.(row := r))) && (IsTrue(Eval(a, c.(row := r))) <==> p(r))
    ensures Keep(a, c, rows) == Some(Select(p, rows))
  {
    hide Eval;
    if rows != [] {
      assert rows[0] in rows;
      KeepIs(a, c, rows[1..], p);
      assert [] + Select(p, rows[1..]) == Select(p, rows[1..]);
    }
  }

  // ---- SELECT -------------------------------------------------------------------------------------------

  lemma {:induction false} PlainEntriesAre(items: Items, c: Ctx, rows: seq<Row>, out: Row -> Row)
    requires forall r :: r in rows ==> Project(items, c.(row := r)) == Some(out(r))
    ensures var es := PlainEntries(items, c, rows);
      && es.Some? && |es.value| == |rows|
      && forall i :: 0 <= i < |rows| ==> es.value[i] == Entry(out(rows[i]), rows[i] + out(rows[i]))
  {
    hide Project;
    if rows != [] {
      assert rows[0] in rows;
      PlainEntriesAre(items, c, rows[1..], out);
      var es := PlainEntries(items, c, rows).value;
      var rest := PlainEntries(items, c, rows[1..]).value;
      assert es == [Entry(out(rows[0]), rows[0] + out(rows[0]))] + rest;
      forall i | 0 < i < |rows| ensures es[i] == Entry(out(rows[i]), rows[i] + out(rows[i])) {
        assert es[i] == rest[i - 1] && rows[i] == rows[1..][i - 1];
      }
    }
  }

  predicate NoRepeats<D(==)>(s: seq<D>) {
    forall i, j :: 0 <= i < j < |s| ==> s[i] != s[j]
  }

  lemma {:induction false} DistinctIs<D>(s: seq<D>)
    ensures forall x :: x in Distinct(s) <==> x in s
    ensures NoRepeats(Distinct(s))
  {
    if s != [] {
      DistinctIs(s[1..]);
      assert s == [s[0]] + s[1..];
    }
  }

  // ---- GROUP BY -------------------------------------------------------------------------------------------

  lemma {:induction false} PartitionIs(column: string, v: Datum, rows: seq<Row>, p: Row -> bool)
    requires forall r: Row :: p(r) <==> column in r && r[column] == v
    ensures Partition(column, v, rows) == Select(p, rows)
  {
    if rows != [] {
      PartitionIs(column, v, rows[1..], p);
      assert [] + Select(p, rows[1..]) == Select(p, rows[1..]);
    }
  }

  lemma {:induction false} ColumnOfIs(n: string, rows: seq<Row>)
    requires forall r :: r in rows ==> n in r
    ensures forall d :: d in ColumnOf(n, rows) <==> exists r :: r in rows && r[n] == d
  {
    if rows != [] {
      ColumnOfIs(n, rows[1..]);
      assert rows == [rows[0]] + rows[1..];
    }
  }

  /** What a statement makes of one group: an output row, and whether it passes HAVING. */
  ghost predicate GroupYields(q: Query, column: string, key: Datum, c: Ctx, rows: seq<Row>, out: Row, pass: bool) {
    var group := Partition(column, key, rows);
    && group != []
    && var g := c.(row := group[0], group := group);
    && Project(q.items, g) == Some(out)
    && match q.having
       case None => pass
       case Some(h) =>
         var d := Eval(h, g.(row := group[0] + out));
         Logical(d) && (IsTrue(d) <==> pass)
  }

  ghost predicate EntriesFor(es: seq<Entry>, keys: seq<Datum>, column: string, rows: seq<Row>, out: Datum -> Row) {
    && |es| == |keys|
    && forall i :: 0 <= i < |keys| ==>
         var group := Partition(column, keys[i], rows);
         group != [] && es[i] == Entry(out(keys[i]), group[0] + out(keys[i]))
  }

  lemma {:induction false} GroupEntriesAre(
    q: Query, column: string, keys: seq<Datum>, c: Ctx, rows: seq<Row>, out: Datum -> Row, pass: Datum -> bool)
    requires forall k :: k in keys ==> GroupYields(q, column, k, c, rows, out(k), pass(k))
    ensures var es := GroupEntries(q, column, keys, c, rows);
      es.Some? && EntriesFor(es.value, Select(pass, keys), column, rows, out)
  {
    hide Project, Eval, Partition;
    if keys != [] {
      assert keys[0] in keys;
      GroupEntriesAre(q, column, keys[1..], c, rows, out, pass);
      var rest := GroupEntries(q, column, keys[1..], c, rows).value;
      var selected := Select(pass, keys[1..]);
      var group := Partition(column, keys[0], rows);
      var e := Entry(out(keys[0]), group[0] + out(keys[0]));
      if pass(keys[0]) {
        assert GroupEntries(q, column, keys, c, rows) == Some([e] + rest);
        assert Select(pass, keys) == [keys[0]] + selected;
        PrependEntry(e, keys[0], rest, selected, column, rows, out);
      } else {
        assert GroupEntries(q, column, keys, c, rows) == Some(rest);
        assert Select(pass, keys) == selected;
      }
    }
  }

  lemma PrependEntry(
    e: Entry, key: Datum, es: seq<Entry>, keys: seq<Datum>, column: string, rows: seq<Row>, out: Datum -> Row)
    requires EntriesFor(es, keys, column, rows, out)
    requires Partition(column, key, rows) != [] && e == Entry(out(key), Partition(column, key, rows)[0] + out(key))
    ensures EntriesFor([e] + es, [key] + keys, column, rows, out)
  {
    forall i | 0 <= i < |keys| + 1
      ensures Partition(column, ([key] + keys)[i], rows) != []
      ensures ([e] + es)[i]
        == Entry(out(([key] + keys)[i]), Partition(column, ([key] + keys)[i], rows)[0] + out(([key] + keys)[i]))
    {
      if i > 0 {
        assert ([key] + keys)[i] == keys[i - 1] && ([e] + es)[i] == es[i - 1];
      }
    }
  }

  // ---- ORDER BY ---------------------------------------------------------------------------------------------

  /** The columns of some sort keys, with values of fixed kinds: numbers where nums says so, else strings. */
  predicate Keyed(keys: seq<Key>, nums: seq<bool>, r: Row)
    requires |nums| == |keys|
  {
    forall i :: 0 <= i < |keys| ==>
      keys[i].column in r && (if nums[i] then r[keys[i].column].Num? else r[keys[i].column].Str?)
  }

  lemma ScalarOrder(a: Datum, b: Datum, c: Datum)
    requires SameKind(a, b) && SameKind(b, c)
    ensures ScalarLess(a, b) || a == b || ScalarLess(b, a)
    ensures !(ScalarLess(a, b) && a == b) && !(ScalarLess(a, b) && ScalarLess(b, a))
    ensures ScalarLess(a, b) && ScalarLess(b, c) ==> ScalarLess(a, c)
  {
    if a.Str? {
      StrTotal(a.s, b.s);
      StrIrreflexive(a.s);
      if StrLess(a.s, b.s) && StrLess(b.s, a.s) { StrTransitive(a.s, b.s, a.s); }
      if StrLess(a.s, b.s) && StrLess(b.s, c.s) { StrTransitive(a.s, b.s, c.s); }
    }
  }

  lemma {:induction false} BeforeOrder(keys: seq<Key>, nums: seq<bool>, a: Row, b: Row, c: Row)
    requires |nums| == |keys| && Keyed(keys, nums, a) && Keyed(keys, nums, b) && Keyed(keys, nums, c)
    ensures Before(keys, a, b) || Before(keys, b, a)
    ensures Before(keys, a, b) && Before(keys, b, c) ==> Before(keys, a, c)
  {
    hide ScalarLess;
    if keys != [] {
      var n := keys[0].column;
      ScalarOrder(a[n], b[n], c[n]);
      ScalarOrder(b[n], c[n], a[n]);
      ScalarOrder(c[n], b[n], a[n]);
      assert Keyed(keys[1..], nums[1..], a) && Keyed(keys[1..], nums[1..], b) && Keyed(keys[1..], nums[1..], c);
      BeforeOrder(keys[1..], nums[1..], a, b, c);
    }
  }

  ghost predicate Sorted(keys: seq<Key>, es: seq<Entry>) {
    forall i, j :: 0 <= i < j < |es| ==> Before(keys, es[i].scope, es[j].scope)
  }

  predicate AllKeyed(keys: seq<Key>, nums: seq<bool>, es: seq<Entry>)
    requires |nums| == |keys|
  {
    forall e :: e in es ==> Keyed(keys, nums, e.scope)
  }

  lemma {:induction false} InsertSorted(keys: seq<Key>, nums: seq<bool>, e: Entry, es: seq<Entry>)
    requires |nums| == |keys| && AllKeyed(keys, nums, [e] + es) && Sorted(keys, es)
    ensures Sorted(keys, Insert(keys, e, es)) && multiset(Insert(keys, e, es)) == multiset{e} + multiset(es)
  {
    hide Before, Keyed;
    assert forall x :: x in es ==> x in [e] + es;
    assert e in [e] + es;
    if es == [] {
    } else if Before(keys, e.scope, es[0].scope) {
      forall i | 0 < i < |es| ensures Before(keys, e.scope, es[i].scope) {
        BeforeOrder(keys, nums, e.scope, es[0].scope, es[i].scope);
      }
    } else {
      assert es == [es[0]] + es[1..];
      assert forall x :: x in [e] + es[1..] ==> x in [e] + es;
      InsertSorted(keys, nums, e, es[1..]);
      var rest := Insert(keys, e, es[1..]);
      forall i | 0 <= i < |rest| ensures Before(keys, es[0].scope, rest[i].scope) {
        assert rest[i] in multiset(rest);
        BeforeOrder(keys, nums, es[0].scope, e.scope, e.scope);
        assert rest[i] in es[1..] || rest[i] == e;
      }
      assert Insert(keys, e, es) == [es[0]] + rest;
    }
  }

  /** Sorting keeps exactly the entries and puts them in order. */
  lemma {:induction false} SortIs(keys: seq<Key>, nums: seq<bool>, es: seq<Entry>)
    requires |nums| == |keys| && AllKeyed(keys, nums, es)
    ensures Sorted(keys, Sort(keys, es)) && multiset(Sort(keys, es)) == multiset(es)
  {
    hide Before, Keyed, Insert;
    if es != [] {
      assert forall x :: x in es[1..] ==> x in es;
      SortIs(keys, nums, es[1..]);
      var rest := Sort(keys, es[1..]);
      forall x | x in [es[0]] + rest ensures x in es {
        assert x == es[0] || x in multiset(rest);
      }
      InsertSorted(keys, nums, es[0], rest);
      assert es == [es[0]] + es[1..];
    }
  }

  lemma MultisetMembers<D>(s: seq<D>, t: seq<D>)
    requires multiset(s) == multiset(t)
    ensures |s| == |t| && forall x :: x in s <==> x in t
  {
    assert forall x :: x in s <==> x in multiset(s);
    assert forall x :: x in t <==> x in multiset(t);
    assert |s| == |multiset(s)| == |multiset(t)| == |t|;
  }

  lemma {:induction false} CountedOnce<D>(s: seq<D>, x: D)
    requires NoRepeats(s)
    ensures multiset(s)[x] <= 1
  {
    if s != [] {
      assert s == [s[0]] + s[1..];
      CountedOnce(s[1..], x);
    }
  }

  /** A permutation of elements without repetition repeats none. */
  lemma NoRepeatsPermuted<D>(s: seq<D>, t: seq<D>)
    requires multiset(s) == multiset(t) && NoRepeats(s)
    ensures NoRepeats(t)
  {
    forall i, j | 0 <= i < j < |t| ensures t[i] != t[j] {
      if t[i] == t[j] {
        assert t == t[..j] + [t[j]] + t[j + 1..];
        assert t[i] in t[..j] by { assert t[..j][i] == t[i]; }
        CountedOnce(s, t[j]);
        assert false;
      }
    }
  }

  lemma {:induction false} SelectNoRepeats<D>(p: D -> bool, s: seq<D>)
    requires NoRepeats(s)
    ensures NoRepeats(Select(p, s))
  {
    if s != [] {
      SelectNoRepeats(p, s[1..]);
      SelectIs(p, s[1..]);
      assert s[0] !in s[1..];
    }
  }

  // ---- the same, through a function -----------------------------------------------------------------------

  function Map<A, B>(f: A -> B, s: seq<A>): (t: seq<B>)
    ensures |t| == |s| && forall i :: 0 <= i < |s| ==> t[i] == f(s[i])
  {
    if s == [] then [] else [f(s[0])] + Map(f, s[1..])
  }

  lemma {:induction false} SelectMap<A, B>(p: B -> bool, f: A -> B, q: A -> bool, s: seq<A>)
    requires forall x :: x in s ==> q(x) == p(f(x))
    ensures Select(p, Map(f, s)) == Map(f, Select(q, s))
  {
    if s != [] {
      assert s[0] in s;
      SelectMap(p, f, q, s[1..]);
      assert Map(f, s)[1..] == Map(f, s[1..]);
      var rest := Select(q, s[1..]);
      if q(s[0]) {
        assert Select(q, s) == [s[0]] + rest;
        assert Map(f, [s[0]] + rest) == [f(s[0])] + Map(f, rest);
      } else {
        assert Select(q, s) == rest;
      }
    }
  }

  /** Insertion and sorting of what the entries were made from. */
  function InsertBy<A>(keys: seq<Key>, f: A -> Entry, x: A, s: seq<A>): seq<A> {
    if s == [] || Before(keys, f(x).scope, f(s[0]).scope) then [x] + s
    else [s[0]] + InsertBy(keys, f, x, s[1..])
  }

  function SortBy<A>(keys: seq<Key>, f: A -> Entry, s: seq<A>): seq<A> {
    if s == [] then [] else InsertBy(keys, f, s[0], SortBy(keys, f, s[1..]))
  }

  lemma {:induction false} InsertMap<A>(keys: seq<Key>, f: A -> Entry, x: A, s: seq<A>)
    ensures Insert(keys, f(x), Map(f, s)) == Map(f, InsertBy(keys, f, x, s))
    ensures multiset(InsertBy(keys, f, x, s)) == multiset{x} + multiset(s)
  {
    hide Before;
    if s == [] || Before(keys, f(x).scope, f(s[0]).scope) {
      assert Map(f, [x] + s) == [f(x)] + Map(f, s);
    } else {
      InsertMap(keys, f, x, s[1..]);
      assert s == [s[0]] + s[1..];
      assert Map(f, s)[1..] == Map(f, s[1..]);
      var rest := InsertBy(keys, f, x, s[1..]);
      assert Map(f, [s[0]] + rest) == [f(s[0])] + Map(f, rest);
    }
  }

  /** Sorting entries is sorting what they were made from. */
  lemma {:induction false} SortMap<A>(keys: seq<Key>, f: A -> Entry, s: seq<A>)
    ensures Sort(keys, Map(f, s)) == Map(f, SortBy(keys, f, s))
    ensures multiset(SortBy(keys, f, s)) == multiset(s)
  {
    if s != [] {
      SortMap(keys, f, s[1..]);
      assert s == [s[0]] + s[1..];
      assert Map(f, s)[1..] == Map(f, s[1..]);
      InsertMap(keys, f, s[0], SortBy(keys, f, s[1..]));
    }
  }

  lemma {:induction false} SortNone(es: seq<Entry>)
    ensures Sort([], es) == es
  {
    if es != [] { SortNone(es[1..]); }
  }

  lemma Without<D>(s: seq<D>, i: nat)
    requires i < |s|
    ensures multiset(s[..i] + s[i + 1..]) == multiset(s) - multiset{s[i]}
  {
    assert s == s[..i] + [s[i]] + s[i + 1..];
  }

  lemma MapConcat<A, B>(f: A -> B, s: seq<A>, t: seq<A>)
    ensures Map(f, s + t) == Map(f, s) + Map(f, t)
  {
    hide Map;
    forall i | 0 <= i < |s + t| ensures Map(f, s + t)[i] == (Map(f, s) + Map(f, t))[i] {}
  }

  lemma MapWithout<A, B>(f: A -> B, s: seq<A>, i: nat)
    requires i < |s|
    ensures multiset(Map(f, s)) == multiset(Map(f, s[..i] + s[i + 1..])) + multiset{f(s[i])}
  {
    var before, after := s[..i], s[i + 1..];
    assert s == before + ([s[i]] + after);
    MapConcat(f, before, after);
    MapConcat(f, before, [s[i]] + after);
    MapConcat(f, [s[i]], after);
    assert Map(f, [s[i]]) == [f(s[i])];
  }

  /** A function maps permutations to permutations. */
  lemma {:induction false} MapPermuted<A, B>(f: A -> B, s: seq<A>, t: seq<A>)
    requires multiset(s) == multiset(t)
    ensures multiset(Map(f, s)) == multiset(Map(f, t))
    decreases |s|
  {
    MultisetMembers(s, t);
    if s != [] {
      assert s[0] in s;
      var i :| 0 <= i < |t| && t[i] == s[0];
      Without(s, 0);
      Without(t, i);
      assert s[..0] + s[1..] == s[1..];
      MapPermuted(f, s[1..], t[..i] + t[i + 1..]);
      MapWithout(f, s, 0);
      MapWithout(f, t, i);
    }
  }
}
