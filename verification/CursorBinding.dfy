/** A cursor belongs to one filter: two filters have the same canonical form exactly if one is the other with its
    conditions and values in another order, so a cursor of any other filter is refused. */
module CursorBinding {
  import opened Basics
  import opened Schema
  import SqlSyntax
  import opened SqlSemantics
  import opened SqlRows
  import opened Expression
  import opened Policy
  import AccessModel
  import opened Access
  import opened Filter
  import opened FilterAccepts
  import opened Handlers
  import opened Traces
  import Reader

  // ---- joined texts --------------------------------------------------------------------------------------------

  lemma NoneBefore(a: string, x: string, separator: char, i: nat)
    requires separator !in a
    ensures i < |a| ==> (a + [separator] + x)[i] != separator
  {
    if i < |a| { assert (a + [separator] + x)[i] == a[i]; }
  }

  /** A text before the first separator is determined by the whole. */
  lemma SplitOnce(a: string, b: string, x: string, y: string, separator: char)
    requires separator !in a && separator !in b && a + [separator] + x == b + [separator] + y
    ensures a == b && x == y
  {
    var whole := a + [separator] + x;
    assert whole == b + [separator] + y;
    NoneBefore(a, x, separator, |b|);
    NoneBefore(b, y, separator, |a|);
    assert a == whole[..|a|] && b == whole[..|b|];
    assert x == whole[|a| + 1..] && y == whole[|b| + 1..];
  }

  lemma JoinedHas(ss: seq<string>, separator: char)
    ensures |ss| > 1 ==> separator in JoinStrings(ss, separator)
  {
  }

  lemma {:induction false} JoinedOnce(ss: seq<string>, ts: seq<string>, separator: char)
    requires ss != [] && ts != [] && forall s :: s in ss + ts ==> separator !in s
    requires JoinStrings(ss, separator) == JoinStrings(ts, separator)
    ensures ss == ts
  {
    assert ss[0] in ss + ts && ts[0] in ss + ts;
    JoinedHas(ss, separator);
    JoinedHas(ts, separator);
    if |ss| > 1 && |ts| > 1 {
      SplitOnce(ss[0], ts[0], JoinStrings(ss[1..], separator), JoinStrings(ts[1..], separator), separator);
      forall s | s in ss[1..] + ts[1..] ensures s in ss + ts {}
      JoinedOnce(ss[1..], ts[1..], separator);
      assert ss == [ss[0]] + ss[1..] && ts == [ts[0]] + ts[1..];
    }
  }

  /** Joined texts are the same only for the same texts, but that no text and one empty text look alike. */
  lemma JoinedAlike(ss: seq<string>, ts: seq<string>, separator: char)
    requires forall s :: s in ss + ts ==> separator !in s
    ensures JoinStrings(ss, separator) == JoinStrings(ts, separator) <==> ss == ts || (Blank(ss) && Blank(ts))
  {
    if JoinStrings(ss, separator) == JoinStrings(ts, separator) && ss != ts {
      if ss != [] && ts != [] { JoinedOnce(ss, ts, separator); }
      JoinedEmpty(ss, separator);
      JoinedEmpty(ts, separator);
    }
  }

  predicate Blank(ss: seq<string>) {
    ss == [] || ss == [""]
  }

  lemma JoinedEmpty(ss: seq<string>, separator: char)
    ensures JoinStrings(ss, separator) == "" ==> Blank(ss)
  {
    if |ss| == 1 { assert ss == [ss[0]]; }
  }

  lemma SortedAlike(ss: seq<string>, ts: seq<string>)
    ensures SortStrings(ss) == SortStrings(ts) <==> multiset(ss) == multiset(ts)
    ensures Blank(SortStrings(ss)) <==> Blank(ss)
    ensures forall s :: s in SortStrings(ss) <==> s in ss
  {
    SortOrders(ss);
    SortOrders(ts);
    if multiset(ss) == multiset(ts) { SortPermuted(ss, ts); }
    MultisetMembers(SortStrings(ss), ss);
    if |ss| == 1 { assert ss == [ss[0]]; }
  }

  lemma Pick<A>(f: A -> string, s: seq<A>, t: seq<A>) returns (i: nat)
    requires s != [] && multiset(Map(f, s)) == multiset(Map(f, t))
    ensures i < |t| && f(t[i]) == f(s[0])
  {
    var ys, zs := Map(f, s), Map(f, t);
    MultisetMembers(ys, zs);
    assert ys[0] in ys && ys[0] in zs;
    i :| 0 <= i < |zs| && zs[i] == ys[0];
  }

  lemma Remaining<A>(f: A -> string, s: seq<A>, t: seq<A>, i: nat)
    requires s != [] && i < |t| && f(t[i]) == f(s[0]) && multiset(Map(f, s)) == multiset(Map(f, t))
    ensures multiset(Map(f, s[1..])) == multiset(Map(f, t[..i] + t[i + 1..]))
    ensures multiset(t[..i] + t[i + 1..]) == multiset(t) - multiset{t[i]} && t[i] in multiset(t)
  {
    hide Map;
    var rest := t[..i] + t[i + 1..];
    MapWithout(f, t, i);
    Without(t, i);
    Head(f, s);
    Cancelled(multiset(Map(f, s[1..])), multiset(Map(f, rest)), f(s[0]));
  }

  lemma Head<A>(f: A -> string, s: seq<A>)
    requires s != []
    ensures multiset(Map(f, s)) == multiset(Map(f, s[1..])) + multiset{f(s[0])}
  {
    assert Map(f, s) == [f(s[0])] + Map(f, s[1..]);
  }

  lemma Cancelled(a: multiset<string>, b: multiset<string>, x: string)
    requires a + multiset{x} == b + multiset{x}
    ensures a == b
  {
    assert a == (a + multiset{x}) - multiset{x};
    assert b == (b + multiset{x}) - multiset{x};
  }

  /** If a function takes two lists to the same values, one can be arranged to match the other. */
  lemma {:induction false} Matched<A>(f: A -> string, s: seq<A>, t: seq<A>) returns (m: seq<A>)
    requires multiset(Map(f, s)) == multiset(Map(f, t))
    ensures |m| == |s| && Map(f, m) == Map(f, s) && multiset(m) == multiset(t)
    decreases |s|
  {
    hide Map;
    if s == [] {
      MultisetMembers(Map(f, s), Map(f, t));
      m := [];
    } else {
      var i := Pick(f, s, t);
      Remaining(f, s, t, i);
      var rest := Matched(f, s[1..], t[..i] + t[i + 1..]);
      m := [t[i]] + rest;
      Rejoined(multiset(t), t[i], rest);
      Onto(f, s, t[i], rest);
    }
  }

  lemma Onto<A>(f: A -> string, s: seq<A>, first: A, rest: seq<A>)
    requires s != [] && f(first) == f(s[0]) && Map(f, rest) == Map(f, s[1..])
    ensures Map(f, [first] + rest) == Map(f, s)
  {
    assert ([first] + rest)[1..] == rest;
  }

  lemma Rejoined<A>(all: multiset<A>, first: A, rest: seq<A>)
    requires first in all && multiset(rest) == all - multiset{first}
    ensures multiset([first] + rest) == all
  {
  }

  // ---- one condition ---------------------------------------------------------------------------------------------

  const SEPARATORS := {'\0', 1 as char, 2 as char}

  predicate Clean(s: string) {
    forall x :: x in s ==> x !in SEPARATORS
  }

  /** No text of a condition has a separator in it. */
  predicate CleanCondition(c: Condition, json: Datum -> string) {
    && Clean(c.map_) && Clean(c.name) && Clean(c.op) && Clean(CanonicalValue(c.value, json))
    && forall v :: v in c.values ==> Clean(CanonicalValue(v, json))
  }

  predicate CleanFilter(cs: seq<Condition>, json: Datum -> string) {
    forall c :: c in cs ==> CleanCondition(c, json)
  }

  /** Two conditions say the same as texts, but for the order of the values. */
  predicate Alike(c: Condition, d: Condition, json: Datum -> string) {
    && c.map_ == d.map_ && c.name == d.name && c.op == d.op
    && CanonicalValue(c.value, json) == CanonicalValue(d.value, json)
    && (multiset(CanonicalValues(c.values, json)) == multiset(CanonicalValues(d.values, json))
        || (Blank(CanonicalValues(c.values, json)) && Blank(CanonicalValues(d.values, json))))
  }

  function ValuesPart(c: Condition, json: Datum -> string): string {
    JoinStrings(SortStrings(CanonicalValues(c.values, json)), 1 as char)
  }

  lemma {:induction false} JoinKeepsClean(ss: seq<string>, separator: char, x: char)
    requires x != separator && forall s :: s in ss ==> x !in s
    ensures x !in JoinStrings(ss, separator)
  {
    if |ss| > 1 {
      assert ss[0] in ss;
      JoinKeepsClean(ss[1..], separator, x);
    } else if |ss| == 1 {
      assert ss[0] in ss;
    }
  }

  lemma CleanValues(c: Condition, json: Datum -> string)
    requires CleanCondition(c, json)
    ensures forall s :: s in SortStrings(CanonicalValues(c.values, json)) ==> Clean(s)
    ensures (2 as char) !in ValuesPart(c, json)
  {
    var vs := CanonicalValues(c.values, json);
    SortedAlike(vs, vs);
    forall s | s in vs ensures Clean(s) {
      var i :| 0 <= i < |vs| && vs[i] == s;
      assert c.values[i] in c.values;
    }
    JoinKeepsClean(SortStrings(vs), 1 as char, 2 as char);
  }

  /** The text of a condition has a separator, and none of those that end it. */
  lemma PartShape(c: Condition, json: Datum -> string)
    ensures Part(c, json) == c.map_ + ['\0'] + (c.name + ['\0'] + (c.op + ['\0'] +
      (CanonicalValue(c.value, json) + ['\0'] + ValuesPart(c, json))))
    ensures Part(c, json) != ""
    ensures CleanCondition(c, json) ==> (2 as char) !in Part(c, json)
  {
    if CleanCondition(c, json) { CleanValues(c, json); }
  }

  lemma PartsAlike(c: Condition, d: Condition, json: Datum -> string)
    requires CleanCondition(c, json) && CleanCondition(d, json)
    ensures Part(c, json) == Part(d, json) <==> Alike(c, d, json)
  {
    hide CanonicalValue, CanonicalValues, SortStrings, JoinStrings, Part;
    PartShape(c, json);
    PartShape(d, json);
    var v, w := CanonicalValue(c.value, json), CanonicalValue(d.value, json);
    var x, y := ValuesPart(c, json), ValuesPart(d, json);
    if Part(c, json) == Part(d, json) {
      SplitOnce(c.map_, d.map_, c.name + ['\0'] + (c.op + ['\0'] + (v + ['\0'] + x)),
        d.name + ['\0'] + (d.op + ['\0'] + (w + ['\0'] + y)), '\0');
      SplitOnce(c.name, d.name, c.op + ['\0'] + (v + ['\0'] + x), d.op + ['\0'] + (w + ['\0'] + y), '\0');
      SplitOnce(c.op, d.op, v + ['\0'] + x, w + ['\0'] + y, '\0');
      SplitOnce(v, w, x, y, '\0');
    }
    ValuesAlike(c, d, json);
  }

  lemma ValuesAlike(c: Condition, d: Condition, json: Datum -> string)
    requires CleanCondition(c, json) && CleanCondition(d, json)
    ensures var vs, ws := CanonicalValues(c.values, json), CanonicalValues(d.values, json);
      ValuesPart(c, json) == ValuesPart(d, json) <==> multiset(vs) == multiset(ws) || (Blank(vs) && Blank(ws))
  {
    hide CanonicalValues, SortStrings, JoinStrings;
    var vs, ws := CanonicalValues(c.values, json), CanonicalValues(d.values, json);
    CleanValues(c, json);
    CleanValues(d, json);
    SortedAlike(vs, ws);
    SortedAlike(ws, vs);
    JoinedAlike(SortStrings(vs), SortStrings(ws), 1 as char);
  }

  // ---- whole filters -------------------------------------------------------------------------------------------

  /** One filter is another but for the order of its conditions and of the values of each. */
  ghost predicate SameFilter(cs: seq<Condition>, ds: seq<Condition>, json: Datum -> string) {
    exists middle: seq<Condition> ::
      && |middle| == |cs| && (forall i :: 0 <= i < |cs| ==> Alike(cs[i], middle[i], json))
      && multiset(middle) == multiset(ds)
  }

  function Parts(cs: seq<Condition>, json: Datum -> string): seq<string> {
    Map((c: Condition) => Part(c, json), cs)
  }

  lemma PartsAreFree(cs: seq<Condition>, json: Datum -> string)
    requires CleanFilter(cs, json)
    ensures forall s :: s in SortStrings(Parts(cs, json)) ==> (2 as char) !in s && s != ""
  {
    hide Part, CleanCondition;
    SortedAlike(Parts(cs, json), Parts(cs, json));
    forall s | s in Parts(cs, json) ensures (2 as char) !in s && s != "" {
      var i :| 0 <= i < |cs| && Parts(cs, json)[i] == s;
      assert cs[i] in cs;
      PartShape(cs[i], json);
    }
  }

  /** Without separators in the texts, two filters have the same canonical form exactly if they are the same but for
      the order of conditions and values. */
  lemma CanonicalExactly(cs: seq<Condition>, ds: seq<Condition>, json: Datum -> string)
    requires CleanFilter(cs, json) && CleanFilter(ds, json)
    ensures CanonicalOf(cs, json) == CanonicalOf(ds, json) <==> SameFilter(cs, ds, json)
  {
    hide Part, SortStrings, JoinStrings, CleanCondition, Alike;
    var ps, qs := Parts(cs, json), Parts(ds, json);
    PartsAreFree(cs, json);
    PartsAreFree(ds, json);
    JoinedAlike(SortStrings(ps), SortStrings(qs), 2 as char);
    SortedAlike(ps, qs);
    NoBlanks(SortStrings(ps));
    NoBlanks(SortStrings(qs));
    assert CanonicalOf(cs, json) == CanonicalOf(ds, json) <==> multiset(ps) == multiset(qs);
    PartsPermuted(cs, ds, json);
  }

  lemma NoBlanks(ss: seq<string>)
    requires forall s :: s in ss ==> s != ""
    ensures Blank(ss) <==> ss == []
  {
    if ss != [] { assert ss[0] in ss; }
  }

  lemma PartsPermuted(cs: seq<Condition>, ds: seq<Condition>, json: Datum -> string)
    requires CleanFilter(cs, json) && CleanFilter(ds, json)
    ensures multiset(Parts(cs, json)) == multiset(Parts(ds, json)) <==> SameFilter(cs, ds, json)
  {
    hide Part, CleanCondition, Alike;
    var part := (c: Condition) => Part(c, json);
    if multiset(Parts(cs, json)) == multiset(Parts(ds, json)) {
      var middle := Matched(part, cs, ds);
      MultisetMembers(middle, ds);
      forall i | 0 <= i < |cs| ensures Alike(cs[i], middle[i], json) {
        assert cs[i] in cs && middle[i] in middle;
        assert Map(part, cs)[i] == Map(part, middle)[i];
        PartsAlike(cs[i], middle[i], json);
      }
    }
    if SameFilter(cs, ds, json) {
      var middle: seq<Condition> :|
        && |middle| == |cs| && (forall i :: 0 <= i < |cs| ==> Alike(cs[i], middle[i], json))
        && multiset(middle) == multiset(ds);
      MultisetMembers(middle, ds);
      forall i | 0 <= i < |cs| ensures Map(part, cs)[i] == Map(part, middle)[i] {
        assert cs[i] in cs && middle[i] in middle;
        PartsAlike(cs[i], middle[i], json);
      }
      assert Map(part, cs) == Map(part, middle);
      MapPermuted(part, middle, ds);
    }
  }

  // ---- accepted filters ------------------------------------------------------------------------------------------

  /** Different numbers and truth values are written differently. */
  ghost predicate JsonTells(json: Datum -> string) {
    forall a: Datum, b: Datum ::
      (a.Bool? || a.Num?) && (b.Bool? || b.Num?) && json(a) == json(b) ==> a == b
  }

  /** The two are of the same kind. */
  predicate SameKind(a: Datum, b: Datum) {
    (a.Null? && b.Null?) || (a.Str? && b.Str?) || ((a.Bool? || a.Num?) && (b.Bool? || b.Num?))
  }

  lemma ValueTold(a: Datum, b: Datum, json: Datum -> string)
    requires JsonTells(json) && SameKind(a, b) && CanonicalValue(a, json) == CanonicalValue(b, json)
    ensures a == b
  {
  }

  lemma ValuesTold(xs: seq<Datum>, ys: seq<Datum>, json: Datum -> string)
    requires JsonTells(json) && multiset(CanonicalValues(xs, json)) == multiset(CanonicalValues(ys, json))
    requires forall a, b :: a in xs && b in ys ==> SameKind(a, b)
    ensures multiset(xs) == multiset(ys)
  {
    hide CanonicalValue, JsonTells, SameKind;
    var written := (v: Datum) => CanonicalValue(v, json);
    var m := Matched(written, xs, ys);
    MultisetMembers(m, ys);
    forall i | 0 <= i < |xs| ensures m[i] == xs[i] {
      assert m[i] in ys && xs[i] in xs;
      assert Map(written, m)[i] == Map(written, xs)[i];
      ValueTold(xs[i], m[i], json);
    }
    assert m == xs;
  }

  /** What an operator takes is of one kind. */
  lemma TakesOneKind(op: string, t: LogicalType, v: Datum, vs: seq<Datum>, w: Datum, ws: seq<Datum>)
    requires Takes(op, t, v, vs) && Takes(op, t, w, ws)
    ensures SameKind(v, w) && (vs == [] <==> ws == []) && forall a, b :: a in vs && b in ws ==> SameKind(a, b)
  {
  }

  lemma AcceptedAlike(c: Condition, d: Condition, t: LogicalType, json: Datum -> string)
    requires Takes(c.op, t, c.value, c.values) && Takes(d.op, t, d.value, d.values) && JsonTells(json)
    ensures Alike(c, d, json) <==> SameButOrder(c, d)
  {
    hide Takes, JsonTells, SameKind, CanonicalValue;
    var written := (v: Datum) => CanonicalValue(v, json);
    if Alike(c, d, json) {
      TakesOneKind(c.op, t, c.value, c.values, d.value, d.values);
      ValueTold(c.value, d.value, json);
      ValuesTold(c.values, d.values, json);
    }
    if SameButOrder(c, d) { MapPermuted(written, c.values, d.values); }
  }

  /** One filter is another with its conditions and values in another order. */
  ghost predicate Reordered(cs: seq<Condition>, ds: seq<Condition>) {
    exists middle :: Rearranged(cs, middle, ds)
  }

  /** Of two filters that one model accepts, one is the other as texts exactly if it is a rearrangement. */
  lemma AcceptedSame(cs: seq<Condition>, ds: seq<Condition>, fields: seq<Field>, json: Datum -> string)
    requires Built(cs, fields).Ok? && Built(ds, fields).Ok? && JsonTells(json)
    ensures SameFilter(cs, ds, json) <==> Reordered(cs, ds)
  {
    hide Built, Alike, SameButOrder, JsonTells, Filterable;
    if SameFilter(cs, ds, json) {
      var middle: seq<Condition> :|
        && |middle| == |cs| && (forall i :: 0 <= i < |cs| ==> Alike(cs[i], middle[i], json))
        && multiset(middle) == multiset(ds);
      MultisetMembers(middle, ds);
      forall i | 0 <= i < |cs| ensures SameButOrder(cs[i], middle[i]) {
        assert cs[i] in cs && middle[i] in middle;
        MembersAlike(cs, cs[i], ds, middle[i], fields, json);
      }
      assert Rearranged(cs, middle, ds);
    }
    if middle :| Rearranged(cs, middle, ds) {
      MultisetMembers(middle, ds);
      forall i | 0 <= i < |cs| ensures Alike(cs[i], middle[i], json) {
        assert cs[i] in cs && middle[i] in middle;
        assert SameButOrder(cs[i], middle[i]);
        MembersAlike(cs, cs[i], ds, middle[i], fields, json);
      }
    }
  }

  lemma MembersAlike(
    cs: seq<Condition>, c: Condition, ds: seq<Condition>, d: Condition, fields: seq<Field>, json: Datum -> string)
    requires Built(cs, fields).Ok? && Built(ds, fields).Ok? && JsonTells(json) && c in cs && d in ds
    ensures Alike(c, d, json) <==> SameButOrder(c, d)
  {
    hide Built, ExprOf, Takes, JsonTells, Filterable, CanonicalValues, CanonicalValue;
    BuildAccepts(cs, fields);
    BuildAccepts(ds, fields);
    assert Filter.Acceptable(c, Filterable(fields)) && Filter.Acceptable(d, Filterable(fields));
    if c.map_ == d.map_ && c.name == d.name {
      var field := Filterable(fields)[KeyOf(c.map_, c.name)];
      ExprAccepts(c, field);
      ExprAccepts(d, field);
      AcceptedAlike(c, d, field.Type(), json);
    }
  }

  // ---- cursors ---------------------------------------------------------------------------------------------------

  /** The digest tells any two forms apart and is never empty. */
  ghost predicate DigestTells(codec: Codec) {
    && (forall s :: codec.digest(s) != "")
    && forall s, t :: codec.digest(s) == codec.digest(t) ==> s == t
  }

  lemma {:induction false} HashExactly(cs: seq<Condition>, ds: seq<Condition>, codec: Codec)
    requires DigestTells(codec) && CleanFilter(cs, codec.json) && CleanFilter(ds, codec.json)
    ensures FilterHash(cs, codec) == FilterHash(ds, codec) <==> SameFilter(cs, ds, codec.json)
  {
    hide CanonicalOf, SameFilter, CleanFilter;
    CanonicalExactly(cs, ds, codec.json);
    SameLength(cs, ds, codec.json);
  }

  lemma SameLength(cs: seq<Condition>, ds: seq<Condition>, json: Datum -> string)
    ensures SameFilter(cs, ds, json) ==> |cs| == |ds|
    ensures cs == [] && ds == [] ==> SameFilter(cs, ds, json)
  {
    hide Alike;
    if SameFilter(cs, ds, json) {
      var middle: seq<Condition> :|
        && |middle| == |cs| && (forall i :: 0 <= i < |cs| ==> Alike(cs[i], middle[i], json))
        && multiset(middle) == multiset(ds);
      MultisetMembers(middle, ds);
    }
  }

  /** A cursor fits a filter exactly if it was issued for the same filter, but for the order of conditions and
      values. With any other filter the request is refused for that reason. */
  lemma CursorBelongs(
    cs: seq<Condition>, ds: seq<Condition>, c: Cursor, codec: Codec, snapshot: Option<AccessModel.Snapshot>,
    columns: Reader.Projection)
    requires Exact(codec) && DigestTells(codec) && CleanFilter(cs, codec.json) && CleanFilter(ds, codec.json)
    requires Reader.Usable(columns)
    ensures var cursor := codec.encode(c, FilterHash(cs, codec));
      && (CursorFits(cursor, ds, codec) <==> SameFilter(cs, ds, codec.json))
      && (Fault(snapshot, ds, cursor, columns, codec) == Some(OtherFilter) <==> !SameFilter(cs, ds, codec.json))
  {
    hide FilterHash, SameFilter, CleanFilter, DigestTells, Built;
    HashExactly(cs, ds, codec);
  }

  /** Between filters that the model accepts: a cursor fits exactly the rearrangements of its own filter. */
  lemma CursorFitsReordered(
    cs: seq<Condition>, ds: seq<Condition>, fields: seq<Field>, c: Cursor, codec: Codec)
    requires Exact(codec) && DigestTells(codec) && JsonTells(codec.json)
    requires CleanFilter(cs, codec.json) && CleanFilter(ds, codec.json)
    requires Built(cs, fields).Ok? && Built(ds, fields).Ok?
    ensures CursorFits(codec.encode(c, FilterHash(cs, codec)), ds, codec) <==> Reordered(cs, ds)
  {
    hide FilterHash, SameFilter, CleanFilter, DigestTells, Built, JsonTells, Reordered;
    HashExactly(cs, ds, codec);
    AcceptedSame(cs, ds, fields, codec.json);
  }

  /** With a separator inside a value the form is ambiguous: one value that contains it reads like two values. Both
      filters are accepted, their cursors are exchangeable, and they select different spans. */
  lemma SeparatorCollides(codec: Codec, conv: Conv)
    ensures var x, y := SqlSyntax.Str("a" + [1 as char] + "b"), [SqlSyntax.Str("a"), SqlSyntax.Str("b")];
      var f := Field("", "env", TString, true, false);
      var c, d := Condition("", "env", "in", SqlSyntax.Null, [x]), Condition("", "env", "in", SqlSyntax.Null, y);
      && Built([c], [f]).Ok? && Built([d], [f]).Ok? && !CleanFilter([c], codec.json)
      && FilterHash([c], codec) == FilterHash([d], codec)
      && !Matches(c, f, map["env" := SqlSyntax.Str("a")], conv) && Matches(d, f, map["env" := SqlSyntax.Str("a")], conv)
  {
    hide Built, ExprOf, Part, CanonicalOf, Matches, Takes;
    var x, y := SqlSyntax.Str("a" + [1 as char] + "b"), [SqlSyntax.Str("a"), SqlSyntax.Str("b")];
    var f := Field("", "env", TString, true, false);
    var c, d := Condition("", "env", "in", SqlSyntax.Null, [x]), Condition("", "env", "in", SqlSyntax.Null, y);
    AdmitsIn([x], f);
    AdmitsIn(y, f);
    FilterAccepted([c], [f]);
    FilterAccepted([d], [f]);
    JoinsAlike(codec.json);
    PartShape(c, codec.json);
    PartShape(d, codec.json);
    CanonicalOfOne(c, d, codec.json);
    NotClean(c, x, codec.json);
    MatchesIn(c, f, conv);
    MatchesIn(d, f, conv);
  }

  lemma AdmitsIn(values: seq<Datum>, f: Field)
    requires Texts(values) && f == Field("", "env", TString, true, false)
    ensures Admits([f], Condition("", "env", "in", SqlSyntax.Null, values))
  {
    assert LastMarked(FILTERABLE, [f], 0, KeyOf("", "env"));
  }

  lemma JoinsAlike(json: Datum -> string)
    ensures JoinStrings(SortStrings(CanonicalValues([SqlSyntax.Str("a" + [1 as char] + "b")], json)), 1 as char)
      == JoinStrings(SortStrings(CanonicalValues([SqlSyntax.Str("a"), SqlSyntax.Str("b")], json)), 1 as char)
  {
    var x := "a" + [1 as char] + "b";
    assert CanonicalValues([SqlSyntax.Str(x)], json) == [x];
    assert CanonicalValues([SqlSyntax.Str("a"), SqlSyntax.Str("b")], json) == ["a", "b"];
    assert SortStrings([x]) == [x];
    assert SortStrings(["a", "b"][1..]) == ["b"];
    assert SortStrings(["a", "b"]) == ["a", "b"];
    assert JoinStrings(["a", "b"][1..], 1 as char) == "b";
  }

  lemma CanonicalOfOne(c: Condition, d: Condition, json: Datum -> string)
    requires Part(c, json) == Part(d, json)
    ensures CanonicalOf([c], json) == CanonicalOf([d], json)
  {
    assert Map((e: Condition) => Part(e, json), [c]) == Map((e: Condition) => Part(e, json), [d]);
  }

  lemma NotClean(c: Condition, v: Datum, json: Datum -> string)
    requires v in c.values && (1 as char) in CanonicalValue(v, json)
    ensures !CleanFilter([c], json)
  {
    assert c in [c] && !Clean(CanonicalValue(v, json));
  }

  lemma MatchesIn(c: Condition, f: Field, conv: Conv)
    requires c.op == "in" && f == Field("", "env", TString, true, false)
    ensures var row := map["env" := SqlSyntax.Str("a")];
      FieldFits(f, row) && (Matches(c, f, row, conv) <==> SqlSyntax.Str("a") in c.values)
  {
  }
}
