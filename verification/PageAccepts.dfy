/** Which texts are a page, and what they hold, said about JSON objects: the members a page knows count, in any
    order and however often, any other member is skipped, and nothing may follow. */
module PageAccepts {
  import opened Basics
  import opened Json
  import opened Page

  // ---- reading a value is the opposite of printing it -----------------------------------------------------------

  /** A value is read exactly off its printed text. */
  lemma ParseExactly(ts: Stream, v: Value, rest: Stream)
    ensures ParseValue(ts) == Some((v, rest)) <==> ts == Onto(ValueText(v), rest)
  {
    ParseIsText(ts);
    ReadBack(v, rest);
  }

  lemma {:induction false} ParseIsText(ts: Stream)
    ensures ParseValue(ts).Some? ==> ts == Onto(ValueText(ParseValue(ts).value.0), ParseValue(ts).value.1)
    decreases Size(ts), 1
  {
    if ts.Cons? {
      var t, rest := ts.head, ts.tail;
      if t.LBracket? && rest.Cons? && rest.head.RBracket? {
        Bracketed(t, [], RBracket, rest.tail);
      } else if t.LBracket? {
        ItemsAreText(rest);
        if ParseItems(rest).Some? {
          Bracketed(t, ItemsText(ParseItems(rest).value.0), RBracket, ParseItems(rest).value.1);
        }
      } else if t.LBrace? && rest.Cons? && rest.head.RBrace? {
        Bracketed(t, [], RBrace, rest.tail);
      } else if t.LBrace? {
        MembersAreText(rest);
        if ParseMembers(rest).Some? {
          Bracketed(t, MembersText(ParseMembers(rest).value.0), RBrace, ParseMembers(rest).value.1);
        }
      } else {
        OntoOne(t, rest);
      }
    }
  }

  lemma Bracketed(open: JTok, s: seq<JTok>, close: JTok, rest: Stream)
    ensures Onto([open] + (s + [close]), rest) == Cons(open, Onto(s, Cons(close, rest)))
  {
    OntoTwo([open], s + [close], rest);
    OntoOne(open, Onto(s + [close], rest));
    OntoTwo(s, [close], rest);
    OntoOne(close, rest);
  }

  lemma {:induction false} ItemsAreText(ts: Stream)
    ensures ParseItems(ts).Some? ==>
      (var (items, after) := ParseItems(ts).value;
       items.More? && ts == Onto(ItemsText(items), Cons(RBracket, after)))
    decreases Size(ts), 2
  {
    ParseIsText(ts);
    match ParseValue(ts)
    case Some((v, Cons(Comma, more))) =>
      ItemsAreText(more);
      if ParseItems(more).Some? {
        var (items, after) := ParseItems(more).value;
        OntoTwo(ValueText(v), [Comma] + ItemsText(items), Cons(RBracket, after));
        OntoTwo([Comma], ItemsText(items), Cons(RBracket, after));
        OntoOne(Comma, more);
      }
    case _ =>
  }

  lemma {:induction false} MembersAreText(ts: Stream)
    ensures ParseMembers(ts).Some? ==>
      (var (ms, after) := ParseMembers(ts).value;
       ms.Member? && ts == Onto(MembersText(ms), Cons(RBrace, after)))
    decreases Size(ts), 2
  {
    match ts
    case Cons(Text(k), Cons(Colon, rest)) =>
      assert Size(ts.tail) == 1 + Size(rest);
      ParseIsText(rest);
      OntoPair(Text(k), Colon, rest);
      match ParseValue(rest) {
        case Some((v, Cons(RBrace, after))) => OntoTwo([Text(k), Colon], ValueText(v), Cons(RBrace, after));
        case Some((v, Cons(Comma, more))) =>
          MembersAreText(more);
          if ParseMembers(more).Some? {
            var (ms, after) := ParseMembers(more).value;
            OntoTwo([Text(k), Colon], ValueText(v) + ([Comma] + MembersText(ms)), Cons(RBrace, after));
            OntoTwo(ValueText(v), [Comma] + MembersText(ms), Cons(RBrace, after));
            OntoTwo([Comma], MembersText(ms), Cons(RBrace, after));
            OntoOne(Comma, more);
          }
        case _ =>
      }
    case _ =>
  }

  // ---- an array token by token ------------------------------------------------------------------------------------

  function ListOf(items: Values): seq<Value> {
    match items case NoValue => [] case More(v, rest) => [v] + ListOf(rest)
  }

  /** The rows up to the bracket that closes them. */
  function Closed(d: Decoder, rows: seq<Value>): Option<(seq<Value>, Decoder)> {
    match ReadRows(d, rows)
    case None => None
    case Some((all, d2)) => match Token(d2) case Some((RBracket, d3)) => Some((all, d3)) case _ => None
  }

  /** What follows an item: the end, or a comma and more items. */
  function Following(ts: Stream, rows: seq<Value>, stack: seq<Place>): Option<(seq<Value>, Decoder)> {
    match ts
    case Cons(RBracket, after) => Some((rows, Decoder(after, ObjectComma, stack)))
    case Cons(Comma, more) =>
      (match ParseItems(more)
       case None => None
       case Some((items, after)) => Some((rows + ListOf(items), Decoder(after, ObjectComma, stack))))
    case _ => None
  }

  lemma {:induction false} AfterItem(ts: Stream, rows: seq<Value>, stack: seq<Place>)
    ensures Closed(Decoder(ts, ArrayComma, [ObjectValue] + stack), rows) == Following(ts, rows, stack)
    decreases Size(ts)
  {
    match ts
    case Cons(Comma, more) =>
      match ParseValue(more) {
        case Some((v, r)) =>
          AfterItem(r, rows + [v], stack);
          if r.Cons? && r.head.Comma? && ParseItems(r.tail).Some? {
            var items := ParseItems(r.tail).value.0;
            assert (rows + [v]) + ListOf(items) == rows + ListOf(More(v, items));
          }
          assert ListOf(More(v, NoValue)) == [v];
        case None =>
      }
    case _ =>
  }

  lemma FirstRead(ts: Stream, rows: seq<Value>, stack: seq<Place>)
    requires Page.More(Decoder(ts, ArrayStart, stack))
    ensures ReadRows(Decoder(ts, ArrayStart, stack), rows) ==
      if ParseValue(ts).None? then None
      else ReadRows(Decoder(ParseValue(ts).value.1, ArrayComma, stack), rows + [ParseValue(ts).value.0])
  {
  }

  lemma FirstItem(ts: Stream, rows: seq<Value>, stack: seq<Place>)
    requires !(ts.Cons? && ts.head.RBracket?)
    ensures Closed(Decoder(ts, ArrayStart, [ObjectValue] + stack), rows) ==
      match ParseItems(ts)
      case Some((items, after)) => Some((rows + ListOf(items), Decoder(after, ObjectComma, stack)))
      case None => None
  {
    hide Token, ReadRows, Decode;
    var d := Decoder(ts, ArrayStart, [ObjectValue] + stack);
    if Page.More(d) { FirstRead(ts, rows, [ObjectValue] + stack); } else { NotClosed(d, rows); }
    if Page.More(d) && ParseValue(ts).Some? {
      var (v, r) := ParseValue(ts).value;
      AfterItem(r, rows + [v], stack);
      if r.Cons? && r.head.Comma? && ParseItems(r.tail).Some? {
        var items := ParseItems(r.tail).value.0;
        assert (rows + [v]) + ListOf(items) == rows + ListOf(More(v, items));
      }
      assert ListOf(More(v, NoValue)) == [v];
    }
  }

  lemma NotClosed(d: Decoder, rows: seq<Value>)
    requires !Page.More(d) && d.place.ArrayStart? && !(d.src.Cons? && d.src.head.RBracket?)
    ensures Closed(d, rows).None?
  {
  }

  /** Reading the spans one by one is reading an array. */
  lemma SpansAreArray(src: Stream, rows: seq<Value>, stack: seq<Place>)
    ensures ReadSpans(Decoder(src, ObjectColon, stack), rows) ==
      match Decode(Decoder(src, ObjectColon, stack))
      case Some((Arr(items), d)) => Some((rows + ListOf(items), d))
      case _ => None
  {
    if src.Cons? && src.head.Colon? {
      assert Token(Decoder(src, ObjectColon, stack)) == Token(Decoder(src.tail, ObjectValue, stack));
    }
    if src.Cons? && src.head.Colon? && src.tail.Cons? && src.tail.head.LBracket? {
      var ts := src.tail.tail;
      var d1 := Decoder(ts, ArrayStart, [ObjectValue] + stack);
      assert ReadSpans(Decoder(src, ObjectColon, stack), rows) == Closed(d1, rows);
      if ts.Cons? && ts.head.RBracket? { assert rows + ListOf(NoValue) == rows; } else { FirstItem(ts, rows, stack); }
    }
  }

  // ---- an object token by token -----------------------------------------------------------------------------------

  /** What one member adds to what has been read: known members count, others are skipped. */
  function One(key: string, v: Value, c: Content, found: bool): Option<(Content, bool)> {
    if key == "spans" then if v.Arr? then Some((c.(rows := c.rows + ListOf(v.items)), true)) else None
    else if key == "binding" then Some((c.(binding := Some(v)), found))
    else if key != "next_cursor" then Some((c, found))
    else if v.Str? then Some((c.(next := v.s), found))
    else if v == Other("null") then Some((c, found))
    else None
  }

  function Added(ms: Members, c: Content, found: bool): Option<(Content, bool)> {
    match ms
    case NoMember => Some((c, found))
    case Member(k, v, rest) =>
      (match One(k, v, c, found) case Some((c2, f2)) => Added(rest, c2, f2) case None => None)
  }

  function Completed(d: Decoder, c: Content, found: bool): Option<Content> {
    match ReadMembers(d, c, found) case None => None case Some((all, f, d1)) => Ended(all, f, d1)
  }

  /** A page if spans were found and nothing follows. */
  function Finished(p: Option<(Content, bool)>, after: Stream): Option<Content> {
    match p case Some((c, found)) => if found && after.Nil? then Some(c) else None case None => None
  }

  /** What follows a member: the end, or a comma and more members. */
  function Onward(ts: Stream, c: Content, found: bool): Option<Content> {
    match ts
    case Cons(RBrace, after) => Finished(Some((c, found)), after)
    case Cons(Comma, more) =>
      (match ParseMembers(more) case None => None case Some((ms, after)) => Finished(Added(ms, c, found), after))
    case _ => None
  }

  /** Where a key comes next. */
  predicate AtKey(d: Decoder, ts: Stream) {
    || (d == Decoder(ts, ObjectStart, [TopValue]) && !(ts.Cons? && (ts.head.RBrace? || ts.head.RBracket?)))
    || d == Decoder(Cons(Comma, ts), ObjectComma, [TopValue])
  }

  lemma KeyRead(d: Decoder, ts: Stream)
    requires AtKey(d, ts)
    ensures Page.More(d) <==> ts.Cons? || d.place.ObjectComma?
    ensures Token(d) == match ts
      case Cons(Text(k), rest) => Some((Text(k), Decoder(rest, ObjectColon, [TopValue])))
      case _ => None
  {
    if d.place.ObjectComma? { assert Token(d) == Token(Decoder(ts, ObjectKey, [TopValue])); }
  }

  lemma ValueRead(rest: Stream)
    ensures Decode(Decoder(rest, ObjectColon, [TopValue])) ==
      if rest.Cons? && rest.head.Colon? && ParseValue(rest.tail).Some?
      then Some((ParseValue(rest.tail).value.0, Decoder(ParseValue(rest.tail).value.1, ObjectComma, [TopValue])))
      else None
  {
  }

  /** One member is read. */
  lemma MemberRead(d: Decoder, key: string, d1: Decoder, c: Content, found: bool)
    requires Page.More(d) && Token(d) == Some((Text(key), d1))
    requires ReadSpans(d1, c.rows) ==
      match Decode(d1) case Some((Arr(items), d3)) => Some((c.rows + ListOf(items), d3)) case _ => None
    ensures Decode(d1).None? ==> ReadMembers(d, c, found).None?
    ensures Decode(d1).Some? ==>
      (var one := One(key, Decode(d1).value.0, c, found);
       ReadMembers(d, c, found) ==
         if one.None? then None else ReadMembers(Decode(d1).value.1, one.value.0, one.value.1))
  {
    hide Token, Page.More, Decode, ReadSpans;
  }

  /** From a key on, members are read as those of an object. */
  lemma {:induction false} FromKey(d: Decoder, ts: Stream, c: Content, found: bool)
    requires AtKey(d, ts)
    ensures Completed(d, c, found) ==
      match ParseMembers(ts) case None => None case Some((ms, after)) => Finished(Added(ms, c, found), after)
    decreases Size(ts), 1
  {
    hide Token, Page.More, Decode, ReadSpans, One;
    KeyRead(d, ts);
    if ts.Cons? && ts.head.Text? {
      var key, rest := ts.head.s, ts.tail;
      ValueRead(rest);
      SpansAreArray(rest, c.rows, [TopValue]);
      MemberRead(d, key, Decoder(rest, ObjectColon, [TopValue]), c, found);
      if rest.Cons? && rest.head.Colon? && ParseValue(rest.tail).Some? {
        assert Size(ts) == 2 + Size(rest.tail);
        var (v, r) := ParseValue(rest.tail).value;
        var one := One(key, v, c, found);
        if one.Some? { AfterMember(r, one.value.0, one.value.1); }
      }
    }
  }

  lemma {:induction false} AfterMember(ts: Stream, c: Content, found: bool)
    ensures Completed(Decoder(ts, ObjectComma, [TopValue]), c, found) == Onward(ts, c, found)
    decreases Size(ts), 0
  {
    if ts.Cons? && ts.head.Comma? {
      FromKey(Decoder(ts, ObjectComma, [TopValue]), ts.tail, c, found);
    }
  }

  // ---- whole pages ------------------------------------------------------------------------------------------------

  const NOTHING := Content(None, [], "")

  /** A page is read as a JSON object with nothing after it. */
  lemma ReadPageIs(src: Stream)
    ensures ReadPage(src) ==
      match ParseValue(src)
      case Some((Obj(ms), after)) => Finished(Added(ms, NOTHING, false), after)
      case _ => None
  {
    hide One;
    if src.Cons? && src.head.LBrace? {
      var d := Decoder(src.tail, ObjectStart, [TopValue]);
      assert [TopValue] + [] == [TopValue];
      assert Token(Decoder(src, TopValue, [])) == Some((LBrace, d));
      assert ReadPage(src) == Completed(d, NOTHING, false);
      if AtKey(d, src.tail) { FromKey(d, src.tail, NOTHING, false); }
    }
  }

  /** The values of the members with a key, in order. */
  function Named(ms: Members, key: string): seq<Value> {
    match ms case NoMember => [] case Member(k, v, rest) => (if k == key then [v] else []) + Named(rest, key)
  }

  /** The object has spans; they are arrays, and cursors are texts or null. */
  predicate IsPageObject(ms: Members) {
    && Named(ms, "spans") != [] && (forall v :: v in Named(ms, "spans") ==> v.Arr?)
    && forall v :: v in Named(ms, "next_cursor") ==> v.Str? || v == Other("null")
  }

  /** The items of some arrays, one array after the other. */
  function AllRows(vs: seq<Value>): seq<Value>
    requires forall v :: v in vs ==> v.Arr?
  {
    if vs == [] then [] else ListOf(vs[0].items) + AllRows(vs[1..])
  }

  function LastOf(vs: seq<Value>): Option<Value> {
    if vs == [] then None else Some(vs[|vs| - 1])
  }

  /** The last text among some values. */
  function LastText(vs: seq<Value>): Option<string> {
    if vs == [] then None
    else if vs[|vs| - 1].Str? then Some(vs[|vs| - 1].s)
    else LastText(vs[..|vs| - 1])
  }

  function Or<T>(o: Option<T>, otherwise: T): T {
    match o case Some(x) => x case None => otherwise
  }

  /** What a page holds: all its spans in order, its last binding and its last cursor. */
  function ContentOf(ms: Members): Content
    requires IsPageObject(ms)
  {
    Content(LastOf(Named(ms, "binding")), AllRows(Named(ms, "spans")), Or(LastText(Named(ms, "next_cursor")), ""))
  }

  lemma {:induction false} LastTextFirst(v: Value, vs: seq<Value>)
    ensures LastText([v] + vs) ==
      if LastText(vs).Some? then LastText(vs) else if v.Str? then Some(v.s) else None
    decreases |vs|
  {
    var all, n := [v] + vs, |vs|;
    if n == 0 {
      assert all[..0] == [];
    } else {
      assert all[..n] == [v] + vs[..n - 1];
      LastTextFirst(v, vs[..n - 1]);
    }
  }

  lemma NamedStep(ms: Members, key: string)
    requires ms.Member?
    ensures Named(ms, key) == if ms.key == key then [ms.v] + Named(ms.rest, key) else Named(ms.rest, key)
  {
  }

  /** Members are added exactly if the known ones are what they should be. */
  lemma {:induction false} AddedIf(ms: Members, c: Content, found: bool)
    ensures Added(ms, c, found).Some? <==>
      && (forall v :: v in Named(ms, "spans") ==> v.Arr?)
      && forall v :: v in Named(ms, "next_cursor") ==> v.Str? || v == Other("null")
    ensures Added(ms, c, found).Some? ==> Added(ms, c, found).value.1 == (found || Named(ms, "spans") != [])
  {
    if ms.Member? {
      var one := One(ms.key, ms.v, c, found);
      if one.Some? { AddedIf(ms.rest, one.value.0, one.value.1); }
    }
  }

  lemma {:induction false} AddedBinding(ms: Members, c: Content, found: bool)
    requires Added(ms, c, found).Some?
    ensures Added(ms, c, found).value.0.binding ==
      if Named(ms, "binding") == [] then c.binding else LastOf(Named(ms, "binding"))
  {
    if ms.Member? {
      var one := One(ms.key, ms.v, c, found).value;
      AddedBinding(ms.rest, one.0, one.1);
    }
  }

  lemma {:induction false} AddedRows(ms: Members, c: Content, found: bool)
    requires Added(ms, c, found).Some? && forall v :: v in Named(ms, "spans") ==> v.Arr?
    ensures Added(ms, c, found).value.0.rows == c.rows + AllRows(Named(ms, "spans"))
  {
    if ms.Member? {
      var one := One(ms.key, ms.v, c, found).value;
      NamedStep(ms, "spans");
      AddedRows(ms.rest, one.0, one.1);
      if ms.key == "spans" {
        assert Named(ms, "spans")[1..] == Named(ms.rest, "spans");
        var more := AllRows(Named(ms.rest, "spans"));
        assert (c.rows + ListOf(ms.v.items)) + more == c.rows + (ListOf(ms.v.items) + more);
      }
    }
  }

  lemma {:induction false} AddedNext(ms: Members, c: Content, found: bool)
    requires Added(ms, c, found).Some?
    ensures Added(ms, c, found).value.0.next == Or(LastText(Named(ms, "next_cursor")), c.next)
  {
    hide LastText;
    if ms.Member? {
      var one := One(ms.key, ms.v, c, found).value;
      NamedStep(ms, "next_cursor");
      AddedNext(ms.rest, one.0, one.1);
      LastTextFirst(ms.v, Named(ms.rest, "next_cursor"));
    } else {
      NoText();
    }
  }

  lemma NoText()
    ensures LastText([]) == None
  {
  }

  /** An object adds up to a page exactly if it is one, and then to what it holds. */
  lemma ObjectIsPage(ms: Members)
    ensures Finished(Added(ms, NOTHING, false), Nil) == if IsPageObject(ms) then Some(ContentOf(ms)) else None
  {
    hide Added, Named, LastText, AllRows;
    AddedIf(ms, NOTHING, false);
    if IsPageObject(ms) {
      AddedBinding(ms, NOTHING, false);
      AddedRows(ms, NOTHING, false);
      AddedNext(ms, NOTHING, false);
      assert NOTHING.rows + AllRows(Named(ms, "spans")) == AllRows(Named(ms, "spans"));
    }
  }

  /** A text is accepted as a page exactly if it is a JSON object with spans, and nothing more; what is read is what
      the object holds, whatever the order of its members and whatever other members it has. */
  lemma PageExactly(src: Stream)
    ensures ReadPage(src).Some? <==> exists ms :: IsPageObject(ms) && src == Onto(ValueText(Obj(ms)), Nil)
    ensures forall ms ::
      IsPageObject(ms) && src == Onto(ValueText(Obj(ms)), Nil) ==> ReadPage(src) == Some(ContentOf(ms))
  {
    hide ReadPage, ParseValue, Added, Named, ValueText, Onto, IsPageObject, ContentOf;
    ReadPageIs(src);
    forall ms | src == Onto(ValueText(Obj(ms)), Nil)
      ensures ReadPage(src) == if IsPageObject(ms) then Some(ContentOf(ms)) else None
    {
      ParseExactly(src, Obj(ms), Nil);
      ObjectIsPage(ms);
    }
    if ReadPage(src).Some? {
      var ms := ParseValue(src).value.0.members;
      assert ParseValue(src) == Some((Obj(ms), Nil));
      ParseExactly(src, Obj(ms), Nil);
    }
  }
}
