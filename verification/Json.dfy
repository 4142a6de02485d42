/** JSON texts as tokens, and a decoder that reads them token by token or value by value (sections 4 and 5 of
    RFC 8259): which tokens may come next depends on where in an object or array it stands. */
module Json {
  import opened Basics

  datatype JTok = LBrace | RBrace | LBracket | RBracket | Colon | Comma | Text(s: string) | Atom(a: string)

  /** Tokens still to be read. */
  datatype Stream = Nil | Cons(head: JTok, tail: Stream)

  datatype Value = Str(s: string) | Other(a: string) | Arr(items: Values) | Obj(members: Members)

  datatype Values = NoValue | More(v: Value, rest: Values)

  datatype Members = NoMember | Member(key: string, v: Value, rest: Members)

  // ---- printing --------------------------------------------------------------------------------------

  function ValueText(v: Value): seq<JTok> {
    match v
    case Str(s) => [Text(s)]
    case Other(a) => [Atom(a)]
    case Arr(items) => [LBracket] + (ItemsText(items) + [RBracket])
    case Obj(members) => [LBrace] + (MembersText(members) + [RBrace])
  }

  function ItemsText(items: Values): seq<JTok> {
    match items
    case NoValue => []
    case More(v, NoValue) => ValueText(v)
    case More(v, rest) => ValueText(v) + ([Comma] + ItemsText(rest))
  }

  function MembersText(members: Members): seq<JTok> {
    match members
    case NoMember => []
    case Member(k, v, NoMember) => [Text(k), Colon] + ValueText(v)
    case Member(k, v, rest) => [Text(k), Colon] + (ValueText(v) + ([Comma] + MembersText(rest)))
  }

  // ---- streams -----------------------------------------------------------------------------------------

  function Onto(s: seq<JTok>, ts: Stream): Stream {
    if s == [] then ts else Cons(s[0], Onto(s[1..], ts))
  }

  ghost function Size(ts: Stream): nat {
    match ts case Nil => 0 case Cons(_, rest) => 1 + Size(rest)
  }

  lemma {:induction false} OntoTwo(s: seq<JTok>, t: seq<JTok>, ts: Stream)
    ensures Onto(s + t, ts) == Onto(s, Onto(t, ts))
  {
    if s == [] {
      assert s + t == t;
    } else {
      OntoTwo(s[1..], t, ts);
      assert (s + t)[1..] == s[1..] + t;
    }
  }

  lemma OntoOne(t: JTok, ts: Stream)
    ensures Onto([t], ts) == Cons(t, ts)
  {
    assert Onto([t][1..], ts) == ts;
  }

  lemma OntoPair(t: JTok, u: JTok, ts: Stream)
    ensures Onto([t, u], ts) == Cons(t, Cons(u, ts))
  {
    assert [t, u][1..] == [u];
    OntoOne(u, ts);
  }

  // ---- reading a value -----------------------------------------------------------------------------------

  function ParseValue(ts: Stream): (p: Option<(Value, Stream)>)
    ensures p.Some? ==> Size(p.value.1) < Size(ts)
    decreases Size(ts), 1
  {
    match ts
    case Cons(Text(s), rest) => Some((Str(s), rest))
    case Cons(Atom(a), rest) => Some((Other(a), rest))
    case Cons(LBracket, Cons(RBracket, rest)) => Some((Arr(NoValue), rest))
    case Cons(LBracket, rest) =>
      (match ParseItems(rest) case None => None case Some((items, after)) => Some((Arr(items), after)))
    case Cons(LBrace, Cons(RBrace, rest)) => Some((Obj(NoMember), rest))
    case Cons(LBrace, rest) =>
      (match ParseMembers(rest) case None => None case Some((members, after)) => Some((Obj(members), after)))
    case _ => None
  }

  /** The rest of an array that is not empty, up to and with its closing bracket. */
  function ParseItems(ts: Stream): (p: Option<(Values, Stream)>)
    ensures p.Some? ==> Size(p.value.1) < Size(ts)
    decreases Size(ts), 2
  {
    match ParseValue(ts)
    case None => None
    case Some((v, Cons(RBracket, after))) => Some((More(v, NoValue), after))
    case Some((v, Cons(Comma, more))) =>
      (match ParseItems(more) case None => None case Some((rest, after)) => Some((More(v, rest), after)))
    case Some(_) => None
  }

  function ParseMembers(ts: Stream): (p: Option<(Members, Stream)>)
    ensures p.Some? ==> Size(p.value.1) < Size(ts)
    decreases Size(ts), 2
  {
    match ts
    case Cons(Text(k), Cons(Colon, rest)) =>
      assert Size(ts.tail) == 1 + Size(rest);
      (match ParseValue(rest)
       case None => None
       case Some((v, Cons(RBrace, after))) => Some((Member(k, v, NoMember), after))
       case Some((v, Cons(Comma, more))) =>
         (match ParseMembers(more) case None => None case Some((ms, after)) => Some((Member(k, v, ms), after)))
       case Some(_) => None)
    case _ => None
  }

  /** A printed value is read back, whatever follows it. */
  lemma {:induction false} ReadBack(v: Value, ts: Stream)
    ensures ParseValue(Onto(ValueText(v), ts)) == Some((v, ts))
    decreases v
  {
    match v
    case Str(s) => OntoOne(Text(s), ts);
    case Other(a) => OntoOne(Atom(a), ts);
    case Arr(items) =>
      OntoTwo([LBracket], ItemsText(items) + [RBracket], ts);
      OntoOne(LBracket, Onto(ItemsText(items) + [RBracket], ts));
      OntoTwo(ItemsText(items), [RBracket], ts);
      OntoOne(RBracket, ts);
      if items.More? { ReadBackItems(items, ts); ItemsOpen(items, Cons(RBracket, ts)); }
    case Obj(members) =>
      OntoTwo([LBrace], MembersText(members) + [RBrace], ts);
      OntoOne(LBrace, Onto(MembersText(members) + [RBrace], ts));
      OntoTwo(MembersText(members), [RBrace], ts);
      OntoOne(RBrace, ts);
      if members.Member? { ReadBackMembers(members, ts); MembersOpen(members, Cons(RBrace, ts)); }
  }

  lemma {:induction false} ReadBackItems(items: Values, ts: Stream)
    requires items.More?
    ensures ParseItems(Onto(ItemsText(items), Cons(RBracket, ts))) == Some((items, ts))
    decreases items
  {
    if items.rest.NoValue? {
      ReadBack(items.v, Cons(RBracket, ts));
    } else {
      var after := Onto(ItemsText(items.rest), Cons(RBracket, ts));
      OntoTwo(ValueText(items.v), [Comma] + ItemsText(items.rest), Cons(RBracket, ts));
      OntoTwo([Comma], ItemsText(items.rest), Cons(RBracket, ts));
      OntoOne(Comma, after);
      ReadBack(items.v, Cons(Comma, after));
      ReadBackItems(items.rest, ts);
    }
  }

  lemma {:induction false} ReadBackMembers(members: Members, ts: Stream)
    requires members.Member?
    ensures ParseMembers(Onto(MembersText(members), Cons(RBrace, ts))) == Some((members, ts))
    decreases members
  {
    var head := [Text(members.key), Colon];
    if members.rest.NoMember? {
      OntoTwo(head, ValueText(members.v), Cons(RBrace, ts));
      OntoPair(Text(members.key), Colon, Onto(ValueText(members.v), Cons(RBrace, ts)));
      ReadBack(members.v, Cons(RBrace, ts));
    } else {
      var after := Onto(MembersText(members.rest), Cons(RBrace, ts));
      OntoTwo(head, ValueText(members.v) + ([Comma] + MembersText(members.rest)), Cons(RBrace, ts));
      OntoTwo(ValueText(members.v), [Comma] + MembersText(members.rest), Cons(RBrace, ts));
      OntoTwo([Comma], MembersText(members.rest), Cons(RBrace, ts));
      OntoOne(Comma, after);
      OntoPair(Text(members.key), Colon, Onto(ValueText(members.v), Cons(Comma, after)));
      ReadBack(members.v, Cons(Comma, after));
      ReadBackMembers(members.rest, ts);
    }
  }

  predicate Opens(t: JTok) {
    t.LBrace? || t.LBracket? || t.Text? || t.Atom?
  }

  lemma ValueOpens(v: Value)
    ensures ValueText(v) != [] && Opens(ValueText(v)[0])
  {
  }

  lemma ItemsOpen(items: Values, ts: Stream)
    requires items.More?
    ensures ItemsText(items) != [] && Opens(ItemsText(items)[0])
    ensures Onto(ItemsText(items), ts).Cons? && Onto(ItemsText(items), ts).head == ItemsText(items)[0]
  {
    ValueOpens(items.v);
  }

  lemma MembersOpen(members: Members, ts: Stream)
    requires members.Member?
    ensures Onto(MembersText(members), ts).Cons? && Onto(MembersText(members), ts).head == Text(members.key)
  {
  }

  // ---- nesting ---------------------------------------------------------------------------------------------

  function Weight(t: JTok): int {
    match t case LBrace => 1 case LBracket => 1 case RBrace => -1 case RBracket => -1 case _ => 0
  }

  /** Opening brackets less closing ones. */
  function Depth(s: seq<JTok>): int {
    if s == [] then 0 else Weight(s[0]) + Depth(s[1..])
  }

  function StreamDepth(ts: Stream): int {
    match ts case Nil => 0 case Cons(t, rest) => Weight(t) + StreamDepth(rest)
  }

  lemma {:induction false} DepthTwo(s: seq<JTok>, t: seq<JTok>)
    ensures Depth(s + t) == Depth(s) + Depth(t)
  {
    if s == [] {
      assert s + t == t;
    } else {
      DepthTwo(s[1..], t);
      assert (s + t)[1..] == s[1..] + t;
    }
  }

  lemma {:induction false} OntoDepth(s: seq<JTok>, ts: Stream)
    ensures StreamDepth(Onto(s, ts)) == Depth(s) + StreamDepth(ts)
  {
    if s != [] { OntoDepth(s[1..], ts); }
  }

  /** A text that never closes more than it has opened. */
  predicate Nested(s: seq<JTok>) {
    forall k :: 0 <= k <= |s| ==> Depth(s[..k]) >= 0
  }

  lemma NestedTwo(s: seq<JTok>, t: seq<JTok>)
    requires Nested(s) && Nested(t)
    ensures Nested(s + t)
  {
    assert s[..|s|] == s;
    forall k | 0 <= k <= |s + t| ensures Depth((s + t)[..k]) >= 0 {
      if k <= |s| {
        assert (s + t)[..k] == s[..k];
      } else {
        assert (s + t)[..k] == s + t[..k - |s|];
        DepthTwo(s, t[..k - |s|]);
      }
    }
  }

  /** Inside brackets the nesting is one deeper. */
  lemma PrefixInside(open: JTok, s: seq<JTok>, close: JTok, k: nat)
    requires Nested(s) && Weight(open) == 1 && 0 < k <= |s| + 1
    ensures Depth(([open] + (s + [close]))[..k]) >= 1
  {
    var w := [open] + (s + [close]);
    assert w[..k] == [open] + s[..k - 1];
    DepthTwo([open], s[..k - 1]);
    DepthOne(open);
  }

  /** Anything balanced stays so in brackets. */
  lemma NestedInside(open: JTok, s: seq<JTok>, close: JTok)
    requires Nested(s) && Depth(s) == 0 && Weight(open) == 1 && Weight(close) == -1
    ensures var w := [open] + (s + [close]); Nested(w) && Depth(w) == 0
  {
    hide Depth;
    var w := [open] + (s + [close]);
    DepthTwo([open], s + [close]);
    DepthTwo(s, [close]);
    DepthOne(open);
    DepthOne(close);
    DepthNone();
    forall k | 0 <= k <= |w| ensures Depth(w[..k]) >= 0 {
      if 0 < k <= |s| + 1 {
        PrefixInside(open, s, close, k);
      } else if k == 0 {
        assert w[..k] == [];
      } else {
        assert w[..k] == w;
      }
    }
  }

  lemma DepthNone()
    ensures Depth([]) == 0
  {
  }

  lemma DepthOne(t: JTok)
    ensures Depth([t]) == Weight(t)
  {
    assert Depth([t][1..]) == 0;
  }

  lemma NestedScalars(s: seq<JTok>)
    requires forall t :: t in s ==> Weight(t) == 0
    ensures Nested(s) && Depth(s) == 0
  {
    if s != [] {
      assert s[0] in s;
      NestedScalars(s[1..]);
      forall k | 0 < k <= |s| ensures Depth(s[..k]) >= 0 {
        assert s[..k][1..] == s[1..][..k - 1];
      }
    }
  }

  lemma {:induction false} ValueNested(v: Value)
    ensures Nested(ValueText(v)) && Depth(ValueText(v)) == 0
    decreases v
  {
    match v
    case Str(s) => NestedScalars([Text(s)]);
    case Other(a) => NestedScalars([Atom(a)]);
    case Arr(items) => ItemsNested(items); NestedInside(LBracket, ItemsText(items), RBracket);
    case Obj(members) => MembersNested(members); NestedInside(LBrace, MembersText(members), RBrace);
  }

  lemma {:induction false} ItemsNested(items: Values)
    ensures Nested(ItemsText(items)) && Depth(ItemsText(items)) == 0
    decreases items
  {
    if items.More? {
      ValueNested(items.v);
      ItemsNested(items.rest);
      NestedScalars([Comma]);
      NestedTwo([Comma], ItemsText(items.rest));
      DepthTwo([Comma], ItemsText(items.rest));
      NestedTwo(ValueText(items.v), [Comma] + ItemsText(items.rest));
      DepthTwo(ValueText(items.v), [Comma] + ItemsText(items.rest));
    } else {
      NestedScalars([]);
    }
  }

  lemma {:induction false} MembersNested(members: Members)
    ensures Nested(MembersText(members)) && Depth(MembersText(members)) == 0
    decreases members
  {
    if members.Member? {
      var head, after := [Text(members.key), Colon], [Comma] + MembersText(members.rest);
      ValueNested(members.v);
      MembersNested(members.rest);
      NestedScalars(head);
      NestedScalars([Comma]);
      NestedTwo([Comma], MembersText(members.rest));
      DepthTwo([Comma], MembersText(members.rest));
      NestedTwo(ValueText(members.v), after);
      DepthTwo(ValueText(members.v), after);
      NestedTwo(head, ValueText(members.v) + after);
      DepthTwo(head, ValueText(members.v) + after);
      NestedTwo(head, ValueText(members.v));
      DepthTwo(head, ValueText(members.v));
    } else {
      NestedScalars([]);
    }
  }

  /** Reading a value leaves the nesting of the stream as it was. */
  lemma {:induction false} ParseKeepsDepth(ts: Stream)
    ensures ParseValue(ts).Some? ==> StreamDepth(ParseValue(ts).value.1) == StreamDepth(ts)
    decreases Size(ts), 1
  {
    match ts
    case Cons(LBracket, Cons(RBracket, rest)) =>
    case Cons(LBracket, rest) => ItemsKeepDepth(rest);
    case Cons(LBrace, Cons(RBrace, rest)) =>
    case Cons(LBrace, rest) => MembersKeepDepth(rest);
    case _ =>
  }

  lemma {:induction false} ItemsKeepDepth(ts: Stream)
    ensures ParseItems(ts).Some? ==> StreamDepth(ParseItems(ts).value.1) == StreamDepth(ts) + 1
    decreases Size(ts), 2
  {
    ParseKeepsDepth(ts);
    match ParseValue(ts)
    case Some((v, Cons(Comma, more))) => ItemsKeepDepth(more);
    case _ =>
  }

  lemma {:induction false} MembersKeepDepth(ts: Stream)
    ensures ParseMembers(ts).Some? ==> StreamDepth(ParseMembers(ts).value.1) == StreamDepth(ts) + 1
    decreases Size(ts), 2
  {
    match ts
    case Cons(Text(k), Cons(Colon, rest)) =>
      assert Size(ts.tail) == 1 + Size(rest);
      ParseKeepsDepth(rest);
      match ParseValue(rest) {
        case Some((v, Cons(Comma, more))) => MembersKeepDepth(more);
        case _ =>
      }
    case _ =>
  }
}
