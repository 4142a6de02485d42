/** The list endpoint from end to end: what its answers hold, said about the stored model, the session, the filter
    and the table, and what a client gets who follows its cursors. */
module Endpoint {
  import opened Basics
  import opened Schema
  import SqlSyntax
  import SqlRoundTrip
  import SqlText
  import opened SqlSemantics
  import opened SqlRows
  import Expression
  import opened Policy
  import opened AccessModel
  import opened Traces
  import opened Reader
  import opened Visibility
  import opened ListMeaning
  import opened Scroll
  import opened Access
  import opened Filter
  import opened Handlers
  import opened Entitled

  /** What a list request is about: the session and the stored model, the window, the filter and the table. */
  datatype Setting = Setting(
    conn: Connection, conv: Conv, db: Db, m: Model, sess: Session, w: Window, cs: seq<Condition>, limit: nat,
    codec: Codec, parse: Parser)
  {
    /** The model compiles, and the table has the columns that the model and the filter name. */
    ghost predicate Fit() {
      && Compiles(m, parse) && ReadsTrue(parse) && Described(m.binding, m, db) && Faithful(conn, conv, db)
      && forall r :: r in db[m.binding.table] ==> FieldsFit(cs, Filterable(m.fields), r)
    }

    /** Where the traces are that have, in the window, a span the session may see and one that satisfies all
        conditions of the filter. */
    ghost function Due(): set<Cursor>
      requires Fit()
    {
      Positions(m.binding, w, db[m.binding.table], Sees(sess, m, conv, parse), Asks(cs, m.fields, conv))
    }

    /** An answer under some snapshot of the model. */
    ghost predicate Answers(r: Result<Answer, Refused>, cursor: string) {
      exists s :: Reflects(s, m, parse) && ListAnswered(r, conn, Some(s), sess, w, cs, cursor, limit, codec)
    }
  }

  /** The filter's tree asks the filter's question. */
  lemma TreeAsks(t: Option<SqlSyntax.Ast>, e: Setting)
    requires e.Fit() && FilterTree(t, e.cs, e.m.fields)
    ensures FilterIs(t, Asks(e.cs, e.m.fields, e.conv), e.conv, e.db, e.db[e.m.binding.table])
  {
    hide Eval, Built, Satisfies, Suits, Compiles, Faithful, ReadsTrue;
    if e.cs != [] {
      var u := AsksIs(e.cs, e.m.fields, e.conv, e.db, e.db[e.m.binding.table]);
      OneTree(t.value, u);
    }
  }

  /** Two well-formed trees with the same text and arguments are the same. */
  lemma OneTree(t: SqlSyntax.Ast, u: SqlSyntax.Ast)
    requires SqlRoundTrip.Wf(t) && SqlRoundTrip.Wf(u) && Expression.FragmentOf(t) == Expression.FragmentOf(u)
    ensures t == u
  {
    SqlText.ReadBackText(t);
    SqlText.ReadBackText(u);
  }

  /** Where the traces of an answer are. */
  function Places(a: Answer): seq<Cursor> {
    PositionsOf(a.traces)
  }

  /** Every answer that is no fault is the next page of the traces that are due, with the truth about each; it has a
      cursor exactly if it is full, which holds its last position and the filter it belongs to. */
  lemma AnswerIsPage(e: Setting, r: Result<Answer, Refused>, cursor: string)
    requires e.Fit() && e.limit >= 1 && e.Answers(r, cursor)
    requires r.Ok? || r.error == Unavailable
    ensures r.Ok? && (cursor == "" || e.codec.decode(cursor).Some?)
    ensures IsPage(Places(r.value), e.Due(), CursorOf(cursor, e.codec), e.limit)
    ensures forall t :: t in r.value.traces ==> Truthful(e.m.binding, e.w, e.db[e.m.binding.table], t)
    ensures r.value.nextCursor == if |Places(r.value)| < e.limit then None
      else Some(e.codec.encode(Places(r.value)[|Places(r.value)| - 1], FilterHash(e.cs, e.codec)))
  {
    hide Compiles, ReadsTrue, Described, Faithful, FieldsFit, FilterTree, FilterIs, Assembled, Reader.ListOf, Positions,
      IsPage, Sees, Asks, Truthful, FilterHash, Built, Setting.Due;
    var s :| Reflects(s, e.m, e.parse) && ListAnswered(r, e.conn, Some(s), e.sess, e.w, e.cs, cursor, e.limit, e.codec);
    assert s.schema == e.m;
    assert Fault(Some(s), e.cs, cursor, [], e.codec).None?;
    var cur, hash := CursorOf(cursor, e.codec), FilterHash(e.cs, e.codec);
    var q, t :| Assembled(q, e.sess, s) && FilterTree(t, e.cs, e.m.fields)
      && r == Answered(Reader.ListOf(e.conn, q, e.w, t, cur, e.limit), e.limit, hash, e.codec);
    ListedIsPage(e, s, q, t, cur);
    var page := Reader.ListOf(e.conn, q, e.w, t, cur, e.limit).value;
    PageFits(PositionsOf(page.traces), e.Due(), cur, e.limit);
    CursorIsLast(page, e.limit, hash, e.codec);
  }

  lemma PageFits(page: seq<Cursor>, all: set<Cursor>, cur: Option<Cursor>, limit: nat)
    requires IsPage(page, all, cur, limit)
    ensures |page| <= limit
  {
  }

  lemma CursorIsLast(page: ListResult, limit: nat, hash: string, codec: Codec)
    requires page == ResultOf(page.traces) && |page.traces| <= limit && limit >= 1
    ensures var ps := PositionsOf(page.traces);
      Answered(Ok(page), limit, hash, codec).value.nextCursor ==
        if |ps| < limit then None else Some(codec.encode(ps[|ps| - 1], hash))
  {
  }

  lemma ListedIsPage(e: Setting, s: Snapshot, q: Request, t: Option<SqlSyntax.Ast>, cur: Option<Cursor>)
    requires e.Fit() && Reflects(s, e.m, e.parse) && Assembled(q, e.sess, s) && FilterTree(t, e.cs, e.m.fields)
    ensures var r := Reader.ListOf(e.conn, q, e.w, t, cur, e.limit);
      && r.Ok? && r.value == ResultOf(r.value.traces)
      && IsPage(PositionsOf(r.value.traces), e.Due(), cur, e.limit)
      && forall x :: x in r.value.traces ==> Truthful(e.m.binding, e.w, e.db[e.m.binding.table], x)
  {
    hide Compiles, ReadsTrue, Described, Faithful, FieldsFit, FilterTree, FilterIs, Reader.ListOf, Positions, IsPage,
      Sees, Asks, Truthful;
    TreeAsks(t, e);
    assert q.binding == e.m.binding;
    ListShows(e.conn, e.conv, e.db, q, e.sess, s, e.m, e.parse, e.w, t, Asks(e.cs, e.m.fields, e.conv), cur, e.limit);
  }

  /** A filter that the model accepts is answered, from the start and from every cursor handed out under it. */
  lemma AcceptedIsAnswered(e: Setting, r: Result<Answer, Refused>, c: Option<Cursor>)
    requires e.Fit() && e.limit >= 1 && Exact(e.codec) && (e.cs == [] || Built(e.cs, e.m.fields).Ok?)
    requires e.Answers(r, match c case None => "" case Some(at) => e.codec.encode(at, FilterHash(e.cs, e.codec)))
    ensures r.Ok? && IsPage(Places(r.value), e.Due(), c, e.limit)
  {
    hide Compiles, ReadsTrue, Faithful, FieldsFit, Assembled, Reader.ListOf, Positions, IsPage, FilterHash, Built,
      Setting.Due;
    var cursor := match c case None => "" case Some(at) => e.codec.encode(at, FilterHash(e.cs, e.codec));
    var s :| Reflects(s, e.m, e.parse) && ListAnswered(r, e.conn, Some(s), e.sess, e.w, e.cs, cursor, e.limit, e.codec);
    assert Ready(s) by { TableNamed(e.m.binding.table); }
    assert Fault(Some(s), e.cs, cursor, [], e.codec).None?;
    AnswerIsPage(e, r, cursor);
  }

  lemma TableNamed(table: string)
    requires ValidTable(table)
    ensures table != ""
  {
  }

  // ---- following the cursors --------------------------------------------------------------------------------------

  /** The answers to a client that starts without a cursor and sends each one it gets. */
  ghost predicate Walks(e: Setting, answers: seq<Answer>) {
    answers == [] ||
    (var before := answers[..|answers| - 1];
     && Walks(e, before) && (before != [] ==> before[|before| - 1].nextCursor.Some?)
     && e.Answers(Ok(answers[|answers| - 1]), if before == [] then "" else before[|before| - 1].nextCursor.value))
  }

  /** Where the traces of some answers are, answer by answer. */
  function PlacesOf(answers: seq<Answer>): (ps: seq<seq<Cursor>>)
    ensures |ps| == |answers|
  {
    if answers == [] then [] else PlacesOf(answers[..|answers| - 1]) + [Places(answers[|answers| - 1])]
  }

  /** What is known of the last of some answers. */
  ghost predicate EndsWell(e: Setting, answers: seq<Answer>) {
    answers != [] ==>
      (var last := answers[|answers| - 1];
       var ps := Places(last);
       && |ps| <= e.limit && PlacesOf(answers)[|answers| - 1] == ps
       && last.nextCursor == if ps == [] || |ps| < e.limit then None
            else Some(e.codec.encode(ps[|ps| - 1], FilterHash(e.cs, e.codec))))
  }

  lemma {:induction false} WalkFollows(e: Setting, answers: seq<Answer>)
    requires e.Fit() && e.limit >= 1 && Exact(e.codec) && Walks(e, answers)
    ensures Follows(PlacesOf(answers), e.Due(), e.limit) && EndsWell(e, answers)
    decreases |answers|
  {
    hide Setting.Fit, Setting.Due, Follows, Flatten, FilterHash, Setting.Answers;
    if answers == [] {
      FollowsNothing(e.Due(), e.limit);
    } else {
      var before, last := answers[..|answers| - 1], answers[|answers| - 1];
      WalkFollows(e, before);
      var cursor := if before == [] then "" else before[|before| - 1].nextCursor.value;
      AnswerIsPage(e, Ok(last), cursor);
      if before == [] { FlattenNothing(); } else { FlattenEnds(PlacesOf(before)); }
      FollowsMore(PlacesOf(before), Places(last), e.Due(), e.limit);
      PageFits(Places(last), e.Due(), CursorOf(cursor, e.codec), e.limit);
    }
  }

  /** Whoever follows the cursors of the list until an answer has none has been told of every trace that is due,
      exactly once, newest first, and of no other. */
  lemma WalkVisitsAll(e: Setting, answers: seq<Answer>)
    requires e.Fit() && e.limit >= 1 && Exact(e.codec) && Walks(e, answers)
    requires answers != [] && answers[|answers| - 1].nextCursor.None?
    ensures var all := Flatten(PlacesOf(answers));
      Descending(all) && (forall c :: c in all <==> c in e.Due()) && |all| == |e.Due()|
  {
    hide Setting.Fit, Setting.Due, Follows, Flatten, FilterHash, Walks, Descending;
    WalkFollows(e, answers);
    ScrollVisitsAll(PlacesOf(answers), e.Due(), e.limit);
  }

  /** And there is an end to it. */
  lemma WalkEnds(e: Setting, answers: seq<Answer>)
    requires e.Fit() && e.limit >= 1 && Exact(e.codec) && Walks(e, answers) && answers != []
    ensures (|answers| - 1) * e.limit <= |e.Due()|
  {
    hide Setting.Fit, Setting.Due, Flatten, FilterHash, Walks;
    WalkFollows(e, answers);
    var listing := PlacesOf(answers);
    AllButLast(listing, e.Due(), e.limit);
    ScrollEnds(listing[..|listing| - 1], e.Due(), e.limit);
  }
}
