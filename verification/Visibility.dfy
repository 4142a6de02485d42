/** What a caller may see, said about the table itself: the traces of a window, their positions in the
    scroll, and what a page of it is. */
module Visibility {
  import opened Basics
  import opened Order
  import opened Schema
  import opened SqlSyntax
  import opened SqlSemantics
  import opened SqlRows
  import opened Traces

  // ---- spans and traces -------------------------------------------------------------------------------

  /** A row has a trace id and a time. */
  predicate IsSpan(b: Binding, r: Row) {
    b.traceID in r && r[b.traceID].Str? && b.timestamp in r && r[b.timestamp].Num?
  }

  predicate HasName(b: Binding, r: Row) {
    b.spanName in r && r[b.spanName].Str?
  }

  predicate AllSpans(b: Binding, rows: seq<Row>) {
    forall r :: r in rows ==> IsSpan(b, r) && HasName(b, r)
  }

  predicate OfTrace(b: Binding, id: string, r: Row) {
    b.traceID in r && r[b.traceID] == Str(id)
  }

  function Time(b: Binding, r: Row): real {
    if b.timestamp in r && r[b.timestamp].Num? then r[b.timestamp].n else 0.0
  }

  predicate InWindow(b: Binding, w: Window, r: Row) {
    w.from <= Time(b, r) < w.to
  }

  /** The spans of a trace inside a window. */
  function TraceIn(b: Binding, w: Window, rows: seq<Row>, id: string): seq<Row> {
    Select((r: Row) => OfTrace(b, id, r) && InWindow(b, w, r), rows)
  }

  function Whole(b: Binding, rows: seq<Row>, id: string): seq<Row> {
    Select((r: Row) => OfTrace(b, id, r), rows)
  }

  /** The earliest time of some spans. */
  function Earliest(b: Binding, spans: seq<Row>): real {
    if |spans| <= 1 then (if spans == [] then 0.0 else Time(b, spans[0]))
    else if Earliest(b, spans[1..]) < Time(b, spans[0]) then Earliest(b, spans[1..])
    else Time(b, spans[0])
  }

  lemma {:induction false} EarliestIs(b: Binding, spans: seq<Row>)
    requires spans != []
    ensures exists r :: r in spans && Time(b, r) == Earliest(b, spans)
    ensures forall r :: r in spans ==> Earliest(b, spans) <= Time(b, r)
  {
    assert spans[0] in spans;
    assert spans == [spans[0]] + spans[1..];
    if |spans| > 1 {
      EarliestIs(b, spans[1..]);
      var r :| r in spans[1..] && Time(b, r) == Earliest(b, spans[1..]);
      assert r in spans;
    }
  }

  /** The latest time of some spans. */
  function Latest(b: Binding, spans: seq<Row>): real {
    if |spans| <= 1 then (if spans == [] then 0.0 else Time(b, spans[0]))
    else if Latest(b, spans[1..]) > Time(b, spans[0]) then Latest(b, spans[1..])
    else Time(b, spans[0])
  }

  lemma {:induction false} LatestIs(b: Binding, spans: seq<Row>)
    requires spans != []
    ensures exists r :: r in spans && Time(b, r) == Latest(b, spans)
    ensures forall r :: r in spans ==> Time(b, r) <= Latest(b, spans)
  {
    assert spans[0] in spans;
    assert spans == [spans[0]] + spans[1..];
    if |spans| > 1 {
      LatestIs(b, spans[1..]);
      var r :| r in spans[1..] && Time(b, r) == Latest(b, spans[1..]);
      assert r in spans;
    }
  }

  function NameOf(b: Binding, r: Row): string {
    if HasName(b, r) then r[b.spanName].s else ""
  }

  /** The name of the first of the earliest spans. */
  function RootName(b: Binding, spans: seq<Row>): string {
    if spans == [] then ""
    else if |spans| > 1 && Earliest(b, spans[1..]) < Time(b, spans[0]) then RootName(b, spans[1..])
    else NameOf(b, spans[0])
  }

  lemma {:induction false} RootIs(b: Binding, spans: seq<Row>)
    requires spans != []
    ensures exists r :: r in spans && Time(b, r) == Earliest(b, spans) && NameOf(b, r) == RootName(b, spans)
  {
    if |spans| > 1 && Earliest(b, spans[1..]) < Time(b, spans[0]) {
      RootIs(b, spans[1..]);
      var r :| r in spans[1..] && Time(b, r) == Earliest(b, spans[1..]) && NameOf(b, r) == RootName(b, spans[1..]);
      assert r in spans;
    } else {
      assert spans[0] in spans;
    }
  }

  predicate Some_(p: Row -> bool, spans: seq<Row>) {
    exists r :: r in spans && p(r)
  }

  // ---- the scroll ----------------------------------------------------------------------------------------

  predicate Below(c: Cursor, d: Cursor) {
    c.startNanos < d.startNanos || (c.startNanos == d.startNanos && StrLess(c.traceID, d.traceID))
  }

  predicate After(cur: Option<Cursor>, c: Cursor) {
    cur.None? || Below(c, cur.value)
  }

  lemma BelowOrder(c: Cursor, d: Cursor, e: Cursor)
    ensures !Below(c, c)
    ensures Below(c, d) && Below(d, e) ==> Below(c, e)
    ensures Below(c, d) || c == d || Below(d, c)
  {
    StrIrreflexive(c.traceID);
    StrTotal(c.traceID, d.traceID);
    if StrLess(c.traceID, d.traceID) && StrLess(d.traceID, e.traceID) {
      StrTransitive(c.traceID, d.traceID, e.traceID);
    }
  }

  /** A page: the positions of a set that come next after the cursor, newest first, up to the limit. */
  ghost predicate IsPage(page: seq<Cursor>, all: set<Cursor>, cur: Option<Cursor>, limit: nat) {
    && |page| <= limit
    && (forall i, j :: 0 <= i < j < |page| ==> Below(page[j], page[i]))
    && (forall c :: c in page ==> c in all && After(cur, c))
    && (forall c :: c in all && After(cur, c) && c !in page ==>
          |page| == limit && forall d :: d in page ==> Below(c, d))
  }

  function TraceIdsOf(b: Binding, rows: seq<Row>): set<string> {
    set r: Row | r in rows && b.traceID in r && r[b.traceID].Str? :: r[b.traceID].s
  }

  function Position(b: Binding, w: Window, rows: seq<Row>, id: string): Cursor {
    Cursor(Earliest(b, TraceIn(b, w, rows, id)), id)
  }

  /** A trace is listed if in the window one span admits it and one span, perhaps another, matches. */
  predicate Listed(b: Binding, w: Window, rows: seq<Row>, permits: Row -> bool, matches: Row -> bool, id: string) {
    Some_(permits, TraceIn(b, w, rows, id)) && Some_(matches, TraceIn(b, w, rows, id))
  }

  function Positions(b: Binding, w: Window, rows: seq<Row>, permits: Row -> bool, matches: Row -> bool): set<Cursor> {
    set id | id in TraceIdsOf(b, rows) && Listed(b, w, rows, permits, matches, id) :: Position(b, w, rows, id)
  }

  lemma TraceInIs(b: Binding, w: Window, rows: seq<Row>, id: string)
    ensures forall r :: r in TraceIn(b, w, rows, id) <==> r in rows && OfTrace(b, id, r) && InWindow(b, w, r)
    ensures forall r :: r in Whole(b, rows, id) <==> r in rows && OfTrace(b, id, r)
    ensures TraceIn(b, w, rows, id) != [] ==> id in TraceIdsOf(b, rows)
  {
    SelectIs((r: Row) => OfTrace(b, id, r) && InWindow(b, w, r), rows);
    SelectIs((r: Row) => OfTrace(b, id, r), rows);
    if TraceIn(b, w, rows, id) != [] {
      var r := TraceIn(b, w, rows, id)[0];
      assert r in TraceIn(b, w, rows, id);
    }
  }

  lemma PositionOfTrace(b: Binding, w: Window, rows: seq<Row>, permits: Row -> bool, matches: Row -> bool, c: Cursor)
    ensures c in Positions(b, w, rows, permits, matches) <==>
      Listed(b, w, rows, permits, matches, c.traceID) && c == Position(b, w, rows, c.traceID)
  {
    TraceInIs(b, w, rows, c.traceID);
    if Listed(b, w, rows, permits, matches, c.traceID) && c == Position(b, w, rows, c.traceID) {
      assert c.traceID in TraceIdsOf(b, rows);
    }
  }

  /** Questions with the same answers lead to the same traces. */
  lemma SamePositions(
    b: Binding, w: Window, rows: seq<Row>, permits: Row -> bool, permitsToo: Row -> bool, asks: Row -> bool,
    asksToo: Row -> bool)
    requires forall r :: r in rows ==> permits(r) == permitsToo(r) && asks(r) == asksToo(r)
    ensures Positions(b, w, rows, permits, asks) == Positions(b, w, rows, permitsToo, asksToo)
  {
    forall id | id in TraceIdsOf(b, rows)
      ensures Listed(b, w, rows, permits, asks, id) <==> Listed(b, w, rows, permitsToo, asksToo, id)
    {
      TraceInIs(b, w, rows, id);
    }
  }
}
