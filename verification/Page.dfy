/** One page of spans on the wire: how the server streams it out and how a client reads it in. */
module Page {
  import opened Basics
  import opened Json

  // ---- the decoder -------------------------------------------------------------------------------------

  /** Where a decoder stands: before a value, a key, a colon or a comma. */
  datatype Place =
    | TopValue | ArrayStart | ArrayValue | ArrayComma
    | ObjectStart | ObjectKey | ObjectColon | ObjectValue | ObjectComma

  datatype Decoder = Decoder(src: Stream, place: Place, stack: seq<Place>)

  predicate ValueAllowed(p: Place) {
    p.TopValue? || p.ArrayStart? || p.ArrayValue? || p.ObjectValue?
  }

  function ValueEnd(p: Place): Place {
    if p.ArrayStart? || p.ArrayValue? then ArrayComma else if p.ObjectValue? then ObjectComma else p
  }

  /** Whether another element follows in the current object or array. */
  predicate More(d: Decoder) {
    d.src.Cons? && !d.src.head.RBracket? && !d.src.head.RBrace?
  }

  /** The next token; commas and colons are checked and skipped. */
  function Token(d: Decoder): (r: Option<(JTok, Decoder)>)
    ensures r.Some? ==> Size(r.value.1.src) < Size(d.src)
    decreases Size(d.src)
  {
    if d.src.Nil? then None
    else
      var rest := d.src.tail;
      match d.src.head
      case LBracket =>
        if !ValueAllowed(d.place) then None else Some((LBracket, Decoder(rest, ArrayStart, [d.place] + d.stack)))
      case LBrace =>
        if !ValueAllowed(d.place) then None else Some((LBrace, Decoder(rest, ObjectStart, [d.place] + d.stack)))
      case RBracket =>
        if (!d.place.ArrayStart? && !d.place.ArrayComma?) || d.stack == [] then None
        else Some((RBracket, Decoder(rest, ValueEnd(d.stack[0]), d.stack[1..])))
      case RBrace =>
        if (!d.place.ObjectStart? && !d.place.ObjectComma?) || d.stack == [] then None
        else Some((RBrace, Decoder(rest, ValueEnd(d.stack[0]), d.stack[1..])))
      case Colon => if !d.place.ObjectColon? then None else Token(Decoder(rest, ObjectValue, d.stack))
      case Comma =>
        if d.place.ArrayComma? then Token(Decoder(rest, ArrayValue, d.stack))
        else if d.place.ObjectComma? then Token(Decoder(rest, ObjectKey, d.stack))
        else None
      case Text(s) =>
        if d.place.ObjectStart? || d.place.ObjectKey? then Some((Text(s), Decoder(rest, ObjectColon, d.stack)))
        else if ValueAllowed(d.place) then Some((Text(s), Decoder(rest, ValueEnd(d.place), d.stack)))
        else None
      case Atom(a) => if ValueAllowed(d.place) then Some((Atom(a), Decoder(rest, ValueEnd(d.place), d.stack))) else None
  }

  /** Skips the punctuation in front of a value. */
  function Prepared(d: Decoder): (r: Option<Decoder>)
    ensures r.Some? ==> Size(r.value.src) <= Size(d.src)
  {
    if d.place.ArrayComma? then
      if d.src.Cons? && d.src.head.Comma? then Some(Decoder(d.src.tail, ArrayValue, d.stack)) else None
    else if d.place.ObjectColon? then
      if d.src.Cons? && d.src.head.Colon? then Some(Decoder(d.src.tail, ObjectValue, d.stack)) else None
    else Some(d)
  }

  /** The next whole value. */
  function Decode(d: Decoder): (r: Option<(Value, Decoder)>)
    ensures r.Some? ==> Size(r.value.1.src) < Size(d.src)
  {
    match Prepared(d)
    case None => None
    case Some(p) =>
      if !ValueAllowed(p.place) then None
      else
        match ParseValue(p.src)
        case None => None
        case Some((v, rest)) => Some((v, Decoder(rest, ValueEnd(p.place), p.stack)))
  }

  // ---- reading a page -------------------------------------------------------------------------------------

  datatype Content = Content(binding: Option<Value>, rows: seq<Value>, next: string)

  function ReadRows(d: Decoder, rows: seq<Value>): (r: Option<(seq<Value>, Decoder)>)
    ensures r.Some? ==> Size(r.value.1.src) <= Size(d.src)
    decreases Size(d.src)
  {
    if !More(d) then Some((rows, d))
    else match Decode(d) case None => None case Some((v, d1)) => ReadRows(d1, rows + [v])
  }

  function ReadSpans(d: Decoder, rows: seq<Value>): (r: Option<(seq<Value>, Decoder)>)
    ensures r.Some? ==> Size(r.value.1.src) < Size(d.src)
  {
    match Token(d)
    case Some((LBracket, d1)) =>
      (match ReadRows(d1, rows)
       case None => None
       case Some((all, d2)) => match Token(d2) case Some((RBracket, d3)) => Some((all, d3)) case _ => None)
    case _ => None
  }

  /** The members of a page, in any order; unknown ones are skipped. */
  function ReadMembers(d: Decoder, c: Content, found: bool): Option<(Content, bool, Decoder)>
    decreases Size(d.src)
  {
    if !More(d) then Some((c, found, d))
    else
      match Token(d)
      case None => None
      case Some((key, d1)) =>
        if key == Text("spans") then
          match ReadSpans(d1, c.rows) case None => None case Some((all, d2)) => ReadMembers(d2, c.(rows := all), true)
        else
          match Decode(d1)
          case None => None
          case Some((v, d2)) =>
            if key == Text("binding") then ReadMembers(d2, c.(binding := Some(v)), found)
            else if key != Text("next_cursor") then ReadMembers(d2, c, found)
            else if v.Str? then ReadMembers(d2, c.(next := v.s), found)
            else if v == Other("null") then ReadMembers(d2, c, found)
            else None
  }

  function Ended(c: Content, found: bool, d: Decoder): Option<Content> {
    match Token(d) case Some((RBrace, after)) => if found && after.src.Nil? then Some(c) else None case _ => None
  }

  /** The content of a text that is a complete page and nothing more. */
  function ReadPage(src: Stream): Option<Content> {
    match Token(Decoder(src, TopValue, []))
    case Some((LBrace, d)) =>
      (match ReadMembers(d, Content(None, [], ""), false)
       case None => None
       case Some((c, found, d1)) => Ended(c, found, d1))
    case _ => None
  }

  lemma {:induction false} RowsExtend(d: Decoder, rows: seq<Value>)
    ensures ReadRows(d, rows).Some? ==> rows <= ReadRows(d, rows).value.0
    decreases Size(d.src)
  {
    hide Decode;
    if More(d) && Decode(d).Some? { RowsExtend(Decode(d).value.1, rows + [Decode(d).value.0]); }
  }

  lemma {:induction false} MembersExtend(d: Decoder, c: Content, found: bool)
    ensures ReadMembers(d, c, found).Some? ==> c.rows <= ReadMembers(d, c, found).value.0.rows
    decreases Size(d.src)
  {
    hide Decode, Token, More, ReadSpans;
    if More(d) && Token(d).Some? {
      var d1 := Token(d).value.1;
      if Token(d).value.0 == Text("spans") {
        if ReadSpans(d1, c.rows).Some? {
          var (all, d2) := ReadSpans(d1, c.rows).value;
          SpansKeep(d1, c.rows);
          MembersExtend(d2, c.(rows := all), true);
        }
      } else if Decode(d1).Some? {
        var (v, d2) := Decode(d1).value;
        MembersExtend(d2, c.(binding := Some(v)), found);
        MembersExtend(d2, c, found);
        if v.Str? { MembersExtend(d2, c.(next := v.s), found); }
      }
    }
  }

  lemma SpansKeep(d: Decoder, rows: seq<Value>)
    ensures ReadSpans(d, rows).Some? ==> rows <= ReadSpans(d, rows).value.0
  {
    hide Token, ReadRows;
    if Token(d).Some? { RowsExtend(Token(d).value.1, rows); }
  }

  /** A page whose array of spans begins with some rows has at least those. */
  lemma SpansExtend(d: Decoder, c: Content, found: bool, some: seq<Value>)
    requires More(d) && Token(d).Some? && Token(d).value.0 == Text("spans")
    requires var d1 := Token(d).value.1;
      Token(d1).Some? && Token(d1).value.0 == LBracket
      && (ReadRows(Token(d1).value.1, c.rows).Some? ==> some <= ReadRows(Token(d1).value.1, c.rows).value.0)
    ensures ReadMembers(d, c, found).Some? ==> |some| <= |ReadMembers(d, c, found).value.0.rows|
  {
    hide Token, More, ReadRows, Decode;
    var d1 := Token(d).value.1;
    if ReadSpans(d1, c.rows).Some? {
      var (all, d2) := ReadSpans(d1, c.rows).value;
      MembersExtend(d2, c.(rows := all), true);
    }
  }

  /** A file that rows are appended to, as long as there is room. */
  class File {
    var lines: seq<Value>
    var room: nat

    constructor (room: nat)
      ensures lines == [] && this.room == room
    {
      lines, this.room := [], room;
    }

    method Write(v: Value) returns (ok: bool)
      modifies this
      ensures ok == (old(room) > 0)
      ensures ok ==> lines == old(lines) + [v] && room == old(room) - 1
      ensures !ok ==> lines == old(lines) && room == old(room)
    {
      ok := room > 0;
      if ok { lines, room := lines + [v], room - 1; }
    }
  }

  datatype PageResult = PageResult(binding: Option<Value>, next: string, count: nat)

  datatype PageError = Malformed | FileFull

  /** Reads a page and appends its rows to a file as they come. A text that is not a complete page is refused,
      even though some of its rows may have been appended by then. */
  method DecodePage(src: Stream, dst: File) returns (r: Result<PageResult, PageError>)
    modifies dst
    ensures r.Ok? <==> ReadPage(src).Some? && |ReadPage(src).value.rows| <= old(dst.room)
    ensures r.Ok? ==>
      (var c := ReadPage(src).value;
       && r.value == PageResult(c.binding, c.next, |c.rows|)
       && dst.lines == old(dst.lines) + c.rows && dst.room == old(dst.room) - |c.rows|)
    ensures old(dst.lines) <= dst.lines
  {
    hide Token, Decode, More;
    var tok := Token(Decoder(src, TopValue, []));
    if tok.None? || tok.value.0 != LBrace { return Err(Malformed); }
    var dec := tok.value.1;
    var binding: Option<Value>, next, count, foundSpans := None, "", 0, false;
    ghost var rows: seq<Value> := [];
    ghost var total := ReadMembers(dec, Content(None, [], ""), false);
    while More(dec)
      invariant ReadMembers(dec, Content(binding, rows, next), foundSpans) == total
      invariant dst.lines == old(dst.lines) + rows && count == |rows| && dst.room == old(dst.room) - count
      decreases Size(dec.src)
    {
      tok := Token(dec);
      if tok.None? { return Err(Malformed); }
      var key := tok.value.0;
      ghost var before := dec;
      dec := tok.value.1;
      if key == Text("spans") {
        var open := Token(dec);
        if open.None? || open.value.0 != LBracket { return Err(Malformed); }
        ghost var start, startRows := dec, rows;
        dec := open.value.1;
        while More(dec)
          invariant Size(dec.src) < Size(before.src)
          invariant ReadRows(dec, rows) == ReadRows(open.value.1, startRows)
          invariant dst.lines == old(dst.lines) + rows && count == |rows| && dst.room == old(dst.room) - count
          decreases Size(dec.src)
        {
          var span := Decode(dec);
          if span.None? { return Err(Malformed); }
          dec := span.value.1;
          var ok := dst.Write(span.value.0);
          if !ok {
            RowsExtend(dec, rows + [span.value.0]);
            SpansExtend(before, Content(binding, startRows, next), foundSpans, rows + [span.value.0]);
            return Err(FileFull);
          }
          rows := rows + [span.value.0];
          count := count + 1;
        }
        var close := Token(dec);
        if close.None? || close.value.0 != RBracket { return Err(Malformed); }
        dec := close.value.1;
        foundSpans := true;
      } else {
        var value := Decode(dec);
        if value.None? { return Err(Malformed); }
        dec := value.value.1;
        if key == Text("binding") {
          binding := Some(value.value.0);
        } else if key == Text("next_cursor") {
          if value.value.0.Str? {
            next := value.value.0.s;
          } else if value.value.0 != Other("null") {
            return Err(Malformed);
          }
        }
      }
    }
    tok := Token(dec);
    if tok.None? || tok.value.0 != RBrace || !foundSpans { return Err(Malformed); }
    if tok.value.1.src.Cons? { return Err(Malformed); }
    return Ok(PageResult(binding, next, count));
  }

  // ---- writing a page ---------------------------------------------------------------------------------------

  function RowsText(rows: seq<Value>): seq<JTok> {
    if rows == [] then []
    else if |rows| == 1 then ValueText(rows[0])
    else ValueText(rows[0]) + ([Comma] + RowsText(rows[1..]))
  }

  function NextText(next: Option<string>): seq<JTok> {
    match next case None => [] case Some(c) => [Comma, Text("next_cursor"), Colon, Text(c)]
  }

  /** A page up to some of its rows. */
  function Beginning(binding: Value, rows: seq<Value>): seq<JTok> {
    [LBrace] + ([Text("binding"), Colon]
      + (ValueText(binding) + ([Comma, Text("spans"), Colon, LBracket] + RowsText(rows))))
  }

  function PageText(binding: Value, rows: seq<Value>, next: Option<string>): seq<JTok> {
    Beginning(binding, rows) + ([RBracket] + NextText(next)) + [RBrace]
  }

  /** The beginning of some page, cut off anywhere before its closing brace. */
  ghost predicate IsCut(text: seq<JTok>) {
    exists b, rows, next :: text < PageText(b, rows, next)
  }

  lemma {:induction false} RowsOneMore(rows: seq<Value>, v: Value)
    ensures RowsText(rows + [v]) == RowsText(rows) + ((if rows == [] then [] else [Comma]) + ValueText(v))
  {
    if rows == [] {
      assert rows + [v] == [v];
      assert [] + ([] + ValueText(v)) == ValueText(v);
    } else {
      assert (rows + [v])[1..] == rows[1..] + [v];
      RowsOneMore(rows[1..], v);
      if |rows| == 1 {
        assert rows[1..] + [v] == [v];
      } else {
        var x, y := ValueText(rows[0]), RowsText(rows[1..]);
        assert x + ([Comma] + (y + ([Comma] + ValueText(v)))) == (x + ([Comma] + y)) + ([Comma] + ValueText(v));
      }
    }
  }

  lemma BeginningOneMore(b: Value, rows: seq<Value>, v: Value)
    ensures Beginning(b, rows + [v]) == Beginning(b, rows) + ((if rows == [] then [] else [Comma]) + ValueText(v))
  {
    RowsOneMore(rows, v);
    BeginningSplit(b, rows);
    BeginningSplit(b, rows + [v]);
    Regroup(Opening(b), RowsText(rows), if rows == [] then [] else [Comma], ValueText(v));
  }

  function Opening(b: Value): seq<JTok> {
    [LBrace, Text("binding"), Colon] + ValueText(b) + [Comma, Text("spans"), Colon, LBracket]
  }

  lemma BeginningSplit(b: Value, rows: seq<Value>)
    ensures Beginning(b, rows) == Opening(b) + RowsText(rows)
  {
  }

  lemma Regroup(a: seq<JTok>, b: seq<JTok>, c: seq<JTok>, d: seq<JTok>)
    ensures a + (b + (c + d)) == (a + b) + (c + d)
  {
  }

  lemma CutBeginning(b: Value, rows: seq<Value>, text: seq<JTok>)
    requires text <= Beginning(b, rows)
    ensures IsCut(text)
  {
    hide Beginning;
    assert text < PageText(b, rows, None);
  }

  lemma CutWhole(b: Value, rows: seq<Value>, next: Option<string>, text: seq<JTok>)
    requires text < PageText(b, rows, next)
    ensures IsCut(text)
  {
  }

  /** A connection that accepts a number of writes and then fails; a failing write may get some of its text
      through. */
  class Sink {
    var out: seq<JTok>
    var room: nat
    const torn: nat

    constructor (room: nat, torn: nat)
      ensures out == [] && this.room == room && this.torn == torn
    {
      out, this.room, this.torn := [], room, torn;
    }

    method Write(text: seq<JTok>) returns (ok: bool)
      modifies this
      ensures ok == (old(room) > 0)
      ensures ok ==> out == old(out) + text && room == old(room) - 1
      ensures !ok ==> room == 0 && exists k :: 0 <= k <= |text| && out == old(out) + text[..k]
    {
      ok := room > 0;
      if ok {
        out, room := out + text, room - 1;
      } else {
        var k := if torn < |text| then torn else |text|;
        out := out + text[..k];
      }
    }
  }

  /** The rows of a page as they are read from the database: one at a time, until they end or break off. */
  class SpanRows<T> {
    const rows: seq<T>
    const broken: bool
    const next: Option<string>
    var pos: nat

    constructor (rows: seq<T>, broken: bool, next: Option<string>)
      ensures this.rows == rows && this.broken == broken && this.next == next && pos == 0
    {
      this.rows, this.broken, this.next, pos := rows, broken, next, 0;
    }

    method Read() returns (span: Option<T>, err: bool)
      requires pos <= |rows|
      modifies this
      ensures old(pos) < |rows| ==> span == Some(rows[old(pos)]) && !err && pos == old(pos) + 1
      ensures old(pos) == |rows| ==> span.None? && err == broken && pos == old(pos)
    {
      span, err := None, false;
      if pos < |rows| {
        span := Some(rows[pos]);
        pos := pos + 1;
      } else {
        err := broken;
      }
    }
  }

  /** All of some rows as JSON, if all of them can be encoded. */
  function Encoded<T>(rows: seq<T>, json: T -> Option<Value>): (r: Option<seq<Value>>)
    ensures r.Some? ==> |r.value| == |rows|
  {
    if rows == [] then Some([])
    else
      match (Encoded(rows[..|rows| - 1], json), json(rows[|rows| - 1]))
      case (Some(before), Some(v)) => Some(before + [v])
      case _ => None
  }

  lemma {:induction false} EncodedPrefix<T>(rows: seq<T>, n: nat, json: T -> Option<Value>)
    requires n <= |rows| && Encoded(rows[..n], json).None?
    ensures Encoded(rows, json).None?
    decreases |rows|
  {
    if n < |rows| {
      assert rows[..|rows| - 1][..n] == rows[..n];
      EncodedPrefix(rows[..|rows| - 1], n, json);
    } else {
      assert rows[..n] == rows;
    }
  }

  lemma OpeningCut(b: Value)
    ensures [LBrace, Text("binding"), Colon] + ValueText(b) < PageText(b, [], None)
    ensures ([LBrace, Text("binding"), Colon] + ValueText(b)) + [Comma, Text("spans"), Colon, LBracket]
      == Beginning(b, [])
    ensures Beginning(b, []) < PageText(b, [], None)
  {
    BeginningSplit(b, []);
    assert Opening(b) + RowsText([]) == Opening(b);
  }

  lemma RowCut(b: Value, rows: seq<Value>, v: Value)
    ensures rows != [] ==> Beginning(b, rows) + [Comma] < PageText(b, rows + [v], None)
    ensures rows != [] ==> (Beginning(b, rows) + [Comma]) + ValueText(v) == Beginning(b, rows + [v])
    ensures rows == [] ==> Beginning(b, rows) + ValueText(v) == Beginning(b, rows + [v])
    ensures Beginning(b, rows + [v]) < PageText(b, rows + [v], None)
  {
    hide Beginning;
    BeginningOneMore(b, rows, v);
    var x, y := Beginning(b, rows), ValueText(v);
    if rows == [] {
      assert [] + y == y;
    } else {
      assert x + ([Comma] + y) == (x + [Comma]) + y;
    }
  }

  lemma EndingCut(b: Value, rows: seq<Value>, next: Option<string>)
    ensures Beginning(b, rows) + [RBracket] < PageText(b, rows, next)
    ensures (Beginning(b, rows) + [RBracket]) + NextText(next) < PageText(b, rows, next)
    ensures ((Beginning(b, rows) + [RBracket]) + NextText(next)) + [RBrace] == PageText(b, rows, next)
  {
    hide Beginning;
    assert (Beginning(b, rows) + [RBracket]) + NextText(next) == Beginning(b, rows) + ([RBracket] + NextText(next));
  }

  /** Sends the next piece of a page; whatever gets through continues a page. */
  method Put(
    w: Sink, text: seq<JTok>, ghost was: seq<JTok>, ghost done: seq<JTok>,
    ghost b: Value, ghost rows: seq<Value>, ghost next: Option<string>)
    returns (ok: bool)
    requires w.out == was + done && done + text < PageText(b, rows, next)
    modifies w
    ensures ok == (old(w.room) > 0)
    ensures ok ==> w.out == was + (done + text) && w.room == old(w.room) - 1
    ensures exists cut :: w.out == was + cut && IsCut(cut)
  {
    hide PageText;
    ok := w.Write(text);
    if ok {
      assert w.out == was + (done + text);
      CutWhole(b, rows, next, done + text);
    } else {
      ghost var k :| 0 <= k <= |text| && w.out == (was + done) + text[..k];
      assert w.out == was + (done + text[..k]);
      assert done + text[..k] <= done + text;
      CutWhole(b, rows, next, done + text[..k]);
    }
  }

  /** The page of some rows, complete. */
  ghost predicate IsWhole<T>(text: seq<JTok>, binding: Option<Value>, rows: SpanRows<T>, json: T -> Option<Value>) {
    && binding.Some? && !rows.broken && Encoded(rows.rows, json).Some?
    && text == PageText(binding.value, Encoded(rows.rows, json).value, rows.next)
  }

  /** Streams a page. Nothing is written until the first row has been read and encoded; after that an error
      leaves the beginning of a page, and only a run without any error reports success. */
  method WriteSpanPage<T>(w: Sink, binding: Option<Value>, rows: SpanRows<T>, json: T -> Option<Value>)
    returns (count: nat, started: bool, ok: bool)
    requires rows.pos == 0
    modifies w, rows
    ensures ok ==> started && binding.Some? && !rows.broken && Encoded(rows.rows, json).Some?
    ensures ok ==> w.out == old(w.out) + PageText(binding.value, Encoded(rows.rows, json).value, rows.next)
    ensures ok ==> count == |rows.rows|
    ensures !started ==> !ok && w.out == old(w.out)
    ensures started ==> exists sent :: w.out == old(w.out) + sent && (IsCut(sent) || IsWhole(sent, binding, rows, json))
    ensures binding.Some? && !rows.broken && Encoded(rows.rows, json).Some? && old(w.room) >= 2 * |rows.rows| + 5 ==> ok
  {
    hide PageText, Beginning, ValueText, IsCut, NextText;
    count, started, ok := 0, false, false;
    ghost var was, all, room := w.out, rows.rows, w.room;
    var first, err := rows.Read();
    if err { return; }
    if binding.None? { return; }
    var firstJSON: Option<Value> := None;
    if first.Some? {
      firstJSON := json(first.value);
      if firstJSON.None? {
        assert all[..1][..0] == [] && Encoded(all[..1], json).None?;
        EncodedPrefix(all, 1, json);
        return;
      }
    }
    var b := binding.value;
    started := true;
    OpeningCut(b);
    var head := [LBrace, Text("binding"), Colon] + ValueText(b);
    assert [] + head == head && was + [] == was;
    var wrote := Put(w, head, was, [], b, [], None);
    if !wrote { return; }
    wrote := Put(w, [Comma, Text("spans"), Colon, LBracket], was, head, b, [], None);
    if !wrote { return; }
    ghost var js: seq<Value> := [];
    if first.Some? {
      RowCut(b, [], firstJSON.value);
      wrote := Put(w, ValueText(firstJSON.value), was, Beginning(b, []), b, [] + [firstJSON.value], None);
      if !wrote { return; }
      js := [] + [firstJSON.value];
      count := 1;
      assert all[..1][..0] == [];
    }
    count, wrote := WriteRest(w, rows, json, count, was, b, js, room);
    if !wrote { return; }
    js := Encoded(all, json).value;
    ok := WriteEnd(w, rows.next, was, b, js);
  }

  /** What follows the rows: the end of the array, the cursor if there is one, and the closing brace. */
  method WriteEnd(w: Sink, next: Option<string>, ghost was: seq<JTok>, ghost b: Value, ghost js: seq<Value>)
    returns (ok: bool)
    requires w.out == was + Beginning(b, js)
    modifies w
    ensures ok ==> w.out == was + PageText(b, js, next)
    ensures exists sent :: w.out == was + sent && (IsCut(sent) || sent == PageText(b, js, next))
    ensures old(w.room) >= 3 ==> ok
  {
    hide PageText, Beginning, ValueText, IsCut, NextText;
    ok := false;
    EndingCut(b, js, next);
    var wrote := Put(w, [RBracket], was, Beginning(b, js), b, js, next);
    if !wrote { return; }
    if next.Some? {
      NextIs(next.value);
      var cursor := [Comma, Text("next_cursor"), Colon, Text(next.value)];
      wrote := Put(w, cursor, was, Beginning(b, js) + [RBracket], b, js, next);
      if !wrote { return; }
    } else {
      NextNone();
      assert (Beginning(b, js) + [RBracket]) + [] == Beginning(b, js) + [RBracket];
    }
    ghost var most := (Beginning(b, js) + [RBracket]) + NextText(next);
    ok := w.Write([RBrace]);
    if ok {
      assert w.out == was + PageText(b, js, next);
    } else {
      ghost var k :| 0 <= k <= 1 && w.out == (was + most) + [RBrace][..k];
      ghost var sent := if k == 0 then most else PageText(b, js, next);
      if k == 0 { CutWhole(b, js, next, most); }
      assert w.out == was + sent;
    }
  }

  lemma NextIs(c: string)
    ensures NextText(Some(c)) == [Comma, Text("next_cursor"), Colon, Text(c)]
  {
  }

  lemma NextNone()
    ensures NextText(None) == []
  {
  }

  /** The rows after the first one. */
  method WriteRest<T>(
    w: Sink, rows: SpanRows<T>, json: T -> Option<Value>, count0: nat, ghost was: seq<JTok>, ghost b: Value,
    ghost js0: seq<Value>, ghost room: nat)
    returns (count: nat, ok: bool)
    requires rows.pos <= |rows.rows| && rows.pos == |js0| == count0 && (rows.pos == 0 ==> rows.rows == [])
    requires Encoded(rows.rows[..rows.pos], json) == Some(js0) && w.out == was + Beginning(b, js0)
    requires room >= 2 * |rows.rows| + 5 ==> w.room >= 2 * (|rows.rows| - rows.pos) + 3
    modifies w, rows
    ensures ok ==> !rows.broken && Encoded(rows.rows, json).Some? && count == |rows.rows|
    ensures ok ==> w.out == was + Beginning(b, Encoded(rows.rows, json).value)
    ensures ok ==> (room >= 2 * |rows.rows| + 5 ==> w.room >= 3)
    ensures exists cut :: w.out == was + cut && IsCut(cut)
    ensures !rows.broken && Encoded(rows.rows, json).Some? && room >= 2 * |rows.rows| + 5 ==> ok
  {
    hide PageText, Beginning, ValueText, IsCut;
    ghost var all, js := rows.rows, js0;
    count, ok := count0, false;
    CutBeginning(b, js, Beginning(b, js));
    while true
      invariant |js| == rows.pos == count <= |all| && (rows.pos == 0 ==> all == [])
      invariant Encoded(all[..rows.pos], json) == Some(js) && w.out == was + Beginning(b, js)
      invariant room >= 2 * |all| + 5 ==> w.room >= 2 * (|all| - rows.pos) + 3
      invariant IsCut(Beginning(b, js))
      decreases |all| - rows.pos
    {
      ghost var k := rows.pos;
      var span, err := rows.Read();
      if err { return; }
      if span.None? { break; }
      var encoded := json(span.value);
      assert all[..k + 1][..k] == all[..k] && all[..k + 1][k] == all[k];
      if encoded.None? {
        EncodedPrefix(all, k + 1, json);
        return;
      }
      RowCut(b, js, encoded.value);
      var wrote := true;
      if count > 0 {
        wrote := Put(w, [Comma], was, Beginning(b, js), b, js + [encoded.value], None);
        if !wrote { return; }
      }
      wrote := Put(w, ValueText(encoded.value), was, Beginning(b, js) + [Comma], b, js + [encoded.value], None);
      if !wrote { return; }
      js := js + [encoded.value];
      count := count + 1;
      CutBeginning(b, js, Beginning(b, js));
    }
    assert all[..|all|] == all;
    ok := true;
  }

  // ---- a page read back ----------------------------------------------------------------------------------------

  lemma ReadValue(v: Value, ts: Stream, stack: seq<Place>)
    ensures Decode(Decoder(Cons(Colon, Onto(ValueText(v), ts)), ObjectColon, stack))
      == Some((v, Decoder(ts, ObjectComma, stack)))
    ensures Decode(Decoder(Onto(ValueText(v), ts), ArrayStart, stack)) == Some((v, Decoder(ts, ArrayComma, stack)))
    ensures Decode(Decoder(Cons(Comma, Onto(ValueText(v), ts)), ArrayComma, stack))
      == Some((v, Decoder(ts, ArrayComma, stack)))
  {
    hide ParseValue;
    ReadBack(v, ts);
  }

  /** The rows of a page and what follows them, first row first. */
  lemma RowsStream(rows: seq<Value>, end: Stream)
    requires rows != []
    ensures Onto(RowsText(rows), end)
      == Onto(ValueText(rows[0]), if |rows| == 1 then end else Cons(Comma, Onto(RowsText(rows[1..]), end)))
  {
    hide Onto;
    if |rows| > 1 {
      OntoTwo(ValueText(rows[0]), [Comma] + RowsText(rows[1..]), end);
      OntoTwo([Comma], RowsText(rows[1..]), end);
      OntoOne(Comma, Onto(RowsText(rows[1..]), end));
    }
  }

  lemma StepRow(d: Decoder, v: Value, d1: Decoder, before: seq<Value>)
    requires More(d) && Decode(d) == Some((v, d1))
    ensures ReadRows(d, before) == ReadRows(d1, before + [v])
  {
  }

  lemma ValueMore(v: Value, ts: Stream, stack: seq<Place>)
    ensures More(Decoder(Onto(ValueText(v), ts), ArrayStart, stack))
  {
    ValueOpens(v);
  }

  lemma {:induction false} RowsReadBack(rows: seq<Value>, before: seq<Value>, ts: Stream, stack: seq<Place>)
    ensures var text, end := Onto(RowsText(rows), Cons(RBracket, ts)), Cons(RBracket, ts);
      && ReadRows(Decoder(text, ArrayStart, stack), before)
           == Some((before + rows, Decoder(end, if rows == [] then ArrayStart else ArrayComma, stack)))
      && (rows != [] ==>
            ReadRows(Decoder(Cons(Comma, text), ArrayComma, stack), before)
              == Some((before + rows, Decoder(end, ArrayComma, stack))))
    decreases |rows|
  {
    hide Decode, ValueText, RowsText;
    var end := Cons(RBracket, ts);
    if rows == [] {
      assert Onto(RowsText(rows), end) == end by { NoRows(end); }
      assert before + rows == before;
    } else {
      var v := rows[0];
      var after := if |rows| == 1 then end else Cons(Comma, Onto(RowsText(rows[1..]), end));
      var text := Onto(ValueText(v), after);
      RowsStream(rows, end);
      ReadValue(v, after, stack);
      ValueMore(v, after, stack);
      StepRow(Decoder(text, ArrayStart, stack), v, Decoder(after, ArrayComma, stack), before);
      StepRow(Decoder(Cons(Comma, text), ArrayComma, stack), v, Decoder(after, ArrayComma, stack), before);
      if |rows| == 1 {
        assert before + [v] == before + rows;
      } else {
        RowsReadBack(rows[1..], before + [v], ts, stack);
        assert (before + [v]) + rows[1..] == before + rows;
      }
    }
  }

  lemma NoRows(ts: Stream)
    ensures Onto(RowsText([]), ts) == ts
  {
  }

  lemma SpansReadBack(rows: seq<Value>, ts: Stream, stack: seq<Place>)
    ensures ReadSpans(
      Decoder(Cons(Colon, Cons(LBracket, Onto(RowsText(rows), Cons(RBracket, ts)))), ObjectColon, stack), [])
      == Some((rows, Decoder(ts, ObjectComma, stack)))
  {
    var inside := Onto(RowsText(rows), Cons(RBracket, ts));
    var d0 := Decoder(Cons(Colon, Cons(LBracket, inside)), ObjectColon, stack);
    assert Token(Decoder(Cons(LBracket, inside), ObjectValue, stack))
      == Some((LBracket, Decoder(inside, ArrayStart, [ObjectValue] + stack)));
    RowsReadBack(rows, [], ts, [ObjectValue] + stack);
    assert [] + rows == rows;
  }

  /** The stream of a page, piece by piece. */
  lemma PageStream(b: Value, rows: seq<Value>, next: Option<string>)
    ensures Onto(PageText(b, rows, next), Nil) ==
      Cons(LBrace, Cons(Text("binding"), Cons(Colon, Onto(ValueText(b), Cons(Comma, Cons(Text("spans"), Cons(Colon,
        Cons(LBracket, Onto(RowsText(rows), Cons(RBracket, Onto(NextText(next), Cons(RBrace, Nil))))))))))))
  {
    hide Onto;
    var end := Cons(RBrace, Nil);
    var n := Onto(NextText(next), end);
    OntoTwo(Beginning(b, rows) + ([RBracket] + NextText(next)), [RBrace], Nil);
    OntoOne(RBrace, Nil);
    OntoTwo(Beginning(b, rows), [RBracket] + NextText(next), end);
    OntoTwo([RBracket], NextText(next), end);
    OntoOne(RBracket, n);
    BeginningStream(b, rows, Cons(RBracket, n));
  }

  lemma BeginningStream(b: Value, rows: seq<Value>, ts: Stream)
    ensures Onto(Beginning(b, rows), ts) ==
      Cons(LBrace, Cons(Text("binding"), Cons(Colon, Onto(ValueText(b), Cons(Comma, Cons(Text("spans"), Cons(Colon,
        Cons(LBracket, Onto(RowsText(rows), ts)))))))))
  {
    hide Onto;
    var r := Onto(RowsText(rows), ts);
    var open := [Comma, Text("spans"), Colon, LBracket];
    OntoTwo(open, RowsText(rows), ts);
    assert open == [Comma, Text("spans")] + [Colon, LBracket];
    OntoTwo([Comma, Text("spans")], [Colon, LBracket], r);
    OntoPair(Colon, LBracket, r);
    OntoPair(Comma, Text("spans"), Cons(Colon, Cons(LBracket, r)));
    OntoTwo(ValueText(b), open + RowsText(rows), ts);
    var v := Onto(ValueText(b), Onto(open + RowsText(rows), ts));
    OntoTwo([Text("binding"), Colon], ValueText(b) + (open + RowsText(rows)), ts);
    OntoPair(Text("binding"), Colon, v);
    OntoTwo([LBrace], [Text("binding"), Colon] + (ValueText(b) + (open + RowsText(rows))), ts);
    OntoOne(LBrace, Cons(Text("binding"), Cons(Colon, v)));
  }

  /** A page that was printed whole is read back as the same binding, rows and cursor. */
  lemma PageReadBack(b: Value, rows: seq<Value>, next: Option<string>)
    ensures ReadPage(Onto(PageText(b, rows, next), Nil))
      == Some(Content(Some(b), rows, match next case None => "" case Some(c) => c))
  {
    hide Decode, ReadSpans;
    PageStream(b, rows, next);
    var s1 := [TopValue];
    var end := Cons(RBrace, Nil);
    var n := Onto(NextText(next), end);
    var t2 := Cons(Comma, Cons(Text("spans"), Cons(Colon, Cons(LBracket, Onto(RowsText(rows), Cons(RBracket, n))))));
    var t1 := Cons(Text("binding"), Cons(Colon, Onto(ValueText(b), t2)));
    assert Token(Decoder(Cons(LBrace, t1), TopValue, [])) == Some((LBrace, Decoder(t1, ObjectStart, s1))) by {
      assert [TopValue] + [] == s1;
    }
    ReadValue(b, t2, s1);
    SpansReadBack(rows, n, s1);
    var c2 := Content(Some(b), rows, "");
    assert ReadMembers(Decoder(t1, ObjectStart, s1), Content(None, [], ""), false)
      == ReadMembers(Decoder(t2, ObjectComma, s1), Content(Some(b), [], ""), false);
    assert Token(Decoder(t2.tail, ObjectKey, s1)) == Some((Text("spans"), Decoder(t2.tail.tail, ObjectColon, s1)));
    assert ReadMembers(Decoder(t2, ObjectComma, s1), Content(Some(b), [], ""), false)
      == ReadMembers(Decoder(n, ObjectComma, s1), c2, true);
    NextReadBack(c2, next, s1);
  }

  lemma NextReadBack(c: Content, next: Option<string>, stack: seq<Place>)
    requires stack == [TopValue]
    ensures var c1 := match next case None => c case Some(s) => c.(next := s);
      var end := Cons(RBrace, Nil);
      && ReadMembers(Decoder(Onto(NextText(next), end), ObjectComma, stack), c, true)
           == Some((c1, true, Decoder(end, ObjectComma, stack)))
      && Ended(c1, true, Decoder(end, ObjectComma, stack)) == Some(c1)
  {
    var end := Cons(RBrace, Nil);
    if next.Some? {
      var text := [Comma, Text("next_cursor")] + [Colon, Text(next.value)];
      assert NextText(next) == text;
      OntoTwo([Comma, Text("next_cursor")], [Colon, Text(next.value)], end);
      OntoPair(Colon, Text(next.value), end);
      OntoPair(Comma, Text("next_cursor"), Cons(Colon, Cons(Text(next.value), end)));
      var after := Cons(Colon, Cons(Text(next.value), end));
      assert Token(Decoder(Cons(Text("next_cursor"), after), ObjectKey, stack))
        == Some((Text("next_cursor"), Decoder(after, ObjectColon, stack)));
      OntoOne(Text(next.value), end);
      ReadValue(Str(next.value), end, stack);
    }
  }

  // ---- a page cut off -------------------------------------------------------------------------------------------

  predicate Inside(p: Place) {
    p.ObjectStart? || p.ObjectComma?
  }

  lemma KeyToken(d: Decoder)
    requires Inside(d.place) && More(d) && Token(d).Some?
    ensures var (t, d1) := Token(d).value;
      t.Text? && d1.place == ObjectColon && d1.stack == d.stack && StreamDepth(d1.src) == StreamDepth(d.src)
  {
    if d.src.head.Comma? {
      assert Token(d) == Token(Decoder(d.src.tail, ObjectKey, d.stack));
    }
  }

  lemma DecodeKeepsDepth(d: Decoder)
    requires Decode(d).Some?
    ensures var d1 := Decode(d).value.1; d1.stack == d.stack && StreamDepth(d1.src) == StreamDepth(d.src)
    ensures d.place.ObjectColon? ==> Decode(d).value.1.place.ObjectComma?
    ensures d.place.ArrayStart? || d.place.ArrayComma? ==> Decode(d).value.1.place.ArrayComma?
  {
    ParseKeepsDepth(Prepared(d).value.src);
  }

  lemma {:induction false} RowsKeepDepth(d: Decoder, rows: seq<Value>)
    requires ReadRows(d, rows).Some? && (d.place.ArrayStart? || d.place.ArrayComma?)
    ensures var d1 := ReadRows(d, rows).value.1;
      && (d1.place.ArrayStart? || d1.place.ArrayComma?) && !More(d1)
      && d1.stack == d.stack && StreamDepth(d1.src) == StreamDepth(d.src)
    decreases Size(d.src)
  {
    hide Decode;
    if More(d) {
      DecodeKeepsDepth(d);
      RowsKeepDepth(Decode(d).value.1, rows + [Decode(d).value.0]);
    }
  }

  lemma SpansKeepDepth(d: Decoder, rows: seq<Value>)
    requires d.place.ObjectColon? && ReadSpans(d, rows).Some?
    ensures var d1 := ReadSpans(d, rows).value.1;
      d1.place.ObjectComma? && d1.stack == d.stack && StreamDepth(d1.src) == StreamDepth(d.src)
  {
    hide ReadRows;
    var d1 := Token(d).value.1;
    if d.src.head.Colon? {
      assert Token(d) == Token(Decoder(d.src.tail, ObjectValue, d.stack));
    }
    assert d1.place == ArrayStart && d1.stack == [ObjectValue] + d.stack
      && StreamDepth(d1.src) == StreamDepth(d.src) - 1;
    RowsKeepDepth(d1, rows);
    var d2 := ReadRows(d1, rows).value.1;
  }

  lemma {:induction false} MembersKeepDepth(d: Decoder, c: Content, found: bool)
    requires Inside(d.place) && ReadMembers(d, c, found).Some?
    ensures var d1 := ReadMembers(d, c, found).value.2;
      Inside(d1.place) && !More(d1) && d1.stack == d.stack && StreamDepth(d1.src) == StreamDepth(d.src)
    decreases Size(d.src)
  {
    hide Decode, Token, More, ReadSpans, StreamDepth;
    if More(d) {
      KeyToken(d);
      var (key, d1) := Token(d).value;
      if key == Text("spans") {
        SpansKeepDepth(d1, c.rows);
        var (all, d2) := ReadSpans(d1, c.rows).value;
        MembersKeepDepth(d2, c.(rows := all), true);
      } else {
        DecodeKeepsDepth(d1);
        var (v, d2) := Decode(d1).value;
        if key == Text("binding") {
          MembersKeepDepth(d2, c.(binding := Some(v)), found);
        } else if key == Text("next_cursor") && v.Str? {
          MembersKeepDepth(d2, c.(next := v.s), found);
        } else {
          MembersKeepDepth(d2, c, found);
        }
      }
    }
  }

  lemma TopToken(src: Stream)
    ensures var t := Token(Decoder(src, TopValue, []));
      t.Some? && t.value.0 == LBrace ==>
        src.Cons? && src.head == LBrace && t.value.1 == Decoder(src.tail, ObjectStart, [TopValue])
  {
    assert [TopValue] + [] == [TopValue];
  }

  /** Only a balanced text that opens an object is a page. */
  lemma AcceptedIsBalanced(src: Stream)
    requires ReadPage(src).Some?
    ensures src.Cons? && src.head == LBrace && StreamDepth(src) == 0
  {
    hide ReadMembers;
    TopToken(src);
    var d := Token(Decoder(src, TopValue, [])).value.1;
    assert d.stack == [TopValue];
    MembersKeepDepth(d, Content(None, [], ""), false);
    var d1 := ReadMembers(d, Content(None, [], ""), false).value.2;
    assert d1.src.Cons?;
  }

  /** A page cut off anywhere before its closing brace is refused, even if the cut leaves part of a string, a
      number or a literal that reads as something else. */
  lemma CutIsRejected(b: Value, rows: seq<Value>, next: Option<string>, k: nat, torn: seq<JTok>)
    requires k < |PageText(b, rows, next)|
    requires |torn| <= 1 && forall t :: t in torn ==> t.Text? || t.Atom?
    ensures ReadPage(Onto(PageText(b, rows, next)[..k] + torn, Nil)).None?
  {
    hide ReadPage, PageText;
    var cut := PageText(b, rows, next)[..k];
    var src := Onto(cut + torn, Nil);
    OntoDepth(cut + torn, Nil);
    DepthTwo(cut, torn);
    NestedScalars(torn);
    if ReadPage(src).Some? {
      AcceptedIsBalanced(src);
      if k > 0 { CutIsOpen(b, rows, next, k); }
    }
  }

  lemma CutIsOpen(b: Value, rows: seq<Value>, next: Option<string>, k: nat)
    requires 0 < k < |PageText(b, rows, next)|
    ensures Depth(PageText(b, rows, next)[..k]) >= 1
  {
    var inside := Body(b, rows, next);
    BodyIs(b, rows, next);
    BodyNested(b, rows, next);
    PrefixInside(LBrace, inside, RBrace, k);
  }

  /** A page without its outer braces. */
  function Body(b: Value, rows: seq<Value>, next: Option<string>): seq<JTok> {
    [Text("binding"), Colon] + (ValueText(b) + ([Comma, Text("spans"), Colon]
      + (([LBracket] + (RowsText(rows) + [RBracket])) + NextText(next))))
  }

  lemma BodyIs(b: Value, rows: seq<Value>, next: Option<string>)
    ensures PageText(b, rows, next) == [LBrace] + (Body(b, rows, next) + [RBrace])
  {
    var v, r, n := ValueText(b), RowsText(rows), NextText(next);
    assert [Comma, Text("spans"), Colon, LBracket] == [Comma, Text("spans"), Colon] + [LBracket];
    BodyGroups([Text("binding"), Colon], v, [Comma, Text("spans"), Colon], r, n);
  }

  lemma BodyGroups(a: seq<JTok>, v: seq<JTok>, c: seq<JTok>, r: seq<JTok>, n: seq<JTok>)
    ensures ([LBrace] + (a + (v + ((c + [LBracket]) + r)))) + ([RBracket] + n) + [RBrace]
      == [LBrace] + ((a + (v + (c + (([LBracket] + (r + [RBracket])) + n)))) + [RBrace])
  {
  }

  lemma {:induction false} RowsNested(rows: seq<Value>)
    ensures Nested(RowsText(rows)) && Depth(RowsText(rows)) == 0
  {
    if rows == [] {
      NestedScalars([]);
    } else {
      ValueNested(rows[0]);
      RowsNested(rows[1..]);
      NestedScalars([Comma]);
      NestedTwo([Comma], RowsText(rows[1..]));
      DepthTwo([Comma], RowsText(rows[1..]));
      NestedTwo(ValueText(rows[0]), [Comma] + RowsText(rows[1..]));
      DepthTwo(ValueText(rows[0]), [Comma] + RowsText(rows[1..]));
    }
  }

  lemma Both(s: seq<JTok>, t: seq<JTok>)
    requires Nested(s) && Nested(t) && Depth(s) == 0 && Depth(t) == 0
    ensures Nested(s + t) && Depth(s + t) == 0
  {
    NestedTwo(s, t);
    DepthTwo(s, t);
  }

  lemma BodyNested(b: Value, rows: seq<Value>, next: Option<string>)
    ensures Nested(Body(b, rows, next)) && Depth(Body(b, rows, next)) == 0
  {
    hide Nested, Depth, RowsText, ValueText;
    RowsNested(rows);
    NestedInside(LBracket, RowsText(rows), RBracket);
    NestedScalars(NextText(next));
    var spans := [LBracket] + (RowsText(rows) + [RBracket]);
    Both(spans, NextText(next));
    NestedScalars([Comma, Text("spans"), Colon]);
    Both([Comma, Text("spans"), Colon], spans + NextText(next));
    ValueNested(b);
    Both(ValueText(b), [Comma, Text("spans"), Colon] + (spans + NextText(next)));
    NestedScalars([Text("binding"), Colon]);
    Both([Text("binding"), Colon], ValueText(b) + ([Comma, Text("spans"), Colon] + (spans + NextText(next))));
  }
}
