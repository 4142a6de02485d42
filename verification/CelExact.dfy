/** When a caller's predicate is what CEL says, exactly: a program that mentions an attribute the caller lacks is
    dropped whole, which matters if and only if the rest of it could still have come out true. */
module CelExact {
  import opened Basics
  import opened Schema
  import opened SqlSyntax
  import opened SqlSemantics
  import opened Expression
  import opened ExpressionMeaning
  import Policy
  import opened PolicyMeaning
  import opened Translate

  // ---- the verdicts a predicate can have -----------------------------------------------------------------

  function Join(disj: bool, v: Verdict, w: Verdict): Verdict {
    if disj then OrVerdict(v, w) else AndVerdict(v, w)
  }

  /** The predicate may come to a verdict on some span, judging by its shape and by which attributes the caller
      has: a comparison with an attribute that is missing is an error, one with a map column may be, and any
      other comparison may go either way. */
  predicate CanBe(e: Expr, attrs: map<string, string>, v: Verdict)
    decreases e, 1
  {
    match e.op
    case AllOf => CanBeJoined(e.children, false, attrs, v)
    case AnyOf => CanBeJoined(e.children, true, attrs, v)
    case Negation => |e.children| == 1 && CanBe(e.children[0], attrs, NotVerdict(v))
    case Always => v == True
    case Never => v == False
    case _ => if RefsOf(Operands(e)) <= attrs.Keys then !v.Error? || !e.field.Scalar() else v.Error?
  }

  predicate CanBeJoined(es: seq<Expr>, disj: bool, attrs: map<string, string>, v: Verdict)
    decreases es, 0
  {
    if es == [] then v == (if disj then False else True)
    else exists a, b :: CanBe(es[0], attrs, a) && CanBeJoined(es[1..], disj, attrs, b) && Join(disj, a, b) == v
  }

  function Joined(es: seq<Expr>, disj: bool, row: Row, attrs: map<string, string>, conv: Conv): Verdict
    requires RowFitsAll(es, row)
  {
    if disj then MeaningAny(es, row, attrs, conv) else MeaningAll(es, row, attrs, conv)
  }

  /** No span brings out a verdict that cannot be. */
  lemma {:induction false} MeaningCanBe(e: Expr, row: Row, attrs: map<string, string>, conv: Conv)
    requires Valid(e, PolicyProfile) && RowFits(e, row)
    ensures CanBe(e, attrs, Meaning(e, row, attrs, conv))
    decreases e, 1
  {
    if e.op.AllOf? || e.op.AnyOf? {
      JoinedCanBe(e.children, e.op.AnyOf?, row, attrs, conv);
    } else if e.op.Negation? {
      MeaningCanBe(e.children[0], row, attrs, conv);
    } else if !e.op.Always? && !e.op.Never? {
      ResolveRefs(Operands(e), attrs);
    }
  }

  lemma {:induction false} JoinedCanBe(es: seq<Expr>, disj: bool, row: Row, attrs: map<string, string>, conv: Conv)
    requires ValidAll(es, PolicyProfile) && RowFitsAll(es, row)
    ensures CanBeJoined(es, disj, attrs, Joined(es, disj, row, attrs, conv))
    decreases es, 0
  {
    hide Meaning, CanBe, RowFits;
    if es != [] {
      MeaningCanBe(es[0], row, attrs, conv);
      JoinedCanBe(es[1..], disj, row, attrs, conv);
      var a, b := Meaning(es[0], row, attrs, conv), Joined(es[1..], disj, row, attrs, conv);
      assert Join(disj, a, b) == Joined(es, disj, row, attrs, conv);
    }
  }

  // ---- spans made to measure ------------------------------------------------------------------------------

  /** The fields a predicate compares. */
  function Fields(e: Expr): set<Field>
    decreases e, 1
  {
    if IsConnective(e.op) then FieldsAll(e.children) else if e.op.Always? || e.op.Never? then {} else {e.field}
  }

  function FieldsAll(es: seq<Expr>): set<Field>
    decreases es, 0
  {
    if es == [] then {} else Fields(es[0]) + FieldsAll(es[1..])
  }

  /** No field is compared twice. */
  predicate Once(e: Expr)
    decreases e, 1
  {
    IsConnective(e.op) ==> OnceAll(e.children)
  }

  predicate OnceAll(es: seq<Expr>)
    decreases es, 0
  {
    es == [] || (Once(es[0]) && OnceAll(es[1..]) && Fields(es[0]) !! FieldsAll(es[1..]))
  }

  /** What some fields hold; a field that is not there is a missing key of a map column. */
  type Facts = map<Field, Datum>

  predicate Fair(facts: Facts, fs: set<Field>) {
    && facts.Keys <= fs && (forall f :: f in fs && f.Scalar() ==> f in facts)
    && forall f :: f in facts ==> HasType(facts[f], f.Type())
  }

  function MeaningOn(e: Expr, facts: Facts, attrs: map<string, string>): Verdict
    decreases e, 1
  {
    match e.op
    case AllOf => JoinedOn(e.children, false, facts, attrs)
    case AnyOf => JoinedOn(e.children, true, facts, attrs)
    case Negation => if |e.children| == 1 then NotVerdict(MeaningOn(e.children[0], facts, attrs)) else Error
    case Always => True
    case Never => False
    case _ =>
      match ResolveAll(Operands(e), attrs)
      case Some(ds) => if e.field in facts then Decide(Holds(e.op, facts[e.field], ds)) else Error
      case None => Error
  }

  function JoinedOn(es: seq<Expr>, disj: bool, facts: Facts, attrs: map<string, string>): Verdict
    decreases es, 0
  {
    if es == [] then (if disj then False else True)
    else Join(disj, MeaningOn(es[0], facts, attrs), JoinedOn(es[1..], disj, facts, attrs))
  }

  /** Facts about other fields do not matter. */
  predicate Alike(facts: Facts, more: Facts, fs: set<Field>) {
    forall f :: f in fs ==> (f in facts <==> f in more) && (f in facts ==> facts[f] == more[f])
  }

  lemma {:induction false} MeaningAlike(e: Expr, facts: Facts, more: Facts, attrs: map<string, string>)
    requires Alike(facts, more, Fields(e))
    ensures MeaningOn(e, facts, attrs) == MeaningOn(e, more, attrs)
    decreases e, 1
  {
    if e.op.AllOf? || e.op.AnyOf? {
      JoinedAlike(e.children, e.op.AnyOf?, facts, more, attrs);
    } else if e.op.Negation? && |e.children| == 1 {
      assert FieldsAll(e.children) == Fields(e.children[0]) + FieldsAll(e.children[1..]);
      MeaningAlike(e.children[0], facts, more, attrs);
    }
  }

  lemma {:induction false} JoinedAlike(
    es: seq<Expr>, disj: bool, facts: Facts, more: Facts, attrs: map<string, string>)
    requires Alike(facts, more, FieldsAll(es))
    ensures JoinedOn(es, disj, facts, attrs) == JoinedOn(es, disj, more, attrs)
    decreases es, 0
  {
    if es != [] {
      MeaningAlike(es[0], facts, more, attrs);
      JoinedAlike(es[1..], disj, facts, more, attrs);
    }
  }

  /** A string that is longer than any of some values. */
  function Longer(ds: seq<Datum>): (s: string)
    ensures s != ""
  {
    if ds == [] then "x" else (if ds[0].Str? then ds[0].s else "") + Longer(ds[1..])
  }

  lemma {:induction false} LongerIsNew(ds: seq<Datum>)
    ensures forall d :: d in ds && d.Str? ==> |d.s| < |Longer(ds)|
  {
    if ds != [] {
      LongerIsNew(ds[1..]);
      assert ds == [ds[0]] + ds[1..];
    }
  }

  /** A value that makes a comparison of a policy true, or false. */
  function Deciding(op: Op, ds: seq<Datum>, t: LogicalType, wanted: bool): Datum
    requires ds != []
  {
    if t.TStringArray? then Arr(if wanted && ds[0].Str? then [ds[0].s] else [])
    else if wanted != op.NotEqual? then ds[0]
    else if ds[0].Bool? then Bool(!ds[0].b)
    else Str(Longer(ds))
  }

  lemma Decides(e: Expr, attrs: map<string, string>, wanted: bool)
    requires Valid(e, PolicyProfile) && !IsConnective(e.op) && !e.op.Always? && !e.op.Never?
    requires ResolveAll(Operands(e), attrs).Some?
    ensures var ds := ResolveAll(Operands(e), attrs).value;
      ds != [] && (var d := Deciding(e.op, ds, e.field.Type(), wanted);
        HasType(d, e.field.Type()) && Holds(e.op, d, ds) == wanted)
  {
    var ds := ResolveAll(Operands(e), attrs).value;
    ResolvedTypes(Operands(e), attrs, ElementType(e.field.Type()));
    assert ds[0] in ds;
    LongerIsNew(ds);
  }

  function Blank(t: LogicalType): Datum {
    match t case TStringArray => Arr([]) case TBoolean => Bool(false) case TNumber => Num(0.0) case _ => Str("")
  }

  /** Every verdict that can be is brought out by some facts, as long as no field is compared twice. */
  lemma {:induction false} Witness(e: Expr, attrs: map<string, string>, v: Verdict) returns (facts: Facts)
    requires Valid(e, PolicyProfile) && Once(e) && CanBe(e, attrs, v)
    ensures Fair(facts, Fields(e)) && MeaningOn(e, facts, attrs) == v
    decreases e, 1
  {
    if e.op.AllOf? || e.op.AnyOf? {
      facts := WitnessJoined(e.children, e.op.AnyOf?, attrs, v);
    } else if e.op.Negation? {
      assert FieldsAll(e.children[1..]) == {};
      facts := Witness(e.children[0], attrs, NotVerdict(v));
    } else if e.op.Always? || e.op.Never? {
      facts := map[];
    } else {
      ResolveRefs(Operands(e), attrs);
      if v.Error? {
        facts := if e.field.Scalar() then map[e.field := Blank(e.field.Type())] else map[];
      } else {
        Decides(e, attrs, v.True?);
        var ds := ResolveAll(Operands(e), attrs).value;
        facts := map[e.field := Deciding(e.op, ds, e.field.Type(), v.True?)];
      }
    }
  }

  lemma {:induction false} WitnessJoined(es: seq<Expr>, disj: bool, attrs: map<string, string>, v: Verdict)
    returns (facts: Facts)
    requires ValidAll(es, PolicyProfile) && OnceAll(es) && CanBeJoined(es, disj, attrs, v)
    ensures Fair(facts, FieldsAll(es)) && JoinedOn(es, disj, facts, attrs) == v
    decreases es, 0
  {
    hide MeaningOn, CanBe, Fields, Valid, Once;
    if es == [] {
      facts := map[];
    } else {
      var a, b :| CanBe(es[0], attrs, a) && CanBeJoined(es[1..], disj, attrs, b) && Join(disj, a, b) == v;
      var one := Witness(es[0], attrs, a);
      var rest := WitnessJoined(es[1..], disj, attrs, b);
      facts := one + rest;
      MeaningAlike(es[0], one, facts, attrs);
      JoinedAlike(es[1..], disj, rest, facts, attrs);
    }
  }

  // ---- a span with given facts ------------------------------------------------------------------------------

  /** Fields of one table: keys and columns are told apart. */
  predicate Consistent(fs: set<Field>) {
    && (forall f :: f in fs ==> (f.Scalar() || ValidIdent(f.map_)) && !f.Type().TNumber? && !f.Type().Unknown?)
    && (forall f, g :: f in fs && g in fs && f.map_ == g.map_ && f.name == g.name ==> f == g)
    && (forall f, g :: f in fs && g in fs && f.Scalar() && !g.Scalar() ==> f.name != g.map_)
  }

  ghost function FieldAt(fs: set<Field>, column: string, name: string): Field
    requires exists f :: f in fs && f.map_ == column && f.name == name
  {
    var f :| f in fs && f.map_ == column && f.name == name; f
  }

  /** The text of a value in a map column: a string itself, anything else under the key of its field. */
  function TextFor(f: Field, d: Datum): string {
    if d.Str? then d.s else f.Key()
  }

  function Names(facts: Facts, column: string): set<string> {
    set f | f in facts.Keys && f.map_ == column :: f.name
  }

  ghost function Entries(facts: Facts, column: string): map<string, string> {
    map n | n in Names(facts, column) ::
      TextFor(FieldAt(facts.Keys, column, n), facts[FieldAt(facts.Keys, column, n)])
  }

  ghost function RowWith(facts: Facts, fs: set<Field>): Row {
    var columns := set f | f in fs && !f.Scalar() :: f.map_;
    (map c | c in columns :: Dict(Entries(facts, c)))
    + (map n | n in Names(facts, "") :: facts[FieldAt(facts.Keys, "", n)])
  }

  ghost function Under(facts: Facts, key: string): Option<Datum> {
    if f :| f in facts && f.Key() == key then Some(facts[f]) else None
  }

  ghost function ConvWith(facts: Facts): Conv {
    Conv(s => match Under(facts, s) case Some(Bool(b)) => Some(b) case _ => None,
         s => None,
         s => match Under(facts, s) case Some(Arr(elems)) => elems case _ => [])
  }

  lemma ScalarFact(facts: Facts, fs: set<Field>, f: Field)
    requires Fair(facts, fs) && Consistent(fs) && f in fs && f.Scalar()
    ensures f.name in RowWith(facts, fs) && RowWith(facts, fs)[f.name] == facts[f]
  {
    assert f.name in Names(facts, "");
    assert FieldAt(facts.Keys, "", f.name) == f;
  }

  lemma MapFact(facts: Facts, fs: set<Field>, f: Field)
    requires Fair(facts, fs) && Consistent(fs) && f in fs && !f.Scalar()
    ensures f.map_ in RowWith(facts, fs) && RowWith(facts, fs)[f.map_] == Dict(Entries(facts, f.map_))
    ensures f.name in Entries(facts, f.map_) <==> f in facts
    ensures f in facts ==> Entries(facts, f.map_)[f.name] == TextFor(f, facts[f])
  {
    hide FieldFits, ValidIdent;
    var columns := set g | g in fs && !g.Scalar() :: g.map_;
    assert f.map_ in columns && f.map_ !in Names(facts, "");
    if f.name in Names(facts, f.map_) {
      var g :| g in facts && g.map_ == f.map_ && g.name == f.name;
      assert g == f && FieldAt(facts.Keys, f.map_, f.name) == f;
    } else {
      assert f !in facts;
    }
  }

  lemma HasFacts(facts: Facts, fs: set<Field>, f: Field)
    requires Fair(facts, fs) && Consistent(fs) && f in fs
    ensures FieldFits(f, RowWith(facts, fs))
    ensures Lookup(f, RowWith(facts, fs), ConvWith(facts)) == if f in facts then Some(facts[f]) else None
  {
    hide RowWith, Entries, FieldAt, ValidIdent, Under;
    if f in facts { KeysApart(facts, fs, f); }
    if f.Scalar() { ScalarFact(facts, fs, f); } else { MapFact(facts, fs, f); }
  }

  lemma KeysApart(facts: Facts, fs: set<Field>, f: Field)
    requires Fair(facts, fs) && Consistent(fs) && f in facts
    ensures Under(facts, f.Key()) == Some(facts[f])
  {
    forall g | g in facts && g.Key() == f.Key() ensures g == f { KeyIdentifies(f, g); }
  }

  lemma {:induction false} Realized(e: Expr, facts: Facts, fs: set<Field>, attrs: map<string, string>)
    requires Valid(e, PolicyProfile) && Fields(e) <= fs && Fair(facts, fs) && Consistent(fs)
    ensures RowFits(e, RowWith(facts, fs))
    ensures Meaning(e, RowWith(facts, fs), attrs, ConvWith(facts)) == MeaningOn(e, facts, attrs)
    decreases e, 1
  {
    hide RowWith, ConvWith, Consistent, Fair;
    if IsConnective(e.op) {
      RealizedAll(e.children, facts, fs, attrs);
      if e.op.Negation? { Realized(e.children[0], facts, fs, attrs); }
    } else if !e.op.Always? && !e.op.Never? {
      HasFacts(facts, fs, e.field);
    }
  }

  lemma {:induction false} RealizedAll(es: seq<Expr>, facts: Facts, fs: set<Field>, attrs: map<string, string>)
    requires ValidAll(es, PolicyProfile) && FieldsAll(es) <= fs && Fair(facts, fs) && Consistent(fs)
    ensures RowFitsAll(es, RowWith(facts, fs))
    ensures forall disj ::
      Joined(es, disj, RowWith(facts, fs), attrs, ConvWith(facts)) == JoinedOn(es, disj, facts, attrs)
    decreases es, 0
  {
    hide RowWith, ConvWith, Consistent, Fair, Meaning, MeaningOn, RowFits;
    if es != [] {
      Realized(es[0], facts, fs, attrs);
      RealizedAll(es[1..], facts, fs, attrs);
      assert es == [es[0]] + es[1..];
    }
  }

  // ---- several programs -------------------------------------------------------------------------------------

  predicate AllValid(programs: seq<Policy.Program>) {
    forall p :: p in programs ==> Valid(p.root, PolicyProfile)
  }

  function Roots(programs: seq<Policy.Program>): seq<Expr> {
    if programs == [] then [] else [programs[0].root] + Roots(programs[1..])
  }

  /** CEL grants the span: one of the programs is true of it. */
  predicate Grants(programs: seq<Policy.Program>, row: Row, attrs: map<string, string>, conv: Conv)
    requires RowFitsPrograms(programs, row)
  {
    exists p :: p in programs && Meaning(p.root, row, attrs, conv) == True
  }

  /** A program that is dropped but can be true. */
  predicate Missed(p: Policy.Program, attrs: map<string, string>) {
    !Applies(p, attrs) && CanBe(p.root, attrs, True)
  }

  /** A program that grants whatever a span holds. */
  predicate GrantsAll(p: Policy.Program, attrs: map<string, string>) {
    Applies(p, attrs) && !CanBe(p.root, attrs, False) && !CanBe(p.root, attrs, Error)
  }

  /** A program that is dropped can still be true, and no program that applies makes up for it on every span. */
  predicate Loses(programs: seq<Policy.Program>, attrs: map<string, string>) {
    (exists p :: p in programs && Missed(p, attrs)) && forall p :: p in programs ==> !GrantsAll(p, attrs)
  }

  /** As long as nothing can be lost, the caller's predicate is what CEL says on every span. */
  lemma NothingLost(programs: seq<Policy.Program>, row: Row, attrs: map<string, string>, conv: Conv)
    requires AllValid(programs) && RowFitsPrograms(programs, row) && !Loses(programs, attrs)
    ensures Permits(programs, row, attrs, conv) <==> Grants(programs, row, attrs, conv)
  {
    hide Meaning, CanBe, RowFits, Valid;
    forall p | p in programs ensures CanBe(p.root, attrs, Meaning(p.root, row, attrs, conv)) {
      MeaningCanBe(p.root, row, attrs, conv);
    }
  }

  /** A verdict for each of some predicates that keeps the caller's predicate from being true. */
  predicate Losing(programs: seq<Policy.Program>, vs: seq<Verdict>, attrs: map<string, string>) {
    && |vs| == |programs|
    && forall i :: 0 <= i < |vs| ==>
         CanBe(programs[i].root, attrs, vs[i]) && (Applies(programs[i], attrs) ==> !vs[i].True?)
  }

  lemma {:induction false} LosingVerdicts(programs: seq<Policy.Program>, attrs: map<string, string>)
    returns (vs: seq<Verdict>)
    requires AllValid(programs)
    requires forall p :: p in programs ==> !GrantsAll(p, attrs)
    ensures Losing(programs, vs, attrs)
    ensures forall i :: 0 <= i < |vs| && Missed(programs[i], attrs) ==> vs[i].True?
  {
    hide CanBe, Applies;
    vs := [];
    for i := 0 to |programs|
      invariant |vs| == i && Losing(programs[..i], vs, attrs)
      invariant forall k :: 0 <= k < i && Missed(programs[k], attrs) ==> vs[k].True?
    {
      var p := programs[i];
      assert p in programs;
      SomeVerdict(p.root, attrs);
      var v :| CanBe(p.root, attrs, v) && (Applies(p, attrs) ==> !v.True?) && (Missed(p, attrs) ==> v.True?);
      vs := vs + [v];
    }
    assert programs[..|programs|] == programs;
  }

  lemma {:induction false} SomeVerdict(e: Expr, attrs: map<string, string>)
    requires Valid(e, PolicyProfile)
    ensures CanBe(e, attrs, True) || CanBe(e, attrs, False) || CanBe(e, attrs, Error)
    decreases e, 1
  {
    if e.op.AllOf? || e.op.AnyOf? {
      SomeJoined(e.children, e.op.AnyOf?, attrs);
    } else if e.op.Negation? {
      SomeVerdict(e.children[0], attrs);
      assert NotVerdict(NotVerdict(True)) == True;
    }
  }

  lemma {:induction false} SomeJoined(es: seq<Expr>, disj: bool, attrs: map<string, string>)
    requires ValidAll(es, PolicyProfile)
    ensures exists v :: CanBeJoined(es, disj, attrs, v)
    decreases es, 0
  {
    hide CanBe, Valid;
    if es == [] {
      assert CanBeJoined(es, disj, attrs, if disj then False else True);
    } else {
      SomeVerdict(es[0], attrs);
      SomeJoined(es[1..], disj, attrs);
      var a :| CanBe(es[0], attrs, a);
      var b :| CanBeJoined(es[1..], disj, attrs, b);
      assert CanBeJoined(es, disj, attrs, Join(disj, a, b));
    }
  }

  /** Predicates without a field in common can be brought to any verdicts they can have, all on one span. */
  lemma {:induction false} WitnessEach(programs: seq<Policy.Program>, vs: seq<Verdict>, attrs: map<string, string>)
    returns (facts: Facts)
    requires AllValid(programs) && OnceAll(Roots(programs)) && |vs| == |programs|
    requires forall i :: 0 <= i < |vs| ==> CanBe(programs[i].root, attrs, vs[i])
    ensures Fair(facts, FieldsAll(Roots(programs)))
    ensures forall i :: 0 <= i < |vs| ==> MeaningOn(programs[i].root, facts, attrs) == vs[i]
    decreases programs
  {
    hide MeaningOn, CanBe, Fields, Valid, Once;
    if programs == [] {
      facts := map[];
    } else {
      var root, rest := programs[0].root, programs[1..];
      assert Roots(programs)[1..] == Roots(rest);
      var one := Witness(root, attrs, vs[0]);
      var more := WitnessEach(rest, vs[1..], attrs);
      facts := one + more;
      MeaningAlike(root, one, facts, attrs);
      forall i | 1 <= i < |vs| ensures MeaningOn(programs[i].root, facts, attrs) == vs[i] {
        assert rest[i - 1] == programs[i] && MeaningOn(rest[i - 1].root, more, attrs) == vs[1..][i - 1];
        FieldsOf(rest, i - 1);
        MeaningAlike(rest[i - 1].root, more, facts, attrs);
      }
    }
  }

  lemma {:induction false} FieldsOf(programs: seq<Policy.Program>, i: nat)
    requires i < |programs|
    ensures Fields(programs[i].root) <= FieldsAll(Roots(programs))
  {
    hide Fields;
    assert Roots(programs)[1..] == Roots(programs[1..]);
    if i > 0 { FieldsOf(programs[1..], i - 1); }
  }

  /** What can be lost is lost on some span: CEL grants it and the caller does not get it. */
  lemma SomethingLost(programs: seq<Policy.Program>, attrs: map<string, string>) returns (row: Row, conv: Conv)
    requires AllValid(programs) && OnceAll(Roots(programs)) && Consistent(FieldsAll(Roots(programs)))
    requires Loses(programs, attrs)
    ensures RowFitsPrograms(programs, row)
    ensures Grants(programs, row, attrs, conv) && !Permits(programs, row, attrs, conv)
  {
    hide MeaningOn, CanBe, Fields, Valid, Once, Meaning, RowFits, RowWith, ConvWith, Consistent, Fair, Roots,
      OnceAll, Missed, GrantsAll;
    var vs := LosingVerdicts(programs, attrs);
    var facts := WitnessEach(programs, vs, attrs);
    var fs := FieldsAll(Roots(programs));
    row, conv := RowWith(facts, fs), ConvWith(facts);
    forall i | 0 <= i < |programs|
      ensures RowFits(programs[i].root, row) && Meaning(programs[i].root, row, attrs, conv) == vs[i]
    {
      assert programs[i] in programs;
      FieldsOf(programs, i);
      Realized(programs[i].root, facts, fs, attrs);
    }
    var p :| p in programs && Missed(p, attrs);
    var i :| 0 <= i < |programs| && programs[i] == p;
    assert vs[i].True?;
  }

  /** For programs that compare no field twice: the caller's predicate and CEL agree on every span if and only if
      nothing can be lost. */
  lemma EqualExactly(programs: seq<Policy.Program>, attrs: map<string, string>)
    requires AllValid(programs) && OnceAll(Roots(programs)) && Consistent(FieldsAll(Roots(programs)))
    ensures !Loses(programs, attrs) <==>
      forall row: Row, conv: Conv :: RowFitsPrograms(programs, row) ==>
        (Permits(programs, row, attrs, conv) <==> Grants(programs, row, attrs, conv))
  {
    if Loses(programs, attrs) {
      var row, conv := SomethingLost(programs, attrs);
    } else {
      forall row: Row, conv: Conv | RowFitsPrograms(programs, row)
        ensures Permits(programs, row, attrs, conv) <==> Grants(programs, row, attrs, conv)
      {
        NothingLost(programs, row, attrs, conv);
      }
    }
  }

  // ---- the programs of a model --------------------------------------------------------------------------------

  lemma {:induction false} FieldsDeclared(e: Expr, env: Policy.Env)
    requires Within(e, env)
    ensures forall f :: f in Fields(e) ==> f.Key() in env.fields && env.fields[f.Key()] == f
    decreases e, 1
  {
    if IsConnective(e.op) { AllDeclared(e.children, env); }
  }

  lemma {:induction false} AllDeclared(es: seq<Expr>, env: Policy.Env)
    requires forall e :: e in es ==> Within(e, env)
    ensures forall f :: f in FieldsAll(es) ==> f.Key() in env.fields && env.fields[f.Key()] == f
    decreases es, 0
  {
    if es != [] {
      FieldsDeclared(es[0], env);
      AllDeclared(es[1..], env);
    }
  }

  /** The programs of one model always tell their fields apart. */
  lemma ModelIsConsistent(programs: seq<Policy.Program>, env: Policy.Env)
    requires Coherent(env) && forall p :: p in programs ==> Within(p.root, env)
    ensures Consistent(FieldsAll(Roots(programs)))
  {
    RootsWithin(programs, env);
    AllDeclared(Roots(programs), env);
    var fs := FieldsAll(Roots(programs));
    forall f, g | f in fs && g in fs && f.map_ == g.map_ && f.name == g.name ensures f == g {
      assert f.Key() == g.Key();
    }
  }

  lemma {:induction false} RootsWithin(programs: seq<Policy.Program>, env: Policy.Env)
    requires forall p :: p in programs ==> Within(p.root, env)
    ensures forall e :: e in Roots(programs) ==> Within(e, env)
  {
    if programs != [] { RootsWithin(programs[1..], env); }
  }

  /** The program that CEL grants to everyone and that is dropped for want of an attribute can still be true. */
  lemma DroppedLoses()
    ensures Loses([DroppedProgram()], map[])
  {
    var p := DroppedProgram();
    var always, leaf := p.root.children[0], p.root.children[1];
    assert leaf.value in Operands(leaf) && "team" in RefsOf(Operands(leaf));
    assert p.root.children[1..] == [leaf] && p.root.children[1..][1..] == [];
    assert CanBeJoined([], true, map[], False);
    assert CanBe(leaf, map[], Error) && Join(true, Error, False) == Error;
    assert CanBeJoined([leaf], true, map[], Error);
    assert CanBe(always, map[], True) && Join(true, True, Error) == True;
    assert CanBe(p.root, map[], True);
    assert Refs(leaf) <= RefsAll(p.root.children[1..]) <= Refs(p.root);
    assert p in [p] && Missed(p, map[]);
  }
}
