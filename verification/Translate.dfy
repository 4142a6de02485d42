/** A caller's access as one SQL predicate: the OR of the programs the caller's attributes satisfy, and its
    forms over the spans of a trace. */
module Translate {
  import opened Basics
  import opened Schema
  import opened SqlSyntax
  import opened SqlRoundTrip
  import opened SqlText
  import opened SqlSemantics
  import opened Expression
  import opened ExpressionMeaning
  import Policy

  // ---- the predicate of several programs ---------------------------------------------------------------

  /** A program none of whose attributes the caller lacks. */
  predicate Applies(p: Policy.Program, attrs: map<string, string>) {
    Valid(p.root, PolicyProfile) && Refs(p.root) <= attrs.Keys
  }

  function TreeOf(p: Policy.Program, attrs: map<string, string>): (r: Option<Ast>)
    ensures Compiled(p.root, PolicyProfile, attrs).Ok? == r.Some?
    ensures r.Some? ==> Compiled(p.root, PolicyProfile, attrs) == Ok(FragmentOf(r.value))
  {
    if Valid(p.root, PolicyProfile) then Lower(p.root, false, attrs, PolicyProfile) else None
  }

  /** The syntax trees of the programs that apply, in order. */
  function Trees(programs: seq<Policy.Program>, attrs: map<string, string>): seq<Ast> {
    if programs == [] then []
    else
      var before := Trees(programs[..|programs| - 1], attrs);
      match TreeOf(programs[|programs| - 1], attrs) case None => before case Some(a) => before + [a]
  }

  function PredicateTree(programs: seq<Policy.Program>, attrs: map<string, string>): Option<Ast> {
    if Trees(programs, attrs) == [] then None else Some(Parens(Chain(Trees(programs, attrs), true)))
  }

  /** Texts with a separator between them. */
  function Joined(texts: seq<seq<Token>>, separator: Token): seq<Token> {
    if texts == [] then []
    else if |texts| == 1 then texts[0]
    else Joined(texts[..|texts| - 1], separator) + [separator] + texts[|texts| - 1]
  }

  lemma JoinedStep(clauses: seq<seq<Token>>, trees: seq<Ast>, a: Ast)
    requires |clauses| == |trees| && Joined(clauses, OR) == JoinedText(trees, true)
    ensures Joined(clauses + [TextOf(a)], OR) == JoinedText(trees + [a], true)
    ensures JoinedArgs(trees + [a], true) == JoinedArgs(trees, true) + ArgsOf(a)
  {
    hide TextOf, ArgsOf, JoinedArgs;
    JoinOneMore(trees, a, true);
    assert (clauses + [TextOf(a)])[..|clauses|] == clauses;
    if clauses == [] {
      assert [] + ([] + TextOf(a)) == TextOf(a);
    } else {
      assert JoinedText(trees, true) + ([OR] + TextOf(a)) == JoinedText(trees, true) + [OR] + TextOf(a);
    }
  }

  lemma JoinedNone()
    ensures Joined([], OR) == [] && JoinedText([], true) == [] && JoinedArgs([], true) == []
  {
  }

  lemma JoinedWhole(trees: seq<Ast>)
    requires trees != []
    ensures TextOf(Parens(Chain(trees, true))) == [LP] + JoinedText(trees, true) + [RP]
    ensures ArgsOf(Parens(Chain(trees, true))) == JoinedArgs(trees, true)
  {
    ParensText(Chain(trees, true));
  }

  /** Compiles every program, skips those that cannot be compiled for this caller, and is refused if none
      is left. */
  method Predicate(programs: seq<Policy.Program>, attrs: map<string, string>) returns (r: Result<Fragment, Refusal>)
    ensures r == match PredicateTree(programs, attrs) case None => Err(Unsatisfiable) case Some(a) => Ok(FragmentOf(a))
  {
    hide TreeOf, Compiled, TextOf, ArgsOf, Chain, Joined, JoinedText, JoinedArgs;
    var clauses: seq<seq<Token>>, args: seq<Datum> := [], [];
    ghost var trees: seq<Ast> := [];
    JoinedNone();
    for i := 0 to |programs|
      invariant trees == Trees(programs[..i], attrs) && |clauses| == |trees|
      invariant Joined(clauses, OR) == JoinedText(trees, true) && args == JoinedArgs(trees, true)
    {
      var p := programs[i];
      assert programs[..i + 1][..i] == programs[..i] && programs[..i + 1][i] == p;
      var q := Expression.Compile(p.root, PolicyProfile, attrs);
      if q.Ok? {
        ghost var a := TreeOf(p, attrs).value;
        JoinedStep(clauses, trees, a);
        trees := trees + [a];
        clauses := clauses + [q.value.sql];
        args := args + q.value.args;
      }
    }
    assert programs[..|programs|] == programs;
    if |clauses| == 0 { return Err(Unsatisfiable); }
    JoinedWhole(trees);
    return Ok(Fragment([LP] + Joined(clauses, OR) + [RP], args));
  }

  // ---- access --------------------------------------------------------------------------------------------

  /** The caller may see a span by itself: a program that applies says true of it. */
  predicate Permits(programs: seq<Policy.Program>, row: Row, attrs: map<string, string>, conv: Conv) {
    exists p :: p in programs && Applies(p, attrs) && RowFits(p.root, row) && Meaning(p.root, row, attrs, conv) == True
  }

  predicate RowFitsPrograms(programs: seq<Policy.Program>, row: Row) {
    forall p :: p in programs ==> RowFits(p.root, row)
  }

  lemma {:induction false} TreesMeaning(programs: seq<Policy.Program>, attrs: map<string, string>, c: Ctx)
    requires RowFitsPrograms(programs, c.row)
    ensures forall a :: a in Trees(programs, attrs) ==> Wf(a) && Level(a) == 4 && Flag(Eval(a, c))
    ensures (exists a :: a in Trees(programs, attrs) && IsTrue(Eval(a, c))) <==> Permits(programs, c.row, attrs, c.conv)
    ensures Trees(programs, attrs) == [] <==> forall p :: p in programs ==> !Applies(p, attrs)
  {
    hide Eval, Meaning, Lower, RowFits, Wf;
    if programs != [] {
      var n := |programs| - 1;
      var p := programs[n];
      assert programs == programs[..n] + [p];
      TreesMeaning(programs[..n], attrs, c);
      OneTree(p, attrs, c);
      PermitsOneMore(programs[..n], p, c.row, attrs, c.conv);
    }
  }

  lemma PermitsOneMore(programs: seq<Policy.Program>, p: Policy.Program, row: Row, attrs: map<string, string>,
    conv: Conv)
    ensures Permits(programs + [p], row, attrs, conv) <==>
      Permits(programs, row, attrs, conv)
      || (Applies(p, attrs) && RowFits(p.root, row) && Meaning(p.root, row, attrs, conv) == True)
  {
    hide Meaning, RowFits, Applies;
    if Permits(programs, row, attrs, conv) {
      var q :| q in programs && Applies(q, attrs) && RowFits(q.root, row) && Meaning(q.root, row, attrs, conv) == True;
      assert q in programs + [p];
    }
    assert p in programs + [p];
  }

  lemma OneTree(p: Policy.Program, attrs: map<string, string>, c: Ctx)
    requires RowFits(p.root, c.row)
    ensures Valid(p.root, PolicyProfile) && Lower(p.root, false, attrs, PolicyProfile).Some? <==> Applies(p, attrs)
    ensures Applies(p, attrs) ==>
      (var a := Lower(p.root, false, attrs, PolicyProfile).value;
       && Wf(a) && Level(a) == 4 && Flag(Eval(a, c))
       && (IsTrue(Eval(a, c)) <==> Meaning(p.root, c.row, attrs, c.conv) == True))
  {
    if Valid(p.root, PolicyProfile) {
      LowerRefs(p.root, false, attrs, PolicyProfile);
      if Applies(p, attrs) {
        LowerWf(p.root, false, attrs, PolicyProfile);
        PolicyIsFilter(p.root, false, attrs);
        LowerMeaning(p.root, false, attrs, c);
      }
    }
  }

  /** The predicate of a caller is TRUE exactly on the spans the caller may see, and is one bracketed
      operand, so that nothing around it can regroup it. */
  lemma PredicateMeaning(programs: seq<Policy.Program>, attrs: map<string, string>, c: Ctx)
    requires RowFitsPrograms(programs, c.row) && PredicateTree(programs, attrs).Some?
    ensures var a := PredicateTree(programs, attrs).value;
      && Wf(a) && Level(a) == 4 && Flag(Eval(a, c))
      && (IsTrue(Eval(a, c)) <==> Permits(programs, c.row, attrs, c.conv))
  {
    hide Eval, Wf;
    var trees := Trees(programs, attrs);
    TreesMeaning(programs, attrs, c);
    ChainMeaning(trees, true, c);
    ParensMeaning(Chain(trees, true), c);
    ChainWf(trees, true);
    ParensWf(Chain(trees, true));
  }

  lemma ParensWf(a: Ast)
    requires Wf(a)
    ensures Wf(Parens(a)) && Level(Parens(a)) == 4
  {
    WfArgsOneTwo(a, a);
  }

  lemma {:induction false} TreesWf(programs: seq<Policy.Program>, attrs: map<string, string>)
    ensures forall a :: a in Trees(programs, attrs) ==> Wf(a) && Level(a) == 4
    ensures Trees(programs, attrs) == [] <==> forall p :: p in programs ==> !Applies(p, attrs)
  {
    hide Lower, Wf;
    if programs != [] {
      var n := |programs| - 1;
      var p := programs[n];
      assert programs == programs[..n] + [p];
      TreesWf(programs[..n], attrs);
      if Valid(p.root, PolicyProfile) {
        LowerRefs(p.root, false, attrs, PolicyProfile);
        if Applies(p, attrs) { LowerWf(p.root, false, attrs, PolicyProfile); }
      }
    }
  }

  /** The text of a caller's predicate reads back as the one tree it was written for, each placeholder with
      its own argument. */
  lemma PredicateReadsBack(programs: seq<Policy.Program>, attrs: map<string, string>)
    requires PredicateTree(programs, attrs).Some?
    ensures var a := PredicateTree(programs, attrs).value;
      Wf(a) && Level(a) == 4 && ReadAst(FragmentOf(a).sql, FragmentOf(a).args) == Some(a)
  {
    TreesWf(programs, attrs);
    ChainWf(Trees(programs, attrs), true);
    ParensWf(Chain(Trees(programs, attrs), true));
    ReadBackText(PredicateTree(programs, attrs).value);
  }

  /** Access is refused outright exactly when every program refers to an attribute the caller lacks. */
  lemma RefusedIff(programs: seq<Policy.Program>, attrs: map<string, string>)
    requires forall p :: p in programs ==> Valid(p.root, PolicyProfile)
    ensures PredicateTree(programs, attrs).None? <==>
      forall p :: p in programs ==> exists a :: a in Refs(p.root) && a !in attrs
  {
    TreesWf(programs, attrs);
    forall p | p in programs
      ensures !Applies(p, attrs) <==> exists a :: a in Refs(p.root) && a !in attrs
    {
    }
  }

  /** More programs, or more attributes next to the ones a caller has, never hide a span, whatever the
      programs negate. */
  lemma AccessGrows(
    programs: seq<Policy.Program>, more: seq<Policy.Program>, attrs: map<string, string>,
    moreAttrs: map<string, string>, row: Row, conv: Conv)
    requires Permits(programs, row, attrs, conv)
    requires (forall p :: p in programs ==> p in more) && Extends(moreAttrs, attrs)
    ensures Permits(more, row, moreAttrs, conv)
  {
    var p :| p in programs && Applies(p, attrs) && RowFits(p.root, row) && Meaning(p.root, row, attrs, conv) == True;
    MeaningExtended(p.root, row, attrs, moreAttrs, conv);
  }

  /** Against CEL the predicate is sound; it also misses nothing as long as the caller has every attribute
      that the programs mention. */
  lemma AgainstCel(programs: seq<Policy.Program>, row: Row, attrs: map<string, string>, conv: Conv)
    requires RowFitsPrograms(programs, row) && forall p :: p in programs ==> Valid(p.root, PolicyProfile)
    ensures Permits(programs, row, attrs, conv) ==>
      exists p :: p in programs && Meaning(p.root, row, attrs, conv) == True
    ensures (forall p :: p in programs ==> Refs(p.root) <= attrs.Keys) ==>
      (Permits(programs, row, attrs, conv) <==> exists p :: p in programs && Meaning(p.root, row, attrs, conv) == True)
  {
    hide Meaning, Valid;
    if forall p :: p in programs ==> Refs(p.root) <= attrs.Keys {
      if p :| p in programs && Meaning(p.root, row, attrs, conv) == True {
        assert Applies(p, attrs);
      }
    }
  }

  /** The program `true || user.team == column` with a caller who has no team. */
  function DroppedProgram(): Policy.Program {
    var f := Field("", "column", TString, false, true);
    Policy.Program("true || user.team == column",
      Expr(AnyOf, Policy.NO_FIELD, Policy.NO_VALUE, [],
           [Policy.Node(Always, []), Expr(Equal, f, Value(Null, "team"), [], [])]))
  }

  /** CEL grants this program to everyone; a caller without the attribute gets nothing from it. */
  lemma DroppedWhole()
    ensures var p, row: Row := DroppedProgram(), map["column" := Str("x")];
      && Valid(p.root, PolicyProfile) && RowFits(p.root, row)
      && (forall conv :: Meaning(p.root, row, map[], conv) == True)
      && (forall conv :: !Permits([p], row, map[], conv))
      && PredicateTree([p], map[]) == None
  {
    var p, row: Row := DroppedProgram(), map["column" := Str("x")];
    var leaf := p.root.children[1];
    assert leaf.value in Operands(leaf) && "team" in Refs(leaf);
    assert p.root.children[1..][0] == leaf;
    assert Refs(leaf) <= RefsAll(p.root.children[1..]) <= Refs(p.root);
    assert !Applies(p, map[]);
    TreesWf([p], map[]);
    forall conv ensures Meaning(p.root, row, map[], conv) == True {
      assert Meaning(p.root.children[0], row, map[], conv) == True;
    }
  }

  // ---- access over a trace ---------------------------------------------------------------------------------

  /** Some row of a group satisfies the predicate. */
  function Having(q: Fragment): Fragment {
    Fragment([FN(CountIf), LP] + q.sql + [RP, CMP(Gt), NUM(0)], q.args)
  }

  function HavingTree(a: Ast): Ast {
    Compare(Gt, Call(CountIf, One(a)), Lit(0))
  }

  lemma HavingText(a: Ast)
    ensures Having(FragmentOf(a)) == FragmentOf(HavingTree(a))
  {
    hide TextOf, ArgsOf;
    CallOneText(CountIf, a);
    CompareText(Gt, Call(CountIf, One(a)), Lit(0));
    AtomTexts("", Null, 0);
  }
}
