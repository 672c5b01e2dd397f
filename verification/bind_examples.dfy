/**
 * Introducing and removing bindings on the example trees of the rewrite
 * engine's tests: naming a subexpression (raw and in call arguments), lifting
 * the new binding, binding a recomputation to the earlier name, and inlining.
 * The engine names a new binding `z` (or `z_0`, ...), where the tests' trees
 * use other names; the tests compare up to alpha-equivalence.
 */
module BindExamples {
  import opened Wrappers
  import opened Syntax
  import opened Substitution
  import opened Rules
  import opened Names
  import opened Alpha
  import opened Matcher
  import opened ExampleTrees

  const A: Expr := Add(V("x"), I(1))

  /** Looking a name up in a context of two binders, innermost first. */
  lemma Context2(a: Name, b: Name, x: Name)
    ensures IndexOf([a] + ([b] + []), x) == if x == a then Some(0) else if x == b then Some(1) else None
  {
    IndexOfCons(a, [b] + [], x);
    IndexOfCons(b, [], x);
  }

  lemma AClean(rules: seq<Rule>)
    requires rules == [NewBind] || rules == LiftLetRules || rules == [CseBind]
    ensures Clean(rules, A)
  {
    CleanOverAtoms(rules, A);
  }

  // ---------------------------------------------------------------------------
  // (let (y (add x 1)) (add y (add x 1)))

  const NewBindInput: Expr := Let("y", A, Add(V("y"), A))

  function RawAt(p: Path): Match
  {
    Match(RawNewBind, NewBindInput, p, AtNode)
  }

  const RawMatches: seq<Match> := [RawAt([]), RawAt([0]), RawAt([1]), RawAt([1, 1])]

  lemma RawMatchesValid()
    ensures forall m :: m in RawMatches ==> m.root == NewBindInput && m.rule in [RawNewBind] && ValidMatch(m)
  {
    RawNewBindAtRoot();
    RawNewBindAtRhs();
    RawNewBindAtBody();
    RawNewBindAtArg();
  }

  /** The four matches differ in their paths. */
  lemma RawMatchesDistinct()
    ensures Distinct(RawMatches)
  {
    var paths: seq<Path> := [[], [0], [1], [1, 1]];
    assert forall i :: 0 <= i < |RawMatches| ==> RawMatches[i].path == paths[i];
    assert Distinct(paths);
  }

  lemma RawInnerCovered()
    ensures CoversBelow([RawNewBind], NewBindInput, [1], RawMatches)
  {
    CleanAtom([RawNewBind], V("x"));
    CleanAtom([RawNewBind], I(1));
    CleanAtom([RawNewBind], V("y"));
    CoverNode([RawNewBind], NewBindInput, [1, 1], A, RawMatches);
    CoverNode([RawNewBind], NewBindInput, [1], Add(V("y"), A), RawMatches);
  }

  lemma RawRhsCovered()
    ensures CoversBelow([RawNewBind], NewBindInput, [0], RawMatches)
  {
    CleanAtom([RawNewBind], V("x"));
    CleanAtom([RawNewBind], I(1));
    CoverNode([RawNewBind], NewBindInput, [0], A, RawMatches);
  }

  lemma RawCovered()
    ensures CoversBelow([RawNewBind], NewBindInput, [], RawMatches)
  {
    RawInnerCovered();
    RawRhsCovered();
    CoverNode([RawNewBind], NewBindInput, [], NewBindInput, RawMatches);
  }

  /** Every non-atomic node can be named: four matches, in some order. */
  lemma RawNewBindFindsFour()
    ensures multiset(FindAllMatches([RawNewBind], NewBindInput)) == multiset(RawMatches)
  {
    RawCovered();
    RawMatchesValid();
    RawMatchesDistinct();
    FindAllMatchesExactly([RawNewBind], NewBindInput, RawMatches);
  }

  /** The names of the nodes the tests bind: none is `z`, so the new binding is `z`. */
  lemma NewBindNames()
    ensures "z" !in AllNames(A)
    ensures "z" !in AllNames(Add(V("y"), A))
    ensures "z" !in AllNames(NewBindInput)
  {
    AllNamesCall2("add", V("x"), I(1));
    AllNamesCall2("add", V("y"), A);
  }

  lemma RawNewBindAtRoot()
    ensures ValidMatch(RawAt([])) && ApplyRewrite(RawAt([])) == Let("z", NewBindInput, V("z"))
  {
    NewBindNames();
    assert SubtreeAt(NewBindInput, []) == NewBindInput;
    assert Apply(RawNewBind, NewBindInput, AtNode) == Let("z", NewBindInput, V("z"));
  }

  lemma RawNewBindAtRhs()
    ensures ValidMatch(RawAt([0])) && ApplyRewrite(RawAt([0])) == Let("y", Let("z", A, V("z")), Add(V("y"), A))
  {
    NewBindNames();
    assert SubtreeAt(NewBindInput, [0]) == A;
    assert Apply(RawNewBind, A, AtNode) == Let("z", A, V("z"));
  }

  lemma RawNewBindAtBody()
    ensures ValidMatch(RawAt([1])) && ApplyRewrite(RawAt([1])) == Let("y", A, Let("z", Add(V("y"), A), V("z")))
  {
    NewBindNames();
    assert SubtreeAt(NewBindInput, [1]) == Add(V("y"), A);
    assert Apply(RawNewBind, Add(V("y"), A), AtNode) == Let("z", Add(V("y"), A), V("z"));
  }

  lemma RawNewBindAtArg()
    ensures ValidMatch(RawAt([1, 1])) && ApplyRewrite(RawAt([1, 1])) == Let("y", A, Add(V("y"), Let("z", A, V("z"))))
  {
    NewBindNames();
    assert SubtreeAt(Add(V("y"), A), [1]) == A;
    assert SubtreeAt(NewBindInput, [1, 1]) == A;
    assert Apply(RawNewBind, A, AtNode) == Let("z", A, V("z"));
    assert ReplaceAt(Add(V("y"), A), [1], Let("z", A, V("z"))) == Add(V("y"), Let("z", A, V("z")));
  }

  const NewBindMatch: Match := Match(NewBind, NewBindInput, [1], AtChild(1))

  lemma NewBindCovered()
    ensures CoversBelow([NewBind], NewBindInput, [], [NewBindMatch])
  {
    AClean([NewBind]);
    CleanAtom([NewBind], V("y"));
    CoverNode([NewBind], NewBindInput, [1], Add(V("y"), A), [NewBindMatch]);
    CoverNode([NewBind], NewBindInput, [], NewBindInput, [NewBindMatch]);
  }

  /** In a call only the non-atomic argument can be named. */
  lemma NewBindFindsOne()
    ensures FindAllMatches([NewBind], NewBindInput) == [NewBindMatch]
  {
    NewBindCovered();
    FindAllMatchesSingle([NewBind], NewBindInput, NewBindMatch);
  }

  lemma NewBindResult()
    ensures ValidMatch(NewBindMatch) &&
      ApplyRewrite(NewBindMatch) == Let("y", A, Add(V("y"), Let("z", A, V("z"))))
  {
    NewBindNames();
    assert [V("y"), A][1 := Let("z", A, V("z"))] == [V("y"), Let("z", A, V("z"))];
  }

  // ---------------------------------------------------------------------------
  // (mul (add x 1) (add x 1)), step by step to (let (z (add x 1)) (mul z z))

  const Square: Expr := Mul(A, A)
  const BindLeft: Match := Match(NewBind, Square, [], AtChild(0))
  const BindRight: Match := Match(NewBind, Square, [], AtChild(1))

  lemma SquareCovered()
    ensures CoversBelow([NewBind], Square, [], [BindLeft, BindRight])
  {
    AClean([NewBind]);
    CoverNode([NewBind], Square, [], Square, [BindLeft, BindRight]);
  }

  /** Either factor can be named. */
  lemma SquareFindsTwo()
    ensures multiset(FindAllMatches([NewBind], Square)) == multiset([BindLeft, BindRight])
  {
    SquareCovered();
    FindAllMatchesExactly([NewBind], Square, [BindLeft, BindRight]);
  }

  lemma SquareNames()
    ensures "z" !in AllNames(Square)
  {
    AllNamesCall2("add", V("x"), I(1));
    AllNamesCall2("mul", A, A);
  }

  const BoundRight: Expr := Mul(A, Let("z", A, V("z")))

  lemma SquareBound()
    ensures ValidMatch(BindLeft) && ApplyRewrite(BindLeft) == Mul(Let("z", A, V("z")), A)
    ensures ValidMatch(BindRight) && ApplyRewrite(BindRight) == BoundRight
  {
    SquareNames();
    assert [A, A][0 := Let("z", A, V("z"))] == [Let("z", A, V("z")), A];
    assert [A, A][1 := Let("z", A, V("z"))] == [A, Let("z", A, V("z"))];
  }

  /** The tests name the new binding `y`; the results agree up to bound names. */
  lemma SquareBoundAsExpected()
    ensures AlphaEq(BoundRight, Mul(A, Let("y", A, V("y"))))
  {
  }

  /** A fresh binding of `A`, as a new binding leaves it, is clean for the let-lifting rules. */
  lemma NamedClean(v: Name)
    ensures Clean(LiftLetRules, Let(v, A, V(v)))
  {
    AClean(LiftLetRules);
    CleanAtom(LiftLetRules, V(v));
    CleanNode(LiftLetRules, Let(v, A, V(v)));
  }

  // The binding of the right factor is lifted out of the product.

  const LiftRight: Match := Match(LiftLetOverCall, BoundRight, [], AtChild(1))

  lemma BoundRightHere()
    ensures ValidMatch(LiftRight)
    ensures forall r, s :: r in LiftLetRules && Applies(r, BoundRight, s) ==> r == LiftLetOverCall && s == AtChild(1)
  {
  }

  lemma BoundRightFindsOne()
    ensures FindAllMatches(LiftLetRules, BoundRight) == [LiftRight]
  {
    AClean(LiftLetRules);
    NamedClean("z");
    BoundRightHere();
    RuleSetsDistinct();
    FindAllMatchesAtRoot(LiftLetRules, BoundRight, LiftRight);
  }

  const Lifted1: Expr := Let("z", A, Mul(A, V("z")))

  lemma BoundRightLifted()
    ensures ValidMatch(LiftRight) && ApplyRewrite(LiftRight) == Lifted1
  {
    BoundRightHere();
    assert "z" !in FreeVars(A);
    assert [A, Let("z", A, V("z"))][1 := V("z")] == [A, V("z")];
  }

  lemma Lifted1AsExpected()
    ensures AlphaEq(Lifted1, Let("y", A, Mul(A, V("y"))))
  {
  }

  // The remaining factor is named; `z` is taken, so the new binding is `z_0`.

  const BindAgain: Match := Match(NewBind, Lifted1, [1], AtChild(0))

  lemma Lifted1Covered()
    ensures CoversBelow([NewBind], Lifted1, [], [BindAgain])
  {
    AClean([NewBind]);
    CleanAtom([NewBind], V("z"));
    CoverNode([NewBind], Lifted1, [1], Mul(A, V("z")), [BindAgain]);
    CoverNode([NewBind], Lifted1, [], Lifted1, [BindAgain]);
  }

  lemma Lifted1FindsOne()
    ensures FindAllMatches([NewBind], Lifted1) == [BindAgain]
  {
    Lifted1Covered();
    FindAllMatchesSingle([NewBind], Lifted1, BindAgain);
  }

  lemma ProductFresh()
    ensures FreshName("z", AllNames(Mul(A, V("z")))) == "z_0"
  {
    AllNamesCall2("add", V("x"), I(1));
    AllNamesCall2("mul", A, V("z"));
    assert "z" + "_0" == "z_0";
    FreshNameFirstSuffix("z", AllNames(Mul(A, V("z"))));
  }

  const Bound2: Expr := Let("z", A, Mul(Let("z_0", A, V("z_0")), V("z")))

  lemma Lifted1Bound()
    ensures ValidMatch(BindAgain) && ApplyRewrite(BindAgain) == Bound2
  {
    ProductFresh();
    assert [A, V("z")][0 := Let("z_0", A, V("z_0"))] == [Let("z_0", A, V("z_0")), V("z")];
  }

  lemma Bound2AsExpected()
    ensures AlphaEq(Bound2, Let("y", A, Mul(Let("z", A, V("z")), V("y"))))
  {
  }

  // The new binding is lifted out of the product in turn.

  const LiftLeft: Match := Match(LiftLetOverCall, Bound2, [1], AtChild(0))

  lemma Bound2Valid()
    ensures ValidMatch(LiftLeft)
  {
    assert SubtreeAt(Bound2, [1]) == Mul(Let("z_0", A, V("z_0")), V("z"));
  }

  lemma Bound2ProductHere()
    ensures forall r, s :: r in LiftLetRules && Applies(r, Mul(Let("z_0", A, V("z_0")), V("z")), s) ==>
      r == LiftLetOverCall && s == AtChild(0)
  {
  }

  lemma Bound2Root()
    ensures forall r, s :: r in LiftLetRules ==> !Applies(r, Bound2, s)
  {
  }

  lemma Bound2Covered()
    ensures CoversBelow(LiftLetRules, Bound2, [], [LiftLeft])
  {
    AClean(LiftLetRules);
    NamedClean("z_0");
    CleanAtom(LiftLetRules, V("z"));
    Bound2ProductHere();
    Bound2Root();
    CoverNode(LiftLetRules, Bound2, [1], Mul(Let("z_0", A, V("z_0")), V("z")), [LiftLeft]);
    CoverNode(LiftLetRules, Bound2, [], Bound2, [LiftLeft]);
  }

  lemma Bound2FindsOne()
    ensures FindAllMatches(LiftLetRules, Bound2) == [LiftLeft]
  {
    Bound2Covered();
    Bound2Valid();
    RuleSetsDistinct();
    FindAllMatchesSingle(LiftLetRules, Bound2, LiftLeft);
  }

  const Lifted2: Expr := Let("z", A, Let("z_0", A, Mul(V("z_0"), V("z"))))

  lemma Bound2Lifted()
    ensures ValidMatch(LiftLeft) && ApplyRewrite(LiftLeft) == Lifted2
  {
    Bound2Valid();
    assert SubtreeAt(Bound2, [1]) == Mul(Let("z_0", A, V("z_0")), V("z"));
    assert OtherArgs([Let("z_0", A, V("z_0")), V("z")], 0) == [V("z")];
    assert "z_0" !in FreeVarsArgs([V("z")]);
    assert [Let("z_0", A, V("z_0")), V("z")][0 := V("z_0")] == [V("z_0"), V("z")];
  }

  lemma Lifted2AsExpected()
    ensures AlphaEq(Lifted2, Let("y", A, Let("z", A, Mul(V("z"), V("y")))))
  {
    Context2("z_0", "z", "z_0"); Context2("z", "y", "z");
    Context2("z_0", "z", "z"); Context2("z", "y", "y");
  }

  // The second binding recomputes the first: it becomes an alias of `z`.

  /** No let occurs anywhere in a tree that is clean for let inlining. */
  lemma NoLetIn(e: Expr, q: Path)
    requires Clean([InlineLet], e) && ValidPath(e, q)
    ensures !SubtreeAt(e, q).Let?
  {
    assert !Applies(InlineLet, SubtreeAt(e, q), AtNode);
  }

  /** Below a let whose children contain no let, there is no let. */
  lemma NoLetBelow(x: Name, r: Expr, b: Expr, q: Path)
    requires Clean([InlineLet], r) && Clean([InlineLet], b)
    requires ValidPath(Let(x, r, b), q) && q != []
    ensures !SubtreeAt(Let(x, r, b), q).Let?
  {
    NoLetIn(Children(Let(x, r, b))[q[0]], q[1..]);
  }

  const Product: Expr := Mul(V("z_0"), V("z"))
  const Inner: Expr := Let("z_0", A, Product)
  const CseMatch: Match := Match(CseBind, Lifted2, [], AtPath([]))

  lemma LetFreeParts()
    ensures Clean([InlineLet], A) && Clean([InlineLet], Product)
  {
    CleanOverAtoms([InlineLet], A);
    CleanOverAtoms([InlineLet], Product);
  }

  lemma CseValid()
    ensures ValidMatch(CseMatch)
  {
    AlphaEqRefl(A);
    assert "z" !in FreeVars(A);
  }

  lemma CseHere()
    ensures forall s :: Applies(CseBind, Lifted2, s) ==> s == AtPath([])
  {
    forall s | Applies(CseBind, Lifted2, s) ensures s == AtPath([]) {
      if s.q != [] {
        LetFreeParts();
        NoLetBelow("z_0", A, Product, s.q);
      }
    }
  }

  /** The inner let's body holds no let, so nothing there recomputes its binding. */
  lemma InnerClean()
    ensures Clean([CseBind], Inner)
  {
    CleanOverAtoms([CseBind], A);
    CleanOverAtoms([CseBind], Product);
    forall s | Applies(CseBind, Inner, s) ensures false {
      LetFreeParts();
      NoLetIn(Product, s.q);
    }
    CleanNode([CseBind], Inner);
  }

  lemma Lifted2FindsOne()
    ensures FindAllMatches([CseBind], Lifted2) == [CseMatch]
  {
    InnerClean();
    AClean([CseBind]);
    LetChildrenClean([CseBind], "z", A, Inner);
    CseValid();
    CseHere();
    FindAllMatchesAtRoot([CseBind], Lifted2, CseMatch);
  }

  const CseBound: Expr := Let("z", A, Let("z_0", V("z"), Product))

  lemma Lifted2Cse()
    ensures ValidMatch(CseMatch) && ApplyRewrite(CseMatch) == CseBound
  {
    CseValid();
  }

  lemma CseBoundAsExpected()
    ensures AlphaEq(CseBound, Let("y", A, Let("z", V("y"), Mul(V("z"), V("y")))))
  {
    Context2("z_0", "z", "z_0"); Context2("z", "y", "z");
    Context2("z_0", "z", "z"); Context2("z", "y", "y");
  }

  // Either binding can be inlined; inlining the alias gives the intended `(mul z z)`.

  const InlineOuter: Match := Match(InlineLet, CseBound, [], AtNode)
  const InlineInner: Match := Match(InlineLet, CseBound, [1], AtNode)

  lemma CseBoundCovered()
    ensures CoversBelow([InlineLet], CseBound, [], [InlineOuter, InlineInner])
  {
    CleanAtom([InlineLet], V("z"));
    LetFreeParts();
    CoverNode([InlineLet], CseBound, [1], Let("z_0", V("z"), Product), [InlineOuter, InlineInner]);
    CoverNode([InlineLet], CseBound, [], CseBound, [InlineOuter, InlineInner]);
  }

  lemma InlineMatchesValid()
    ensures forall m :: m in [InlineOuter, InlineInner] ==> m.root == CseBound && m.rule in [InlineLet] && ValidMatch(m)
  {
    assert SubtreeAt(CseBound, [1]) == CseBound.body;
    assert ValidMatch(InlineOuter) && ValidMatch(InlineInner);
  }

  lemma CseBoundFindsTwo()
    ensures multiset(FindAllMatches([InlineLet], CseBound)) == multiset([InlineOuter, InlineInner])
  {
    CseBoundCovered();
    InlineMatchesValid();
    FindAllMatchesExactly([InlineLet], CseBound, [InlineOuter, InlineInner]);
  }

  lemma InlineOuterResult()
    ensures ValidMatch(InlineOuter) && ApplyRewrite(InlineOuter) == Let("z_0", A, Mul(V("z_0"), A))
  {
    assert "z" in FreeVars(Product) && "z_0" !in FreeVars(A);
    assert SubstArgs([V("z_0"), V("z")], "z", A) == [V("z_0"), A];
  }

  lemma InlineInnerResult()
    ensures ValidMatch(InlineInner) && ApplyRewrite(InlineInner) == Let("z", A, Mul(V("z"), V("z")))
  {
    assert SubstArgs([V("z_0"), V("z")], "z_0", V("z")) == [V("z"), V("z")];
  }

  lemma InlinedAsExpected()
    ensures AlphaEq(Let("z_0", A, Mul(V("z_0"), A)), Let("z", A, Mul(V("z"), A)))
    ensures AlphaEq(Let("z", A, Mul(V("z"), V("z"))), Let("y", A, Mul(V("y"), V("y"))))
  {
  }
}
