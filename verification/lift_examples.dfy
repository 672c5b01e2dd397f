/**
 * The let- and if-lifting rules on the example trees of the rewrite engine's
 * tests: how many matches each rule set finds, and what applying them gives.
 * Equality here is structural equality of trees, names included.
 */
module LiftExamples {
  import opened Syntax
  import opened Rules
  import opened Names
  import opened Substitution
  import opened Alpha
  import opened Matcher
  import opened ExampleTrees

  // ---------------------------------------------------------------------------
  // (add (if p 4.0 2.0) 3.0)  =>  (if p (add 4.0 3.0) (add 2.0 3.0))

  const IfInCall: Expr := Add(If(V("p"), R(4.0), R(2.0)), R(3.0))
  const IfInCallMatch: Match := Match(LiftIfOverCall, IfInCall, [], AtChild(0))

  lemma IfInCallHere()
    ensures ValidMatch(IfInCallMatch)
    ensures forall r, s :: r in LiftIfRules && Applies(r, IfInCall, s) ==> r == LiftIfOverCall && s == AtChild(0)
  {
  }

  /** Lifting an if out of a call argument: exactly one match. */
  lemma IfInCallFindsOne()
    ensures FindAllMatches(LiftIfRules, IfInCall) == [IfInCallMatch]
  {
    CleanAtom(LiftIfRules, V("p"));
    CleanAtom(LiftIfRules, R(4.0));
    CleanAtom(LiftIfRules, R(2.0));
    CleanNode(LiftIfRules, If(V("p"), R(4.0), R(2.0)));
    CleanAtom(LiftIfRules, R(3.0));
    IfInCallHere();
    RuleSetsDistinct();
    FindAllMatchesAtRoot(LiftIfRules, IfInCall, IfInCallMatch);
  }

  /** The other argument is copied into both branches. */
  lemma IfInCallLifted()
    ensures ApplyRewrite(IfInCallMatch) == If(V("p"), Add(R(4.0), R(3.0)), Add(R(2.0), R(3.0)))
  {
    IfInCallHere();
    assert IfInCall.args[0 := R(4.0)] == [R(4.0), R(3.0)];
    assert IfInCall.args[0 := R(2.0)] == [R(2.0), R(3.0)];
  }

  // ---------------------------------------------------------------------------
  // (let (x 4) (if (gt y 0) x 0))  =>  (if (gt y 0) (let (x 4) x) (let (x 4) 0))

  const IfInLet: Expr := Let("x", I(4), If(Gt(V("y"), I(0)), V("x"), I(0)))
  const IfInLetMatch: Match := Match(LiftIfOverLetBody, IfInLet, [], AtNode)

  /** The same let, but the condition uses the bound `x`. */
  const IfInLetUsesBinder: Expr := Let("x", I(4), If(Gt(V("x"), I(0)), V("x"), I(0)))

  lemma IfInLetHere()
    ensures ValidMatch(IfInLetMatch)
    ensures forall r, s :: r in LiftIfRules && Applies(r, IfInLet, s) ==> r == LiftIfOverLetBody && s == AtNode
  {
  }

  lemma IfInLetClean()
    ensures Clean(LiftIfRules, I(4)) && Clean(LiftIfRules, If(Gt(V("y"), I(0)), V("x"), I(0)))
  {
    CleanAtom(LiftIfRules, V("y"));
    CleanAtom(LiftIfRules, V("x"));
    CleanAtom(LiftIfRules, I(0));
    CleanAtom(LiftIfRules, I(4));
    CleanNode(LiftIfRules, Gt(V("y"), I(0)));
    CleanNode(LiftIfRules, If(Gt(V("y"), I(0)), V("x"), I(0)));
  }

  /** An if with a call condition leaves a let body: exactly one match. */
  lemma IfInLetFindsOne()
    ensures FindAllMatches(LiftIfRules, IfInLet) == [IfInLetMatch]
  {
    IfInLetClean();
    LetChildrenClean(LiftIfRules, "x", I(4), If(Gt(V("y"), I(0)), V("x"), I(0)));
    IfInLetHere();
    RuleSetsDistinct();
    FindAllMatchesAtRoot(LiftIfRules, IfInLet, IfInLetMatch);
  }

  /** The let is copied into both branches. */
  lemma IfInLetLifted()
    ensures ApplyRewrite(IfInLetMatch) == If(Gt(V("y"), I(0)), Let("x", I(4), V("x")), Let("x", I(4), I(0)))
  {
    IfInLetHere();
  }

  lemma IfInLetUsesBinderBodyClean()
    ensures Clean(LiftIfRules, If(Gt(V("x"), I(0)), V("x"), I(0)))
  {
    CleanOverAtoms(LiftIfRules, Gt(V("x"), I(0)));
    CleanAtom(LiftIfRules, V("x"));
    CleanAtom(LiftIfRules, I(0));
    CleanNode(LiftIfRules, If(Gt(V("x"), I(0)), V("x"), I(0)));
  }

  lemma IfInLetUsesBinderClean()
    ensures Clean(LiftIfRules, IfInLetUsesBinder)
  {
    IfInLetUsesBinderBodyClean();
    CleanAtom(LiftIfRules, I(4));
    CleanNode(LiftIfRules, IfInLetUsesBinder);
  }

  /** The condition would leave the scope of the name it uses: no match at all. */
  lemma IfInLetUsesBinderFindsNone()
    ensures FindAllMatches(LiftIfRules, IfInLetUsesBinder) == []
  {
    IfInLetUsesBinderClean();
    FindAllMatchesNone(LiftIfRules, IfInLetUsesBinder);
  }

  // ---------------------------------------------------------------------------
  // (add (let (x 4.0) (add x 2.0)) 3.0)  =>  (let (x 4.0) (add (add x 2.0) 3.0))

  const LetInCall: Expr := Add(Let("x", R(4.0), Add(V("x"), R(2.0))), R(3.0))
  const LetInCallMatch: Match := Match(LiftLetOverCall, LetInCall, [], AtChild(0))

  lemma LetInCallHere()
    ensures ValidMatch(LetInCallMatch)
    ensures forall r, s :: r in LiftLetRules && Applies(r, LetInCall, s) ==> r == LiftLetOverCall && s == AtChild(0)
  {
  }

  /** Lifting a let out of a call argument: exactly one match. */
  lemma LetInCallFindsOne()
    ensures FindAllMatches(LiftLetRules, LetInCall) == [LetInCallMatch]
  {
    CleanAtom(LiftLetRules, V("x"));
    CleanAtom(LiftLetRules, R(2.0));
    CleanAtom(LiftLetRules, R(3.0));
    CleanAtom(LiftLetRules, R(4.0));
    CleanNode(LiftLetRules, Add(V("x"), R(2.0)));
    CleanNode(LiftLetRules, Let("x", R(4.0), Add(V("x"), R(2.0))));
    LetInCallHere();
    RuleSetsDistinct();
    FindAllMatchesAtRoot(LiftLetRules, LetInCall, LetInCallMatch);
  }

  lemma LetInCallLifted()
    ensures ApplyRewrite(LetInCallMatch) == Let("x", R(4.0), Add(Add(V("x"), R(2.0)), R(3.0)))
  {
    LetInCallHere();
    assert LetInCall.args[0 := Add(V("x"), R(2.0))] == [Add(V("x"), R(2.0)), R(3.0)];
  }

  // ---------------------------------------------------------------------------
  // (let (x 4) (let (y 5) (add x y)))  <=>  (let (y 5) (let (x 4) (add x y)))

  const NestedLets: Expr := Let("x", I(4), Let("y", I(5), Add(V("x"), V("y"))))
  const SwappedLets: Expr := Let("y", I(5), Let("x", I(4), Add(V("x"), V("y"))))

  /** The inner right-hand side uses the outer name, so the lets cannot be swapped. */
  const DependentLets: Expr := Let("x", I(5), Let("y", Add(V("x"), I(1)), Add(V("x"), V("y"))))

  lemma NestedLetsHere()
    ensures ValidMatch(Match(LiftLetOverLetBody, NestedLets, [], AtNode))
    ensures ValidMatch(Match(LiftLetOverLetBody, SwappedLets, [], AtNode))
    ensures forall r, s :: r in LiftLetRules && Applies(r, NestedLets, s) ==> r == LiftLetOverLetBody && s == AtNode
    ensures forall r, s :: r in LiftLetRules && Applies(r, SwappedLets, s) ==> r == LiftLetOverLetBody && s == AtNode
  {
  }

  lemma NestedLetsClean()
    ensures Clean(LiftLetRules, I(4)) && Clean(LiftLetRules, I(5))
    ensures Clean(LiftLetRules, Let("y", I(5), Add(V("x"), V("y"))))
    ensures Clean(LiftLetRules, Let("x", I(4), Add(V("x"), V("y"))))
  {
    var sum := Add(V("x"), V("y"));
    CleanAtom(LiftLetRules, V("x"));
    CleanAtom(LiftLetRules, V("y"));
    CleanAtom(LiftLetRules, I(4));
    CleanAtom(LiftLetRules, I(5));
    CleanNode(LiftLetRules, sum);
    CleanNode(LiftLetRules, Let("y", I(5), sum));
    CleanNode(LiftLetRules, Let("x", I(4), sum));
  }

  lemma NestedLetsFindOne()
    ensures FindAllMatches(LiftLetRules, NestedLets) == [Match(LiftLetOverLetBody, NestedLets, [], AtNode)]
  {
    NestedLetsClean();
    LetChildrenClean(LiftLetRules, "x", I(4), Let("y", I(5), Add(V("x"), V("y"))));
    NestedLetsHere();
    RuleSetsDistinct();
    FindAllMatchesAtRoot(LiftLetRules, NestedLets, Match(LiftLetOverLetBody, NestedLets, [], AtNode));
  }

  lemma SwappedLetsFindOne()
    ensures FindAllMatches(LiftLetRules, SwappedLets) == [Match(LiftLetOverLetBody, SwappedLets, [], AtNode)]
  {
    NestedLetsClean();
    LetChildrenClean(LiftLetRules, "y", I(5), Let("x", I(4), Add(V("x"), V("y"))));
    NestedLetsHere();
    RuleSetsDistinct();
    FindAllMatchesAtRoot(LiftLetRules, SwappedLets, Match(LiftLetOverLetBody, SwappedLets, [], AtNode));
  }

  lemma NestedLetsSwapped()
    ensures ApplyRewrite(Match(LiftLetOverLetBody, NestedLets, [], AtNode)) == SwappedLets
    ensures ApplyRewrite(Match(LiftLetOverLetBody, SwappedLets, [], AtNode)) == NestedLets
  {
    NestedLetsHere();
  }

  /** Interchanging two independent lets is its own inverse: each tree has exactly one
      rewrite, and it gives the other. */
  lemma InterchangeTwiceIsIdentity()
    ensures RewriteAll(LiftLetRules, NestedLets) == [SwappedLets]
    ensures RewriteAll(LiftLetRules, SwappedLets) == [NestedLets]
  {
    NestedLetsFindOne();
    SwappedLetsFindOne();
    NestedLetsSwapped();
  }

  lemma DependentLetsClean()
    ensures Clean(LiftLetRules, DependentLets)
  {
    CleanAtom(LiftLetRules, V("x"));
    CleanAtom(LiftLetRules, V("y"));
    CleanAtom(LiftLetRules, I(1));
    CleanAtom(LiftLetRules, I(5));
    CleanNode(LiftLetRules, Add(V("x"), I(1)));
    CleanNode(LiftLetRules, Add(V("x"), V("y")));
    CleanNode(LiftLetRules, Let("y", Add(V("x"), I(1)), Add(V("x"), V("y"))));
    CleanNode(LiftLetRules, DependentLets);
  }

  lemma DependentLetsFindNone()
    ensures FindAllMatches(LiftLetRules, DependentLets) == []
  {
    DependentLetsClean();
    FindAllMatchesNone(LiftLetRules, DependentLets);
  }

  // ---------------------------------------------------------------------------
  // Capture: (add (let (x (add x 1)) x) x)  =>  (let (x_0 (add x 1)) (add x_0 x))

  const ShadowingArg: Expr := Let("x", Add(V("x"), I(1)), V("x"))
  const ShadowedCall: Expr := Add(ShadowingArg, V("x"))
  const ShadowedCallMatch: Match := Match(LiftLetOverCall, ShadowedCall, [], AtChild(0))

  /** The free `x` occurs only in the let's own right-hand side. */
  const UnshadowedCall: Expr := Add(ShadowingArg, I(2))
  const UnshadowedCallMatch: Match := Match(LiftLetOverCall, UnshadowedCall, [], AtChild(0))

  lemma ShadowingArgClean()
    ensures Clean([LiftLetOverCall], ShadowingArg)
  {
    CleanOverAtoms([LiftLetOverCall], Add(V("x"), I(1)));
    CleanAtom([LiftLetOverCall], V("x"));
    CleanNode([LiftLetOverCall], ShadowingArg);
  }

  lemma ShadowedCallHere()
    ensures ValidMatch(ShadowedCallMatch) && ValidMatch(UnshadowedCallMatch)
    ensures forall r, s :: r in [LiftLetOverCall] && Applies(r, ShadowedCall, s) ==> s == AtChild(0)
    ensures forall r, s :: r in [LiftLetOverCall] && Applies(r, UnshadowedCall, s) ==> s == AtChild(0)
  {
  }

  lemma ShadowedCallFindsOne()
    ensures FindAllMatches([LiftLetOverCall], ShadowedCall) == [ShadowedCallMatch]
  {
    ShadowingArgClean();
    CleanAtom([LiftLetOverCall], V("x"));
    ShadowedCallHere();
    FindAllMatchesAtRoot([LiftLetOverCall], ShadowedCall, ShadowedCallMatch);
  }

  /** The lifted binder would capture the free `x` of the other argument, so it is renamed
      to `x_0` at its binding and at its use. */
  lemma ShadowedCallRenames()
    ensures ApplyRewrite(ShadowedCallMatch) == Let("x_0", Add(V("x"), I(1)), Add(V("x_0"), V("x")))
  {
    ShadowedCallHere();
    assert "x" + "_0" == "x_0";
    assert "x_0" !in AllNames(ShadowedCall);
    FreshNameFirstSuffix("x", AllNames(ShadowedCall));
    assert ShadowedCall.args[0 := V("x_0")] == [V("x_0"), V("x")];
  }

  lemma UnshadowedCallFindsOne()
    ensures FindAllMatches([LiftLetOverCall], UnshadowedCall) == [UnshadowedCallMatch]
  {
    ShadowingArgClean();
    CleanAtom([LiftLetOverCall], I(2));
    ShadowedCallHere();
    FindAllMatchesAtRoot([LiftLetOverCall], UnshadowedCall, UnshadowedCallMatch);
  }

  /** Uses of the free `x` in the right-hand side stay outside the binder: no renaming. */
  lemma UnshadowedCallKeepsName()
    ensures ApplyRewrite(UnshadowedCallMatch) == Let("x", Add(V("x"), I(1)), Add(V("x"), I(2)))
    ensures ApplyRewrite(UnshadowedCallMatch) != Let("x_0", Add(V("x"), I(1)), Add(V("x_0"), I(2)))
  {
    ShadowedCallHere();
    assert UnshadowedCall.args[0 := V("x")] == [V("x"), I(2)];
  }

  // ---------------------------------------------------------------------------
  // Capture from a condition: (if (let (x (add x 1)) (gt x 2)) x 1)
  //   =>  (let (x_0 (add x 1)) (if (gt x_0 2) x 1))

  const LetInCond: Expr := If(Let("x", Add(V("x"), I(1)), Gt(V("x"), I(2))), V("x"), I(1))
  const LetInCondMatch: Match := Match(LiftLetOverIfCond, LetInCond, [], AtNode)

  lemma LetInCondHere()
    ensures ValidMatch(LetInCondMatch)
    ensures forall r, s :: r in LiftLetRules && Applies(r, LetInCond, s) ==> r == LiftLetOverIfCond && s == AtNode
  {
  }

  lemma LetInCondClean()
    ensures Clean(LiftLetRules, Let("x", Add(V("x"), I(1)), Gt(V("x"), I(2))))
  {
    CleanOverAtoms(LiftLetRules, Add(V("x"), I(1)));
    CleanOverAtoms(LiftLetRules, Gt(V("x"), I(2)));
    CleanNode(LiftLetRules, Let("x", Add(V("x"), I(1)), Gt(V("x"), I(2))));
  }

  lemma LetInCondFindsOne()
    ensures FindAllMatches(LiftLetRules, LetInCond) == [LetInCondMatch]
  {
    LetInCondClean();
    CleanAtom(LiftLetRules, V("x"));
    CleanAtom(LiftLetRules, I(1));
    IfChildrenClean(LiftLetRules, Let("x", Add(V("x"), I(1)), Gt(V("x"), I(2))), V("x"), I(1));
    LetInCondHere();
    RuleSetsDistinct();
    FindAllMatchesAtRoot(LiftLetRules, LetInCond, LetInCondMatch);
  }

  lemma LetInCondRenames()
    ensures ApplyRewrite(LetInCondMatch) == Let("x_0", Add(V("x"), I(1)), If(Gt(V("x_0"), I(2)), V("x"), I(1)))
  {
    LetInCondHere();
    assert "x" in FreeVars(V("x")) + FreeVars(I(1));
    assert "x" + "_0" == "x_0";
    assert "x_0" !in AllNames(LetInCond);
    FreshNameFirstSuffix("x", AllNames(LetInCond));
    RenameCall2("gt", V("x"), I(2), "x", "x_0");
  }

  // ---------------------------------------------------------------------------
  // No early evaluation: a call in a branch is never lifted above the if

  const CallCondInBranch: Expr := If(V("p"), If(Gt(V("x"), R(1.0)), V("a"), V("b")), R(0.0))
  const CallLetInBranch: Expr := If(V("p"), Let("y", Add(V("x"), R(1.0)), V("y")), R(0.0))

  lemma CallCondInBranchClean()
    ensures Clean(LiftAllRules, CallCondInBranch)
  {
    CallCondClean();
    CleanAtom(LiftAllRules, V("p"));
    CleanAtom(LiftAllRules, R(0.0));
    CleanNode(LiftAllRules, CallCondInBranch);
  }

  lemma CallCondClean()
    ensures Clean(LiftAllRules, If(Gt(V("x"), R(1.0)), V("a"), V("b")))
  {
    CleanOverAtoms(LiftAllRules, Gt(V("x"), R(1.0)));
    CleanAtom(LiftAllRules, V("a"));
    CleanAtom(LiftAllRules, V("b"));
    CleanNode(LiftAllRules, If(Gt(V("x"), R(1.0)), V("a"), V("b")));
  }

  lemma CallLetInBranchClean()
    ensures Clean(LiftAllRules, CallLetInBranch)
  {
    CallLetClean();
    CleanAtom(LiftAllRules, V("p"));
    CleanAtom(LiftAllRules, R(0.0));
    CleanNode(LiftAllRules, CallLetInBranch);
  }

  lemma CallLetClean()
    ensures Clean(LiftAllRules, Let("y", Add(V("x"), R(1.0)), V("y")))
  {
    CleanOverAtoms(LiftAllRules, Add(V("x"), R(1.0)));
    CleanAtom(LiftAllRules, V("y"));
    CleanNode(LiftAllRules, Let("y", Add(V("x"), R(1.0)), V("y")));
  }

  /** Lifting the call to `gt` or `add` would evaluate it when `p` is false: no match. */
  lemma NoEarlyEvaluation()
    ensures FindAllMatches(LiftAllRules, CallCondInBranch) == []
    ensures FindAllMatches(LiftAllRules, CallLetInBranch) == []
  {
    CallCondInBranchClean();
    CallLetInBranchClean();
    FindAllMatchesNone(LiftAllRules, CallCondInBranch);
    FindAllMatchesNone(LiftAllRules, CallLetInBranch);
  }

  // A variable condition or right-hand side may be evaluated early.

  const AtomCondInBranch: Expr := If(V("p"), If(V("q"), Add(V("a"), R(1.0)), Add(V("b"), R(2.0))), R(5.0))
  const AtomCondInBranchMatch: Match := Match(LiftIfOverIfBranch, AtomCondInBranch, [], AtChild(1))

  const AtomLetInBranch: Expr := If(V("p"), Let("y", V("x"), V("y")), R(0.0))
  const AtomLetInBranchMatch: Match := Match(LiftLetOverIfBranch, AtomLetInBranch, [], AtChild(1))

  lemma AtomInBranchHere()
    ensures ValidMatch(AtomCondInBranchMatch) && ValidMatch(AtomLetInBranchMatch)
    ensures forall r, s :: r in LiftAllRules && Applies(r, AtomCondInBranch, s) ==>
      r == LiftIfOverIfBranch && s == AtChild(1)
    ensures forall r, s :: r in LiftAllRules && Applies(r, AtomLetInBranch, s) ==>
      r == LiftLetOverIfBranch && s == AtChild(1)
  {
  }

  lemma AtomCondInBranchArgsClean()
    ensures Clean(LiftAllRules, Add(V("a"), R(1.0))) && Clean(LiftAllRules, Add(V("b"), R(2.0)))
  {
    CleanOverAtoms(LiftAllRules, Add(V("a"), R(1.0)));
    CleanOverAtoms(LiftAllRules, Add(V("b"), R(2.0)));
  }

  lemma AtomCondInBranchClean()
    ensures Clean(LiftAllRules, If(V("q"), Add(V("a"), R(1.0)), Add(V("b"), R(2.0))))
  {
    AtomCondInBranchArgsClean();
    CleanAtom(LiftAllRules, V("q"));
    CleanNode(LiftAllRules, If(V("q"), Add(V("a"), R(1.0)), Add(V("b"), R(2.0))));
  }

  lemma AtomCondInBranchFindsOne()
    ensures FindAllMatches(LiftAllRules, AtomCondInBranch) == [AtomCondInBranchMatch]
  {
    AtomCondInBranchClean();
    CleanAtom(LiftAllRules, V("p"));
    CleanAtom(LiftAllRules, R(5.0));
    IfChildrenClean(LiftAllRules, V("p"), If(V("q"), Add(V("a"), R(1.0)), Add(V("b"), R(2.0))), R(5.0));
    AtomInBranchHere();
    RuleSetsDistinct();
    FindAllMatchesAtRoot(LiftAllRules, AtomCondInBranch, AtomCondInBranchMatch);
  }

  lemma AtomCondInBranchLifted()
    ensures ApplyRewrite(AtomCondInBranchMatch) ==
      If(V("q"), If(V("p"), Add(V("a"), R(1.0)), R(5.0)), If(V("p"), Add(V("b"), R(2.0)), R(5.0)))
  {
    AtomInBranchHere();
  }

  lemma AtomLetInBranchFindsOne()
    ensures FindAllMatches(LiftAllRules, AtomLetInBranch) == [AtomLetInBranchMatch]
  {
    CleanOverAtoms(LiftAllRules, Let("y", V("x"), V("y")));
    CleanAtom(LiftAllRules, V("p"));
    CleanAtom(LiftAllRules, R(0.0));
    AtomInBranchHere();
    RuleSetsDistinct();
    FindAllMatchesAtRoot(LiftAllRules, AtomLetInBranch, AtomLetInBranchMatch);
  }

  lemma AtomLetInBranchLifted()
    ensures ApplyRewrite(AtomLetInBranchMatch) == Let("y", V("x"), If(V("p"), V("y"), R(0.0)))
  {
    AtomInBranchHere();
  }

  // ---------------------------------------------------------------------------
  // A let leaves an if when the other branch binds an alpha-equivalent right-hand side:
  // it is evaluated either way, and the other binding becomes an alias of the lifted name.

  const Lookup: Expr := Index(V("i"), V("x"))

  const SharedRebinding: Expr :=
    If(V("p"), Let("x", Lookup, Add(V("x"), R(1.0))), Let("y", Lookup, Mul(V("y"), R(2.0))))
  const SharedRebindingMatch: Match := Match(LiftLetOverIfBranch, SharedRebinding, [], AtChild(1))

  const SharedSameName: Expr :=
    If(V("p"), Let("y", Lookup, Add(V("y"), R(1.0))), Let("y", Lookup, Mul(V("y"), R(2.0))))
  const SharedSameNameMatch: Match := Match(LiftLetOverIfBranch, SharedSameName, [], AtChild(1))

  const SharedCapture: Expr :=
    If(V("p"), Let("x", Lookup, Add(V("x"), R(1.0))), Let("y", Lookup, Add(V("y"), Index(I(0), V("x")))))
  const SharedCaptureMatch: Match := Match(LiftLetOverIfBranch, SharedCapture, [], AtChild(1))

  lemma SharedRebindingValid()
    ensures ValidMatch(SharedRebindingMatch)
  {
    AlphaEqRefl(Lookup);
  }

  lemma SharedSameNameValid()
    ensures ValidMatch(SharedSameNameMatch)
  {
    AlphaEqRefl(Lookup);
  }

  lemma SharedCaptureValid()
    ensures ValidMatch(SharedCaptureMatch)
  {
    AlphaEqRefl(Lookup);
  }

  lemma SharedRebindingHere()
    ensures forall r, s :: r in LiftLetRules && Applies(r, SharedRebinding, s) ==> r == LiftLetOverIfBranch && s == AtChild(1)
  {
  }

  lemma SharedSameNameHere()
    ensures forall r, s :: r in LiftLetRules && Applies(r, SharedSameName, s) ==> r == LiftLetOverIfBranch && s == AtChild(1)
  {
  }

  lemma SharedCaptureHere()
    ensures forall r, s :: r in LiftLetRules && Applies(r, SharedCapture, s) ==> r == LiftLetOverIfBranch && s == AtChild(1)
  {
  }

  /** A let over atoms-only calls is clean for the let-lifting rules. */
  lemma LetOverCallsClean(x: Name, r: Expr, b: Expr)
    requires r.Call? && b.Call?
    requires forall k :: 0 <= k < |r.args| ==> IsAtom(r.args[k])
    requires forall k :: 0 <= k < |b.args| ==> IsAtom(b.args[k])
    ensures Clean(LiftLetRules, Let(x, r, b))
  {
    CleanOverAtoms(LiftLetRules, r);
    CleanOverAtoms(LiftLetRules, b);
    LetChildrenClean(LiftLetRules, x, r, b);
    CleanNode(LiftLetRules, Let(x, r, b));
  }

  lemma SharedRebindingFindsOne()
    ensures FindAllMatches(LiftLetRules, SharedRebinding) == [SharedRebindingMatch]
  {
    LetOverCallsClean("x", Lookup, Add(V("x"), R(1.0)));
    LetOverCallsClean("y", Lookup, Mul(V("y"), R(2.0)));
    CleanAtom(LiftLetRules, V("p"));
    IfChildrenClean(LiftLetRules, V("p"), Let("x", Lookup, Add(V("x"), R(1.0))), Let("y", Lookup, Mul(V("y"), R(2.0))));
    SharedRebindingValid();
    SharedRebindingHere();
    RuleSetsDistinct();
    FindAllMatchesAtRoot(LiftLetRules, SharedRebinding, SharedRebindingMatch);
  }

  /** No renaming is needed although `x` is rebound: the lifted `x` is bound to the same
      value the free `x` of the right-hand side had. */
  lemma SharedRebindingLifted()
    ensures ApplyRewrite(SharedRebindingMatch) ==
      Let("x", Lookup, If(V("p"), Add(V("x"), R(1.0)), Let("y", V("x"), Mul(V("y"), R(2.0)))))
  {
    SharedRebindingValid();
    assert BranchesShareBinding(SharedRebinding);
    assert "x" !in FreeVars(V("p")) + FreeVars(Mul(V("y"), R(2.0)));
    assert Hoisted("x", Add(V("x"), R(1.0)), false, SharedRebinding) == ("x", Add(V("x"), R(1.0)));
  }

  lemma SharedSameNameFindsOne()
    ensures FindAllMatches(LiftLetRules, SharedSameName) == [SharedSameNameMatch]
  {
    LetOverCallsClean("y", Lookup, Add(V("y"), R(1.0)));
    LetOverCallsClean("y", Lookup, Mul(V("y"), R(2.0)));
    CleanAtom(LiftLetRules, V("p"));
    IfChildrenClean(LiftLetRules, V("p"), Let("y", Lookup, Add(V("y"), R(1.0))), Let("y", Lookup, Mul(V("y"), R(2.0))));
    SharedSameNameValid();
    SharedSameNameHere();
    RuleSetsDistinct();
    FindAllMatchesAtRoot(LiftLetRules, SharedSameName, SharedSameNameMatch);
  }

  /** The lifted `y` would capture the other branch's `y`, and `y_0` is the first name not
      occurring in the node. */
  lemma SharedSameNameFresh()
    ensures FreshName("y", AllNames(SharedSameName)) == "y_0"
  {
    assert "y" + "_0" == "y_0";
    assert "y_0" !in AllNames(SharedSameName);
    FreshNameFirstSuffix("y", AllNames(SharedSameName));
  }

  /** Both binders are `y` and the other branch still uses its own `y`: the lifted one
      becomes `y_0`. */
  lemma SharedSameNameRenames()
    ensures ApplyRewrite(SharedSameNameMatch) ==
      Let("y_0", Lookup, If(V("p"), Add(V("y_0"), R(1.0)), Let("y", V("y_0"), Mul(V("y"), R(2.0)))))
  {
    SharedSameNameValid();
    assert BranchesShareBinding(SharedSameName);
    assert "y" in FreeVars(V("p")) + FreeVars(Mul(V("y"), R(2.0)));
    SharedSameNameFresh();
    RenameCall2("add", V("y"), R(1.0), "y", "y_0");
    assert Hoisted("y", Add(V("y"), R(1.0)), true, SharedSameName) == ("y_0", Add(V("y_0"), R(1.0)));
  }

  lemma SharedCaptureElseBodyClean()
    ensures Clean(LiftLetRules, Add(V("y"), Index(I(0), V("x"))))
  {
    CleanOverAtoms(LiftLetRules, Index(I(0), V("x")));
    CleanAtom(LiftLetRules, V("y"));
    CleanNode(LiftLetRules, Add(V("y"), Index(I(0), V("x"))));
  }

  lemma SharedCaptureElseClean()
    ensures Clean(LiftLetRules, Let("y", Lookup, Add(V("y"), Index(I(0), V("x")))))
  {
    CleanOverAtoms(LiftLetRules, Lookup);
    SharedCaptureElseBodyClean();
    LetChildrenClean(LiftLetRules, "y", Lookup, Add(V("y"), Index(I(0), V("x"))));
    CleanNode(LiftLetRules, Let("y", Lookup, Add(V("y"), Index(I(0), V("x")))));
  }

  lemma SharedCaptureFindsOne()
    ensures FindAllMatches(LiftLetRules, SharedCapture) == [SharedCaptureMatch]
  {
    LetOverCallsClean("x", Lookup, Add(V("x"), R(1.0)));
    SharedCaptureElseClean();
    CleanAtom(LiftLetRules, V("p"));
    IfChildrenClean(LiftLetRules, V("p"), Let("x", Lookup, Add(V("x"), R(1.0))), Let("y", Lookup, Add(V("y"), Index(I(0), V("x")))));
    SharedCaptureValid();
    SharedCaptureHere();
    RuleSetsDistinct();
    FindAllMatchesAtRoot(LiftLetRules, SharedCapture, SharedCaptureMatch);
  }

  lemma SharedCaptureNames()
    ensures "x" in AllNames(SharedCapture) && "x_0" !in AllNames(SharedCapture)
  {
    AllNamesCall2("index", V("i"), V("x"));
    AllNamesCall2("add", V("x"), R(1.0));
    AllNamesCall2("index", I(0), V("x"));
    AllNamesCall2("add", V("y"), Index(I(0), V("x")));
  }

  lemma SharedCaptureFresh()
    ensures FreshName("x", AllNames(SharedCapture)) == "x_0"
  {
    assert "x" + "_0" == "x_0";
    SharedCaptureNames();
    FreshNameFirstSuffix("x", AllNames(SharedCapture));
  }

  lemma SharedCaptureClash()
    ensures "x" in FreeVars(Add(V("y"), Index(I(0), V("x"))))
  {
  }

  /** The other branch uses the outer `x`, so the lifted `x` must become `x_0`. */
  lemma SharedCaptureRenames()
    ensures ApplyRewrite(SharedCaptureMatch) ==
      Let("x_0", Lookup, If(V("p"), Add(V("x_0"), R(1.0)), Let("y", V("x_0"), Add(V("y"), Index(I(0), V("x"))))))
  {
    SharedCaptureValid();
    assert BranchesShareBinding(SharedCapture);
    SharedCaptureClash();
    SharedCaptureFresh();
    RenameCall2("add", V("x"), R(1.0), "x", "x_0");
    assert Hoisted("x", Add(V("x"), R(1.0)), true, SharedCapture) == ("x_0", Add(V("x_0"), R(1.0)));
  }
}
