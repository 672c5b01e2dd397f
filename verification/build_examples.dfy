/**
 * Lifting lets and ifs out of the body of a build, on the example trees of the
 * rewrite engine's tests. The lifted binding or condition is evaluated only
 * when the build is not empty, which the guard `(gt n 0)` expresses.
 */
module BuildExamples {
  import opened Syntax
  import opened Rules
  import opened Matcher
  import opened ExampleTrees

  // ---------------------------------------------------------------------------
  // (build 10 (lam i (let (x (add 5 7)) (if (gt x 5) x i))))

  const Choice: Expr := If(Gt(V("x"), I(5)), V("x"), V("i"))
  const BuildBody: Expr := Let("x", Add(I(5), I(7)), Choice)
  const BuildLet: Expr := Build(I(10), "i", BuildBody)
  const BuildLetMatch: Match := Match(LiftLetOverBuild, BuildLet, [], AtNode)

  /** The then-branch after lifting the let: the build now has the bare if as its body. */
  const BuildIf: Expr := Build(I(10), "i", Choice)
  const BuildThen: Expr := Let("x", Add(I(5), I(7)), BuildIf)
  const BuildThenMatch: Match := Match(LiftIfOverBuild, BuildThen, [1], AtNode)

  lemma ChoiceClean(rules: seq<Rule>)
    requires rules == LiftAllRules || rules == LiftIfRules
    ensures Clean(rules, Choice)
  {
    CleanOverAtoms(rules, Gt(V("x"), I(5)));
    CleanAtom(rules, V("x"));
    CleanAtom(rules, V("i"));
    CleanNode(rules, Choice);
  }

  lemma BuildBodyClean()
    ensures Clean(LiftAllRules, Lam("i", BuildBody))
  {
    ChoiceClean(LiftAllRules);
    SumClean();
    CleanNode(LiftAllRules, BuildBody);
    CleanNode(LiftAllRules, Lam("i", BuildBody));
  }

  lemma BuildLetHere()
    ensures ValidMatch(BuildLetMatch)
    ensures forall r, s :: r in LiftAllRules && Applies(r, BuildLet, s) ==> r == LiftLetOverBuild && s == AtNode
  {
  }

  /** The let does not use the index, so it is the one thing that can be lifted. */
  lemma BuildLetFindsOne()
    ensures FindAllMatches(LiftAllRules, BuildLet) == [BuildLetMatch]
  {
    BuildBodyClean();
    CleanAtom(LiftAllRules, I(10));
    BuildLetHere();
    RuleSetsDistinct();
    FindAllMatchesAtRoot(LiftAllRules, BuildLet, BuildLetMatch);
  }

  /** The let moves out of a build guarded by `(gt 10 0)`; the empty case keeps the
      original body under a build of size 0. */
  lemma BuildLetLifted()
    ensures ValidMatch(BuildLetMatch) && ApplyRewrite(BuildLetMatch) ==
      If(Gt(I(10), I(0)), BuildThen, Call(BuildName, [I(0), Lam("i", BuildBody)]))
  {
    BuildLetHere();
  }

  lemma BuildThenValid()
    ensures ValidMatch(BuildThenMatch)
  {
    assert SubtreeAt(BuildThen, [1]) == BuildIf;
    assert "i" !in FreeVars(Gt(V("x"), I(5)));
  }

  lemma BuildIfHere()
    ensures forall r, s :: r in LiftAllRules && Applies(r, BuildIf, s) ==> r == LiftIfOverBuild && s == AtNode
  {
  }

  lemma BuildThenRoot()
    ensures forall r, s :: r in LiftAllRules ==> !Applies(r, BuildThen, s)
  {
  }

  lemma BuildIfCovered()
    ensures CoversBelow(LiftAllRules, BuildThen, [1], [BuildThenMatch])
  {
    ChoiceClean(LiftAllRules);
    CleanNode(LiftAllRules, Lam("i", Choice));
    CleanAtom(LiftAllRules, I(10));
    BuildIfHere();
    CoverNode(LiftAllRules, BuildThen, [1], BuildIf, [BuildThenMatch]);
  }

  lemma SumClean()
    ensures Clean(LiftAllRules, Add(I(5), I(7)))
  {
    CleanOverAtoms(LiftAllRules, Add(I(5), I(7)));
  }

  lemma BuildThenCovered()
    ensures CoversBelow(LiftAllRules, BuildThen, [], [BuildThenMatch])
  {
    BuildIfCovered();
    SumClean();
    BuildThenRoot();
    CoverNode(LiftAllRules, BuildThen, [], BuildThen, [BuildThenMatch]);
  }

  /** In the then-branch the if in the build body is the only thing that can be lifted. */
  lemma BuildThenFindsOne()
    ensures FindAllMatches(LiftAllRules, BuildThen) == [BuildThenMatch]
  {
    BuildThenCovered();
    BuildThenValid();
    RuleSetsDistinct();
    FindAllMatchesSingle(LiftAllRules, BuildThen, BuildThenMatch);
  }

  lemma BuildThenLifted()
    ensures ValidMatch(BuildThenMatch) && ApplyRewrite(BuildThenMatch) ==
      Let("x", Add(I(5), I(7)),
        If(Gt(I(10), I(0)),
           If(Gt(V("x"), I(5)), Build(I(10), "i", V("x")), Build(I(10), "i", V("i"))),
           BuildIf))
  {
    BuildThenValid();
  }

  // ---------------------------------------------------------------------------
  // (build 10 (lam i (let (x (add 5 i)) (if (gt i 5) x i))))

  const IndexChoice: Expr := If(Gt(V("i"), I(5)), V("x"), V("i"))
  const IndexBody: Expr := Let("x", Add(I(5), V("i")), IndexChoice)
  const BuildUsesIndex: Expr := Build(I(10), "i", IndexBody)
  const BuildUsesIndexMatch: Match := Match(LiftIfOverLetBody, BuildUsesIndex, [1, 0], AtNode)

  lemma IndexChoiceClean(rules: seq<Rule>)
    requires rules == LiftLetRules || rules == LiftIfRules
    ensures Clean(rules, IndexChoice)
  {
    CleanOverAtoms(rules, Gt(V("i"), I(5)));
    CleanAtom(rules, V("x"));
    CleanAtom(rules, V("i"));
    CleanNode(rules, IndexChoice);
  }

  lemma IndexSumClean(rules: seq<Rule>)
    requires rules == LiftLetRules || rules == LiftIfRules
    ensures Clean(rules, Add(I(5), V("i")))
  {
    CleanOverAtoms(rules, Add(I(5), V("i")));
  }

  lemma IndexBodyClean()
    ensures Clean(LiftLetRules, Lam("i", IndexBody))
  {
    IndexChoiceClean(LiftLetRules);
    IndexSumClean(LiftLetRules);
    CleanNode(LiftLetRules, IndexBody);
    CleanNode(LiftLetRules, Lam("i", IndexBody));
  }

  /** The let uses the build's index, so it cannot be lifted. */
  lemma BuildUsesIndexFindsNoLet()
    ensures FindAllMatches(LiftLetRules, BuildUsesIndex) == []
  {
    IndexBodyClean();
    CleanAtom(LiftLetRules, I(10));
    CleanNode(LiftLetRules, BuildUsesIndex);
    FindAllMatchesNone(LiftLetRules, BuildUsesIndex);
  }

  lemma BuildUsesIndexValid()
    ensures ValidMatch(BuildUsesIndexMatch)
  {
    assert SubtreeAt(BuildUsesIndex, [1, 0]) == IndexBody;
    assert "x" !in FreeVars(Gt(V("i"), I(5)));
  }

  lemma IndexBodyHere()
    ensures forall r, s :: r in LiftIfRules && Applies(r, IndexBody, s) ==> r == LiftIfOverLetBody && s == AtNode
  {
  }

  lemma IndexLamRoot()
    ensures forall r, s :: r in LiftIfRules ==> !Applies(r, Lam("i", IndexBody), s)
  {
  }

  lemma BuildUsesIndexRoot()
    ensures forall r, s :: r in LiftIfRules ==> !Applies(r, BuildUsesIndex, s)
  {
  }

  lemma IndexBodyCovered()
    ensures CoversBelow(LiftIfRules, BuildUsesIndex, [1, 0], [BuildUsesIndexMatch])
  {
    IndexChoiceClean(LiftIfRules);
    IndexSumClean(LiftIfRules);
    IndexBodyHere();
    CoverNode(LiftIfRules, BuildUsesIndex, [1, 0], IndexBody, [BuildUsesIndexMatch]);
  }

  lemma IndexLamCovered()
    ensures CoversBelow(LiftIfRules, BuildUsesIndex, [1], [BuildUsesIndexMatch])
  {
    IndexBodyCovered();
    IndexLamRoot();
    CoverNode(LiftIfRules, BuildUsesIndex, [1], Lam("i", IndexBody), [BuildUsesIndexMatch]);
  }

  lemma BuildUsesIndexCovered()
    ensures CoversBelow(LiftIfRules, BuildUsesIndex, [], [BuildUsesIndexMatch])
  {
    IndexLamCovered();
    CleanAtom(LiftIfRules, I(10));
    BuildUsesIndexRoot();
    CoverNode(LiftIfRules, BuildUsesIndex, [], BuildUsesIndex, [BuildUsesIndexMatch]);
  }

  /** The condition does not use the let's variable, so the if can leave the let, though
      not the build. */
  lemma BuildUsesIndexFindsOneIf()
    ensures FindAllMatches(LiftIfRules, BuildUsesIndex) == [BuildUsesIndexMatch]
  {
    BuildUsesIndexCovered();
    BuildUsesIndexValid();
    RuleSetsDistinct();
    FindAllMatchesSingle(LiftIfRules, BuildUsesIndex, BuildUsesIndexMatch);
  }

  lemma BuildUsesIndexLifted()
    ensures ValidMatch(BuildUsesIndexMatch) && ApplyRewrite(BuildUsesIndexMatch) ==
      Build(I(10), "i",
        If(Gt(V("i"), I(5)), Let("x", Add(I(5), V("i")), V("x")), Let("x", Add(I(5), V("i")), V("i"))))
  {
    BuildUsesIndexValid();
    assert SubtreeAt(BuildUsesIndex, [1, 0]) == IndexBody;
  }
}
