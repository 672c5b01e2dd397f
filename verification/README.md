# Knossos core in Dafny

This project models three parts of Knossos (ksc), the compiler for a small functional language written as s-expressions.

1. **The binding-aware rewrite engine.** It finds and applies local rewrites on expression trees:
   - `lift_let` and `lift_if` out of call arguments, let bodies, if branches and `build`;
   - `raw_new_bind` and `new_bind`;
   - `cse_bind` and `inline_let`.

   A lifted binder that would capture a name used at its new position is renamed to the first free `name_0`, `name_1`, …. The `Scoping` module proves that this avoids capture: every rule keeps the free variables of the node it rewrites, and so of the whole tree. The one exception is inlining a let whose variable is unused, which drops the free variables of its right-hand side. Results are compared either exactly or up to alpha-equivalence. The rule implementation modules are not part of this model. The engine is reconstructed from the behaviour its test suite pins down (`test/python/test_rewrites_ast.py`). Each test case becomes a lemma that evaluates `FindAllMatches` and `ApplyRewrite` on the test's own trees.
2. **The abstract-interpretation backend** (`src/python/ksc/backends/abstract.py`). It estimates the shape, type and cost of a program by running it on abstract values. Each value carries a shape, a type, optional data and a context label.
   - `check_args_and_get_context` merges the labels of a call's arguments.
   - Every primitive charges a cost to an execution context, which is modelled as a class with a cost log.
3. **Prelude routines of the C++ runtime** (`src/runtime/knossos-prelude.h`):
   - the argmax `imaximum` and its users `maximum` and `fwd$maximum`;
   - the matrix–vector product `mul$Mat$Vec` and its reverse-mode derivative `rev$mul$Mat$Vec`, as loops over arrays.

Module layout:
- Rewrite engine:
  - `Syntax`: expressions, free variables, paths;
  - `Names`: fresh names;
  - `Substitution`: renaming;
  - `Alpha`: alpha-equivalence;
  - `Rules`: rule applicability, sites and rewrites;
  - `Matcher`: `FindAllMatches` and `ApplyRewrite`;
  - `Scoping`: free variables are preserved by every rule and every rewrite;
  - `ExampleTrees`, `LiftExamples`, `BuildExamples` and `BindExamples`: the test cases.
- Backend: `AbstractBackend`.
- Runtime: `Prelude`.
- Shared: `Wrappers` (Option and Result).

## Model

| member | source | states |
|---|---|---|
| Syntax.FreeVarsArgs | test/python/test_rewrites_ast.py:85-106 | `FreeVars` of a call: a name is free in an argument list iff it is free in one of the arguments |
| Syntax.AllNamesArgs | test/python/test_rewrites_ast.py:85-106 | a name occurs in an argument list iff it occurs in one of the arguments |
| Syntax.FreeVarsCall2 | test/python/test_rewrites_ast.py:195-208 | the free variables of a two-argument call such as `build` or `gt` are those of its arguments |
| Syntax.FreeVarsInAllNames | test/python/test_rewrites_ast.py:85-106 | every free variable of an expression is among the names it mentions, so a name fresh for all names cannot capture |
| Syntax.ReplaceChild | test/python/test_rewrites_ast.py:34-35 | replacing child i changes exactly child i; the node keeps its kind, its function name and its bound name |
| Syntax.ReplaceAtThenSubtree | test/python/test_rewrites_ast.py:34-35 | after a rewrite is put back at a path, the path is still valid and leads to the rewritten subtree |
| Syntax.ReplaceAtSubtreeIsIdentity | test/python/test_rewrites_ast.py:69-82 | putting a node's own subtree back at its path gives the original tree |
| Syntax.PathAppend | test/python/test_rewrites_ast.py:34-35 | a path p+q is valid in e iff q is valid in the subtree at p, and it then leads to the same node |
| Names.NatToStringLong | test/python/test_rewrites_ast.py:85-96 | a number at least 10^k has more than k decimal digits, so the suffixed candidates eventually leave any finite name set |
| Names.TakenSuffixIsBounded | test/python/test_rewrites_ast.py:85-96 | a suffix index whose name is taken is below 10^(longest taken name), which bounds the search for a fresh name |
| Names.FreshIndex | test/python/test_rewrites_ast.py:85-96 | the index found is not taken, and every index between the start and it is taken |
| Names.FreshName | test/python/test_rewrites_ast.py:85-96 | the fresh name avoids the set; it is the base itself when the base is free, otherwise the first `base_i` not taken |
| Names.FreshNameFirstSuffix | test/python/test_rewrites_ast.py:85-96 | when `x` is taken and `x_0` is not, the fresh name is `x_0`, the name the tests expect |
| Substitution.Rename | test/python/test_rewrites_ast.py:85-96 | renaming preserves the size of the tree |
| Substitution.RenameArgs | test/python/test_rewrites_ast.py:85-96 | renaming an argument list renames each argument and keeps the length |
| Substitution.RenameFreeVars | test/python/test_rewrites_ast.py:85-96 | renaming x to a name y absent from the tree maps the free variables by x ↦ y |
| Substitution.RenameFreeVarsArgs | test/python/test_rewrites_ast.py:85-96 | the same as RenameFreeVars for argument lists |
| Substitution.RenameNotFree | test/python/test_rewrites_ast.py:98-106 | renaming a name that is not free leaves the tree unchanged |
| Substitution.SubstArgs | test/python/test_rewrites_ast.py:305-312 | substitution into an argument list substitutes into each argument |
| Substitution.SubstFreeVars | test/python/test_rewrites_ast.py:305-312 | `Subst`, the core of `inline_let`: substituting r for x replaces x among the free variables by the free variables of r and keeps every other free variable, so no free variable of r is captured |
| Substitution.SubstUnderFreeVars | test/python/test_rewrites_ast.py:305-312 | under a binder, substitution has that effect on the variables free in the binder's scope, including when the binder is renamed away from a free variable of r |
| Substitution.SubstArgsFreeVars | test/python/test_rewrites_ast.py:305-312 | the same as SubstFreeVars for argument lists |
| Alpha.IndexOfNone | test/python/test_rewrites_ast.py:28-31 | a name has no de Bruijn position in a binder context iff it is not bound there |
| Alpha.AlphaEqArgsPointwise | test/python/test_rewrites_ast.py:28-31 | argument lists are alpha-equivalent iff they have the same length and are pairwise alpha-equivalent |
| Alpha.AlphaEqRefl | test/python/test_rewrites_ast.py:28-31 | `AlphaEq` (the tests' alpha-hashed comparison) is reflexive |
| Alpha.AlphaEqSymm | test/python/test_rewrites_ast.py:28-31 | alpha-equivalence is symmetric |
| Alpha.AlphaEqTrans | test/python/test_rewrites_ast.py:28-31 | alpha-equivalence is transitive, so it can key a set as the tests do |
| Alpha.AlphaEqFreeVars | test/python/test_rewrites_ast.py:28-31 | alpha-equivalent trees have the same free variables |
| Alpha.RenameBinderAlpha | test/python/test_rewrites_ast.py:85-96 | renaming a let or lambda binder to a name absent from its body gives an alpha-equivalent tree |
| Rules.ArgSitesSpec | test/python/test_rewrites_ast.py:38-44 | the argument sites are exactly the in-range arguments of the required form |
| Rules.BranchSitesSpec | test/python/test_rewrites_ast.py:120-149 | the branch sites are exactly the branches of the required form |
| Rules.PrefixAllMember | test/python/test_rewrites_ast.py:298-302 | a path is in the prefixed list iff it starts with the prefix and its tail is in the list |
| Rules.CsePathsSpec | test/python/test_rewrites_ast.py:298-302 | the paths enumerated for `cse_bind` are exactly the paths to a let whose rhs equals the outer rhs, without passing a binder of a name that rhs uses |
| Rules.PathSitesMember | test/python/test_rewrites_ast.py:298-302 | a site is in the path sites iff it is a path site with a listed path |
| Rules.CsePathsStep | test/python/test_rewrites_ast.py:298-302 | one level of the search: the root when it is a let with an equal rhs, otherwise a path into an enterable child followed by a path found in that child |
| Rules.CseReachMeans | test/python/test_rewrites_ast.py:298-302 | following a path child by child, entering only children whose binder is not blocked, reaches such a let exactly when the path is valid, leads to it and passes no blocked binder |
| Rules.CseSitesSpec | test/python/test_rewrites_ast.py:298-302 | the enumerated `cse_bind` sites are exactly the sites where `cse_bind` applies |
| Rules.SitesSpec | test/python/test_rewrites_ast.py:34-35 | for every rule, `Sites` enumerates exactly the sites of a node where `Applies` (the rule's legality test) holds |
| Rules.SitesDistinct | test/python/test_rewrites_ast.py:34-35 | no site is enumerated twice |
| Matcher.AtSitesMember | test/python/test_rewrites_ast.py:34-35 | a match is in the per-rule list iff it names that rule, root, path and one of the sites |
| Matcher.MatchesHereSpec | test/python/test_rewrites_ast.py:34-35 | the matches at one node are exactly the rule/site pairs that apply there |
| Matcher.WalkSpec | test/python/test_rewrites_ast.py:34-35 | the tree walk from a node yields exactly the valid matches at or below it |
| Matcher.WalkFromSpec | test/python/test_rewrites_ast.py:34-35 | the walk over children from k yields exactly the valid matches below children k and later |
| Matcher.FindAllMatchesSpec | test/python/test_rewrites_ast.py:34-35 | `FindAllMatches` (`find_all_matches`) yields exactly the valid matches of the rule set in the tree |
| Matcher.FindAllMatchesValid | test/python/test_rewrites_ast.py:34-35 | every match found can be applied |
| Matcher.RewriteEach | test/python/test_rewrites_ast.py:34-35 | `apply_all_rewrites` gives one result per match, in order, each the match's rewrite |
| Matcher.FindAllMatchesDistinct | test/python/test_rewrites_ast.py:34-35 | no match is found twice, so counts in the tests are counts of distinct matches |
| Matcher.FindAllMatchesExactly | test/python/test_rewrites_ast.py:239-250 | a duplicate-free cover of the valid matches is the match list up to order |
| Matcher.FindAllMatchesNone | test/python/test_rewrites_ast.py:54-57 | a tree where no rule applies anywhere has no matches |
| Scoping.ArgsUpdateFreeVars | test/python/test_rewrites_ast.py:34-35 | the free variables of an argument list with argument i replaced by c are those of the other arguments plus those of c |
| Scoping.OtherArgsFreeVars | test/python/test_rewrites_ast.py:85-96 | the arguments other than i, against which a lifted binder is checked for a clash, have the free variables of the list with a hole at i |
| Scoping.ArgInCall | test/python/test_rewrites_ast.py:85-96 | the names and free variables of an argument are among those of the call |
| Scoping.ReplaceChildFreeVars | test/python/test_rewrites_ast.py:34-35 | the free variables of a node with child i replaced by c are those of the node with a hole there plus those of c not bound by the node over child i |
| Scoping.ReplaceAtFreeVars | test/python/test_rewrites_ast.py:34-35 | the free variables of a tree with the node at a path replaced by s are those of the tree with a hole there plus those of s not bound on the way down |
| Scoping.HoistedFreeVars | test/python/test_rewrites_ast.py:85-117 | a lifted binding binds the same variables of its body as before; a renamed binder occurs nowhere in the parent node, and without a clash nothing is renamed |
| Scoping.LiftLetOverCallFreeVars | test/python/test_rewrites_ast.py:85-106 | lifting a let out of a call argument keeps the free variables, whether or not the binder is renamed |
| Scoping.LiftLetOverIfCondFreeVars | test/python/test_rewrites_ast.py:109-117 | lifting a let out of an if condition keeps the free variables |
| Scoping.LiftLetOverLetBodyFreeVars | test/python/test_rewrites_ast.py:69-82 | interchanging two lets keeps the free variables |
| Scoping.SharedLetOutOfBranchesFreeVars | test/python/test_rewrites_ast.py:152-192 | lifting the then-branch let when the else-branch binds an alpha-equivalent rhs, and aliasing the else binding to it, keeps the free variables |
| Scoping.LiftLetOverIfBranchFreeVars | test/python/test_rewrites_ast.py:145-192 | lifting a let out of either branch of an if keeps the free variables |
| Scoping.LetOutOfBuildFreeVars | test/python/test_rewrites_ast.py:195-208 | lifting a let out of a build body under the `(gt n 0)` guard, with an empty build in the else branch, keeps the free variables |
| Scoping.LiftLetOverBuildFreeVars | test/python/test_rewrites_ast.py:195-208 | the `lift_let` rule on a build keeps the free variables |
| Scoping.IfOutOfArgFreeVars | test/python/test_rewrites_ast.py:38-44 | lifting an if out of call argument i keeps the free variables |
| Scoping.LiftIfOverCallFreeVars | test/python/test_rewrites_ast.py:38-44 | the `lift_if` rule on a call keeps the free variables |
| Scoping.IfOutOfBuildFreeVars | test/python/test_rewrites_ast.py:210-236 | lifting an if out of a build body under the `(gt n 0)` guard, with the original build in the else branch, keeps the free variables |
| Scoping.LiftIfOverBuildFreeVars | test/python/test_rewrites_ast.py:210-236 | the `lift_if` rule on a build keeps the free variables |
| Scoping.BoundArgFreeVars | test/python/test_rewrites_ast.py:252-254 | binding argument i to a fresh name that is returned at once keeps the free variables of the arguments |
| Scoping.NewBindFreeVars | test/python/test_rewrites_ast.py:252-254 | `new_bind` keeps the free variables |
| Scoping.CseBindFreeVars | test/python/test_rewrites_ast.py:298-302 | `cse_bind` keeps the free variables: the outer variable it introduces is bound wherever it is used |
| Scoping.InlineLetFreeVars | test/python/test_rewrites_ast.py:305-312 | inlining a let can only lose free variables, and keeps them all when the body uses the variable |
| Scoping.ApplyFreeVars | test/python/test_rewrites_ast.py:34-35 | `Apply`: every rule's rewrite of a node has no free variable the node lacks, and has exactly the node's free variables for every rule but `inline_let`, and for `inline_let` when the body uses the variable |
| Scoping.LiftPreservesFreeVars | test/python/test_rewrites_ast.py:23-25 | no lifting match captures a variable: its rewrite has exactly the free variables of the original |
| Scoping.ApplyRewriteFreeVars | test/python/test_rewrites_ast.py:34-35 | `ApplyRewrite` (`apply_rewrite`): applying a match anywhere in a tree has no free variable the tree lacks, and keeps them all for every rule but `inline_let` |
| Scoping.LetInterchangeRoundTrip | test/python/test_rewrites_ast.py:69-78 | a let interchange can always be undone by a second one. The round trip gives back the original tree when no renaming was needed; otherwise it keeps the outer binding and leaves an alpha-equivalent inner let, whose binder alone is renamed |
| LiftExamples.IfInCallFindsOne | test/python/test_rewrites_ast.py:38-44 | `(add (if p 4.0 2.0) 3.0)` has exactly one `lift_if` match |
| LiftExamples.IfInCallLifted | test/python/test_rewrites_ast.py:38-44 | it rewrites to `(if p (add 4.0 3.0) (add 2.0 3.0))` |
| LiftExamples.IfInLetFindsOne | test/python/test_rewrites_ast.py:47-53 | an if with a call condition in a let body has one `lift_if` match |
| LiftExamples.IfInLetLifted | test/python/test_rewrites_ast.py:47-53 | the let is copied into both branches |
| LiftExamples.IfInLetUsesBinderFindsNone | test/python/test_rewrites_ast.py:54-57 | no match when the condition uses the let-bound name |
| LiftExamples.LetInCallFindsOne | test/python/test_rewrites_ast.py:60-66 | a let in a call argument has one `lift_let` match |
| LiftExamples.LetInCallLifted | test/python/test_rewrites_ast.py:60-66 | it rewrites to `(let (x 4.0) (add (add x 2.0) 3.0))` |
| LiftExamples.NestedLetsFindOne | test/python/test_rewrites_ast.py:69-78 | two independent nested lets have one match |
| LiftExamples.SwappedLetsFindOne | test/python/test_rewrites_ast.py:69-78 | so do the swapped lets |
| LiftExamples.NestedLetsSwapped | test/python/test_rewrites_ast.py:69-78 | the rewrite swaps the lets, and swapping back gives the original |
| LiftExamples.InterchangeTwiceIsIdentity | test/python/test_rewrites_ast.py:69-78 | rewriting all matches twice returns exactly the original tree |
| LiftExamples.DependentLetsFindNone | test/python/test_rewrites_ast.py:79-82 | no match when the inner rhs uses the outer bound name |
| LiftExamples.ShadowedCallFindsOne | test/python/test_rewrites_ast.py:85-96 | a let whose binder is free in a sibling argument has one match |
| LiftExamples.ShadowedCallRenames | test/python/test_rewrites_ast.py:85-96 | the lifted binder is renamed to `x_0` at its binding and its bound uses only |
| LiftExamples.UnshadowedCallFindsOne | test/python/test_rewrites_ast.py:98-106 | with no clash there is still one match |
| LiftExamples.UnshadowedCallKeepsName | test/python/test_rewrites_ast.py:98-106 | the binder keeps its name, and the renamed form is not produced |
| LiftExamples.LetInCondFindsOne | test/python/test_rewrites_ast.py:109-117 | a let in an if condition has one match |
| LiftExamples.LetInCondRenames | test/python/test_rewrites_ast.py:109-117 | the binder is renamed to `x_0` because a branch uses `x` freely |
| LiftExamples.NoEarlyEvaluation | test/python/test_rewrites_ast.py:120-134 | an if with a call condition, or a let with a call rhs, inside a branch has no match |
| LiftExamples.AtomCondInBranchFindsOne | test/python/test_rewrites_ast.py:136-143 | an if with a variable condition in a branch has one match |
| LiftExamples.AtomCondInBranchLifted | test/python/test_rewrites_ast.py:136-143 | the inner condition moves out and the other branch is duplicated |
| LiftExamples.AtomLetInBranchFindsOne | test/python/test_rewrites_ast.py:145-149 | a let with a variable rhs in a branch has one match |
| LiftExamples.AtomLetInBranchLifted | test/python/test_rewrites_ast.py:145-149 | the let moves out of the if |
| LiftExamples.SharedRebindingFindsOne | test/python/test_rewrites_ast.py:152-170 | lets with the same rhs in both branches give one match |
| LiftExamples.SharedRebindingLifted | test/python/test_rewrites_ast.py:152-170 | the then-let is lifted and the else-let's rhs becomes a reference to it |
| LiftExamples.SharedSameNameFindsOne | test/python/test_rewrites_ast.py:172-181 | one match when both lets bind the same name |
| LiftExamples.SharedSameNameRenames | test/python/test_rewrites_ast.py:172-181 | the lifted binder is renamed to `y_0` |
| LiftExamples.SharedCaptureFindsOne | test/python/test_rewrites_ast.py:183-192 | one match when the else-branch uses the lifted name freely |
| LiftExamples.SharedCaptureRenames | test/python/test_rewrites_ast.py:183-192 | the lifted binder is renamed to `x_0`, so the free `x` is not captured |
| BuildExamples.BuildLetFindsOne | test/python/test_rewrites_ast.py:195-208 | a let independent of the index has the one match in the build |
| BuildExamples.BuildLetLifted | test/python/test_rewrites_ast.py:195-208 | it rewrites to `(if (gt 10 0) (let … (build 10 …)) (build 0 …))` |
| BuildExamples.BuildThenFindsOne | test/python/test_rewrites_ast.py:210-221 | the if inside the new build has one match |
| BuildExamples.BuildThenLifted | test/python/test_rewrites_ast.py:210-221 | the if moves out under the `(gt 10 0)` guard; the else keeps the unchanged build of size 10 |
| BuildExamples.BuildUsesIndexFindsNoLet | test/python/test_rewrites_ast.py:223-228 | a let that uses the index is not lifted out of the build |
| BuildExamples.BuildUsesIndexFindsOneIf | test/python/test_rewrites_ast.py:229-236 | the if may still leave the let, though not the build |
| BuildExamples.BuildUsesIndexLifted | test/python/test_rewrites_ast.py:229-236 | the result keeps the if inside the build |
| BindExamples.RawNewBindFindsFour | test/python/test_rewrites_ast.py:239-250 | `raw_new_bind` has exactly four matches: the root, the rhs, the body and the call argument |
| BindExamples.RawNewBindAtRoot | test/python/test_rewrites_ast.py:239-250 | at the root it gives `(let (z <input>) z)` |
| BindExamples.RawNewBindAtRhs | test/python/test_rewrites_ast.py:239-250 | at the rhs it gives `(let (y (let (z …) z)) …)` |
| BindExamples.RawNewBindAtBody | test/python/test_rewrites_ast.py:239-250 | at the body it binds the whole body |
| BindExamples.RawNewBindAtArg | test/python/test_rewrites_ast.py:239-250 | at the argument it binds `(add x 1)` |
| BindExamples.NewBindFindsOne | test/python/test_rewrites_ast.py:252-254 | `new_bind` has exactly one match, the call argument |
| BindExamples.NewBindResult | test/python/test_rewrites_ast.py:252-254 | its result is the expected tree |
| BindExamples.SquareFindsTwo | test/python/test_rewrites_ast.py:259-267 | `(mul (add x 1) (add x 1))` gives one `new_bind` match per argument |
| BindExamples.SquareBound | test/python/test_rewrites_ast.py:259-267 | each binds one argument |
| BindExamples.SquareBoundAsExpected | test/python/test_rewrites_ast.py:259-271 | the right-hand result is alpha-equivalent to the expected tree |
| BindExamples.BoundRightFindsOne | test/python/test_rewrites_ast.py:273-277 | `lift_let` has one match on it |
| BindExamples.BoundRightLifted | test/python/test_rewrites_ast.py:273-277 | the let moves out of the `mul` |
| BindExamples.Lifted1AsExpected | test/python/test_rewrites_ast.py:273-277 | the result is alpha-equivalent to the expected tree |
| BindExamples.Lifted1FindsOne | test/python/test_rewrites_ast.py:280-286 | `new_bind` then has one match |
| BindExamples.Lifted1Bound | test/python/test_rewrites_ast.py:280-286 | its rewrite is the expected binding |
| BindExamples.Bound2AsExpected | test/python/test_rewrites_ast.py:280-286 | the result is alpha-equivalent to the expected tree |
| BindExamples.Bound2FindsOne | test/python/test_rewrites_ast.py:289-295 | `lift_let` then has one match |
| BindExamples.Bound2Lifted | test/python/test_rewrites_ast.py:289-295 | its rewrite lifts the new let |
| BindExamples.Lifted2AsExpected | test/python/test_rewrites_ast.py:289-295 | the result is alpha-equivalent to the expected tree |
| BindExamples.Lifted2FindsOne | test/python/test_rewrites_ast.py:298-302 | `cse_bind` has exactly one match |
| BindExamples.Lifted2Cse | test/python/test_rewrites_ast.py:298-302 | it replaces the inner rhs with the outer binder |
| BindExamples.CseBoundAsExpected | test/python/test_rewrites_ast.py:298-302 | the result is alpha-equivalent to the expected tree |
| BindExamples.CseBoundFindsTwo | test/python/test_rewrites_ast.py:305-312 | `inline_let` has one match per let |
| BindExamples.InlineOuterResult | test/python/test_rewrites_ast.py:305-312 | inlining the outer let gives `(let (z_0 A) (mul z_0 A))` |
| BindExamples.InlineInnerResult | test/python/test_rewrites_ast.py:305-312 | inlining the inner let gives `(let (z A) (mul z z))` |
| BindExamples.InlinedAsExpected | test/python/test_rewrites_ast.py:305-312 | both are alpha-equivalent to the expected trees |
| AbstractBackend.CheckArgsAndGetContext | src/python/ksc/backends/abstract.py:30-47 | success iff all labelled arguments agree. The context is then "concrete" when no argument is abstract, else the first label, else "concrete" if any argument is concrete, else none. On failure the error names the first conflicting argument, numbered from 1, and the expected and actual labels |
| AbstractBackend.ContextIgnoresOrder | src/python/ksc/backends/abstract.py:30-47 | agreement and the merged context do not depend on argument order |
| AbstractBackend.AgreedContextFromArgs | src/python/ksc/backends/abstract.py:36-41 | with an abstract argument, the merged context is the context of one of the arguments |
| AbstractBackend.CostInAppend | src/python/ksc/backends/abstract.py:73 | appending a cost entry raises its context's total by its cost and no other total |
| AbstractBackend.ExecutionContext.constructor | src/python/ksc/backends/abstract.py:102 | a new execution context has an empty cost log |
| AbstractBackend.ExecutionContext.AccumulateCost | src/python/ksc/backends/abstract.py:73 | the entry is appended to the log; the total of its context grows by the cost and every other total is unchanged |
| AbstractBackend.IndexValue | src/python/ksc/backends/abstract.py:79-88 | defined iff the value is a vector with a tuple shape. The result has the element type, the shape without its first dimension (the empty shape for an empty shape, as Python's `()[1:]`), no data and the vector's context |
| AbstractBackend.Index | src/python/ksc/backends/abstract.py:79-88 | returns IndexValue; charges `index_cost` to the vector's context exactly when the argument is a vector |
| AbstractBackend.SizeValue | src/python/ksc/backends/abstract.py:90-95 | defined iff the value is a vector whose shape starts with a dimension; the result is that dimension as an integer in the vector's context |
| AbstractBackend.Size | src/python/ksc/backends/abstract.py:90-95 | returns SizeValue; charges `size_cost` exactly when the argument is a vector |
| AbstractBackend.BuildValue | src/python/ksc/backends/abstract.py:116-117 | defined iff the element shape is a tuple; the result is the vector of the element type with shape `(n,) + el_shape` |
| AbstractBackend.IndexOfBuilt | src/python/ksc/backends/abstract.py:79-117 | indexing a built vector gives back the element's shape and type |
| AbstractBackend.SizeOfBuilt | src/python/ksc/backends/abstract.py:90-117 | the size of a built vector is `n` |
| AbstractBackend.BuildSize | src/python/ksc/backends/abstract.py:97-100 | the build size is the integer data of `n`, read through `DataOf` (`_get_data`). An unknown `n` is the `UnknownSize` error (see Left out) |
| AbstractBackend.SingleArgContext | src/python/ksc/backends/abstract.py:108 | a single argument always agrees with itself; its context is its own label, or "concrete" when it is not abstract |
| AbstractBackend.Build | src/python/ksc/backends/abstract.py:107-117 | the context comes from `n` alone. One entry `build_malloc_cost + n*inner_cost` is charged to it and the result is BuildValue. An unknown or non-integer `n` changes nothing and fails |
| AbstractBackend.SumBuild | src/python/ksc/backends/abstract.py:119-129 | the result has the element's shape and type in `n`'s context; one entry `n*inner_cost + (n-1)*num_elements` is charged |
| AbstractBackend.SumBuildCostGrows | src/python/ksc/backends/abstract.py:127 | a sumbuild of one element costs the inner cost; each further element adds the inner cost plus one addition per element of the result |
| AbstractBackend.Fold | src/python/ksc/backends/abstract.py:131-132 | always fails as not implemented |
| AbstractBackend.MakeTupleValue | src/python/ksc/backends/abstract.py:136-141 | shapes, types and data are built componentwise from the arguments |
| AbstractBackend.MakeTuple | src/python/ksc/backends/abstract.py:134-141 | success iff the arguments' contexts agree. The result is then MakeTupleValue in the merged context, and one entry `let_cost*len(args)` is charged. On a conflict nothing is charged |
| AbstractBackend.TupleElementValue | src/python/ksc/backends/abstract.py:143-150 | defined iff i indexes the shape, the child types and any tuple data. The result is component i's shape and type in the tuple's context, with data only when the tuple's data is a tuple |
| AbstractBackend.TupleRoundTrip | src/python/ksc/backends/abstract.py:134-150 | selecting component i of a made tuple gives back argument i's shape, type and data |
| AbstractBackend.GetTupleElement | src/python/ksc/backends/abstract.py:143-150 | returns TupleElementValue; charges `select_cost` to the tuple's context exactly when it succeeds |
| AbstractBackend.LetBinding | src/python/ksc/backends/abstract.py:152-156 | returns `body(var)` and charges `let_cost` to the bound value's context |
| AbstractBackend.NormaliseShape | src/python/ksc/backends/abstract.py:69-70 | a scalar shape 0 becomes the empty tuple; every other shape is unchanged |
| AbstractBackend.NormaliseShapeIdempotent | src/python/ksc/backends/abstract.py:69-70 | normalising twice is normalising once |
| Prelude.FirstMaxUnique | src/runtime/knossos-prelude.h:55 | at most one index is the first maximum, so the argmax is determined |
| Prelude.IMaximum | src/runtime/knossos-prelude.h:49-61 | for a non-empty vector, returns an in-range index of a maximal element with every earlier element strictly smaller |
| Prelude.Maximum | src/runtime/knossos-prelude.h:63-66 | returns an element of the vector that is at least every element, namely the one at the first maximum |
| Prelude.FwdMaximum | src/runtime/knossos-prelude.h:68-73 | returns the tangent at the first maximum of the primal vector |
| Prelude.Column | src/runtime/knossos-prelude.h:39-42 | column k holds entry k of every row |
| Prelude.Scale | src/runtime/knossos-prelude.h:36 | `v*dr[i]` scales every entry of v by `dr[i]` |
| Prelude.MatVec | src/runtime/knossos-prelude.h:18-26 | the product has one entry per row of M |
| Prelude.MatVecAt | src/runtime/knossos-prelude.h:24 | entry i of the product is the dot product of row i with v |
| Prelude.TransposeVec | src/runtime/knossos-prelude.h:38-44 | the vector gradient has `size(v)` entries; entry i is the dot product of column i with dr |
| Prelude.MulMatVec | src/runtime/knossos-prelude.h:18-26 | the loop fills a fresh array of `size(M)` entries with MatVec |
| Prelude.RevMulMatVec | src/runtime/knossos-prelude.h:28-47 | row i of the matrix gradient is `v*dr[i]` (`size(M)` rows); the vector gradient equals TransposeVec (`size(v)` entries) |
| Prelude.ColumnDot | src/runtime/knossos-prelude.h:39-43 | the inner loop accumulates `M[j][i] * dr[j]` over all rows: the result is the dot product of column i with dr |
| Prelude.Plus | src/runtime/knossos-prelude.h:42 | vectors are added entrywise |
| Prelude.DotAdd | src/runtime/knossos-prelude.h:39-44 | the dot product is linear in its first argument |
| Prelude.DotScale | src/runtime/knossos-prelude.h:36 | scaling the first argument scales the dot product |
| Prelude.DotSymmetric | src/runtime/knossos-prelude.h:24 | the dot product is symmetric |
| Prelude.ZeroDot | src/runtime/knossos-prelude.h:40 | a zero vector has dot product 0 with anything, which is the accumulator's start value |
| Prelude.TransposeVecLastRow | src/runtime/knossos-prelude.h:39-44 | the vector gradient of M equals that of M without its last row plus the last row scaled by the last `dr` |
| Prelude.DotSplit | src/runtime/knossos-prelude.h:41-42 | a dot product splits into its prefix and its last term |
| Prelude.MatVecLastRow | src/runtime/knossos-prelude.h:21-25 | `dr·(Mv)` splits into the leading rows and the last row |
| Prelude.RevMulMatVecAdjoint | src/runtime/knossos-prelude.h:28-47 | the vector gradient is the adjoint: `dr·(Mv) = retv·v` |
| Prelude.Outer | src/runtime/knossos-prelude.h:34-36 | the outer product `dr ⊗ v` has `size(dr)` rows; row i is `v*dr[i]` |
| Prelude.RevMulMatAdjoint | src/runtime/knossos-prelude.h:28-36 | the matrix gradient is the adjoint in M: `dr·(dM v) = ⟨dM, retM⟩` |

## Left out

- Parsing, type propagation, `utils.single_elem` and the prelude symbol table are not modelled. Trees are built directly, untyped.
- `find_all_matches` is a lazy generator in Python. Here it is a finite sequence in a fixed order, and tests that compare sets are stated up to order (multisets).
- The rewrite engine's implementation modules (`ksc.rewrites`, `ksc.rewrites_ast`, `ksc.alpha_equiv`, `ksc.expr`) are not part of this model. The rules reproduce the behaviour the test suite demands, so other behaviour of those modules may differ.
- `raw_new_bind`, `new_bind`: the new binder is always named `z` (first free `z_k` when taken). The tests compare these results only up to alpha-equivalence.
- `_get_edef` is not modelled apart from its scalar-shape normalisation (NormaliseShape). It covers the lookup of a Python function by name for concrete calls, the `shape$`/`cost$` definitions and `@wraps`.
- The global `ExecutionContext` stack and `current_execution_context` are not modelled. The context is an explicit `ExecutionContext` object passed to every operation.
- `_compute_build_inner_cost` runs the build body in a fresh nested context. The model takes the body's element value `el` and its cost `inner_cost` as parameters.
- `num_elements` of a type (sumbuild's cost) is not part of this model. It is the parameter `numElements`.
- AbstractBackend.BuildSize: when `n` has no data, the source (line 100) reads the undefined name `exec_ctx` and raises `NameError` instead of using `assumed_vector_size`. The model returns the `UnknownSize` error and charges nothing.
- AbstractBackend.BuildSize: a non-integer data for `n` is a `ShapeError`. Python would compute with whatever the value is.
- AbstractBackend.SizeValue: a vector whose shape starts with a nested tuple fails here. Python would wrap that tuple as data.
- AbstractBackend.LetBinding: the body is a pure function on values, so costs charged while evaluating the body are not modelled.
- AbstractBackend.MakeTuple: every argument is an abstract value. The source would raise on a concrete argument when reading `shape_type`.
- `AbstractValue` and `ExecutionContext` themselves (`ksc/abstract_value.py`) are not part of this model. `from_data` of an integer is taken to be a scalar Integer value with empty shape.
- Doubles are modelled as mathematical reals: no rounding, overflow or NaN. In particular NaN is never the maximum in `imaximum`.
- `dot` and `deltaVec` live in `knossos.h`, which is not part of this model. `dot` is taken to be the inner product (Dot). `rev$maximum` is left out because it returns `deltaVec(size(v), i, dr)`.
- `dotv`, `edef_example` and its derivatives, `pow$aFloat`, `fwd$gt` and the `throw` stubs (`digamma`, `rev$lgamma`, `fwd$lgamma`, `fwd$pow$aFloat`, `rev$pow$aFloat`, `rev$gt`) are one-line wrappers or unimplemented, so they are not modelled.
- The `std::cerr` writes in `fwd$maximum` and `rev$maximum` are not modelled.
- Prelude.IMaximum: the source's `KS_ASSERT(size(v) > 0)` (line 51) aborts on an empty vector. The model makes it the precondition `|v| > 0`, so the abort itself is not modelled.
- Prelude.Maximum: requires `|v| > 0` because it calls `imaximum`, whose assertion would abort.
- Prelude.FwdMaximum: requires `|v| > 0` for the same reason. It also requires `|dv| == |v|`; the source reads `dv[i]` unchecked, and a shorter `dv` would be undefined behaviour.
- Rules.Apply: there is no evaluator, so the model does not state that a rewrite preserves the value of an expression. What it does state is that rewriting never captures or releases a variable (Scoping.ApplyFreeVars).
- Prelude: `size_t`/`int` index widths are not modelled. Indices are unbounded naturals.
- `test/ksc/mnistcnnpy.cpp` (pybind11 glue) and `test/kspy/test_fold.py` (code generation and import) are not modelled.
