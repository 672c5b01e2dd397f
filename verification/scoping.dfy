/**
 * Scoping facts about the rewrite rules. No rule lets a lifted binding capture a name
 * used at its new position, and no rule lets a name escape its binder: the free names
 * of the rewritten node are exactly those of the original, except that inlining a let
 * whose variable the body does not use drops the free names of its right-hand side.
 * The same holds for a rewrite applied anywhere in a tree, because the free names of a
 * node are all that the surrounding tree sees of it.
 */
module Scoping {
  import opened Syntax
  import opened Names
  import opened Alpha
  import opened Substitution
  import opened Rules
  import opened Matcher

  /** A leaf with no free names, standing for the hole of a context. */
  const Hole: Expr := Const(IntLit(0))

  // ---------------------------------------------------------------------------
  // Free names of a tree with one position replaced

  /** The free names of an argument list with argument `i` replaced by `c`. */
  lemma ArgsUpdateFreeVars(args: seq<Expr>, i: nat, c: Expr)
    requires i < |args|
    ensures FreeVarsArgs(args[i := c]) == FreeVarsArgs(args[i := Hole]) + FreeVars(c)
  {
    var a' := args[i := c];
    var h := args[i := Hole];
    forall y ensures y in FreeVarsArgs(a') <==> y in FreeVarsArgs(h) + FreeVars(c) {
      if y in FreeVarsArgs(a') {
        var j :| 0 <= j < |a'| && y in FreeVars(a'[j]);
        if j != i { assert h[j] == a'[j]; }
      }
      if y in FreeVarsArgs(h) {
        var j :| 0 <= j < |h| && y in FreeVars(h[j]);
        assert j != i;
        assert a'[j] == h[j];
      }
      if y in FreeVars(c) { assert a'[i] == c; }
    }
  }

  /** The arguments other than number `i` have the free names of the list with a hole at `i`. */
  lemma OtherArgsFreeVars(args: seq<Expr>, i: nat)
    requires i < |args|
    ensures FreeVarsArgs(OtherArgs(args, i)) == FreeVarsArgs(args[i := Hole])
  {
    var o := OtherArgs(args, i);
    var h := args[i := Hole];
    forall y ensures y in FreeVarsArgs(o) <==> y in FreeVarsArgs(h) {
      if y in FreeVarsArgs(o) {
        var j :| 0 <= j < |o| && y in FreeVars(o[j]);
        if j < i { assert o[j] == h[j]; } else { assert o[j] == h[j + 1]; }
      }
      if y in FreeVarsArgs(h) {
        var j :| 0 <= j < |h| && y in FreeVars(h[j]);
        assert j != i;
        if j < i { assert o[j] == h[j]; } else { assert o[j - 1] == h[j]; }
      }
    }
  }

  /** The names of an argument occur in the call. */
  lemma ArgInCall(e: Expr, i: nat)
    requires e.Call? && i < |e.args|
    ensures AllNames(e.args[i]) <= AllNames(e)
    ensures FreeVars(e.args[i]) <= FreeVars(e)
  {
  }

  /** The free names of a node with child `i` replaced by `c`: those of the node with a
      hole there, and those of `c` that the node does not bind over it. */
  lemma ReplaceChildFreeVars(e: Expr, i: nat, c: Expr)
    requires i < |Children(e)|
    ensures FreeVars(ReplaceChild(e, i, c)) == FreeVars(ReplaceChild(e, i, Hole)) + (FreeVars(c) - BoundOver(e, i))
  {
    if e.Call? {
      ArgsUpdateFreeVars(e.args, i, c);
    }
  }

  /** The free names of a tree with the node at `p` replaced by `s`: those of the tree with
      a hole there, and those of `s` not bound on the way down to `p`. */
  lemma {:induction false} ReplaceAtFreeVars(e: Expr, p: Path, s: Expr)
    requires ValidPath(e, p)
    ensures FreeVars(ReplaceAt(e, p, s)) == FreeVars(ReplaceAt(e, p, Hole)) + (FreeVars(s) - PathBinders(e, p))
    decreases |p|
  {
    if p != [] {
      var c := Children(e)[p[0]];
      ReplaceAtFreeVars(c, p[1..], s);
      ReplaceChildFreeVars(e, p[0], ReplaceAt(c, p[1..], s));
      ReplaceChildFreeVars(e, p[0], ReplaceAt(c, p[1..], Hole));
    }
  }

  // ---------------------------------------------------------------------------
  // Each rule keeps the free names of the parent node

  /** A hoisted binding binds the same names in its body as before, and a renamed binder
      occurs nowhere in the parent node. */
  lemma HoistedFreeVars(x: Name, b: Expr, clash: bool, scope: Expr)
    requires AllNames(b) <= AllNames(scope)
    ensures var xb := Hoisted(x, b, clash, scope);
      FreeVars(xb.1) - {xb.0} == FreeVars(b) - {x}
      && (if clash then xb.0 !in AllNames(scope) else xb == (x, b))
  {
    if clash {
      var x' := FreshName(x, AllNames(scope));
      FreeVarsInAllNames(b);
      RenameFreeVars(b, x, x');
    }
  }

  /** The set reasoning of a let lifted over the other free names `o` of its parent. */
  lemma LiftedLetSets(o: set<Name>, r: set<Name>, b: set<Name>, b': set<Name>, x: Name, x': Name)
    requires b' - {x'} == b - {x}
    requires x' !in o
    ensures r + ((o + b') - {x'}) == o + (r + (b - {x}))
  {
  }

  lemma LiftLetOverCallFreeVars(e: Expr, s: Site)
    requires Applies(LiftLetOverCall, e, s)
    ensures FreeVars(Apply(LiftLetOverCall, e, s)) == FreeVars(e)
  {
    var i := s.i;
    var a := e.args[i];
    var clash := a.v in FreeVarsArgs(OtherArgs(e.args, i));
    var xb := Hoisted(a.v, a.body, clash, e);
    assert Apply(LiftLetOverCall, e, s) == Let(xb.0, a.rhs, Call(e.fn, e.args[i := xb.1]));
    OtherArgsFreeVars(e.args, i);
    assert e.args[i := a] == e.args;
    ArgsUpdateFreeVars(e.args, i, a);
    ArgsUpdateFreeVars(e.args, i, xb.1);
    ArgInCall(e, i);
    FreeVarsInAllNames(e);
    HoistedFreeVars(a.v, a.body, clash, e);
    LiftedLetSets(FreeVarsArgs(e.args[i := Hole]), FreeVars(a.rhs), FreeVars(a.body), FreeVars(xb.1), a.v, xb.0);
  }

  lemma LiftLetOverIfCondFreeVars(e: Expr, s: Site)
    requires Applies(LiftLetOverIfCond, e, s)
    ensures FreeVars(Apply(LiftLetOverIfCond, e, s)) == FreeVars(e)
  {
    var a := e.cond;
    var o := FreeVars(e.thenBr) + FreeVars(e.elseBr);
    var xb := Hoisted(a.v, a.body, a.v in o, e);
    assert Apply(LiftLetOverIfCond, e, s) == Let(xb.0, a.rhs, If(xb.1, e.thenBr, e.elseBr));
    FreeVarsInAllNames(e);
    HoistedFreeVars(a.v, a.body, a.v in o, e);
    LiftedLetSets(o, FreeVars(a.rhs), FreeVars(a.body), FreeVars(xb.1), a.v, xb.0);
  }

  lemma LiftLetOverLetBodyFreeVars(e: Expr, s: Site)
    requires Applies(LiftLetOverLetBody, e, s)
    ensures FreeVars(Apply(LiftLetOverLetBody, e, s)) == FreeVars(e)
  {
    var a := e.body;
    var clash := a.v in FreeVars(e.rhs) || a.v == e.v;
    var xb := Hoisted(a.v, a.body, clash, e);
    assert Apply(LiftLetOverLetBody, e, s) == Let(xb.0, a.rhs, Let(e.v, e.rhs, xb.1));
    FreeVarsInAllNames(e);
    HoistedFreeVars(a.v, a.body, clash, e);
    assert xb.0 != e.v && xb.0 !in FreeVars(e.rhs);
  }

  /** The free names of a let lifted out of the then-branch when the else-branch binds an
      alpha-equivalent right-hand side, which becomes an alias of the lifted name. */
  lemma SharedLetOutOfBranchesFreeVars(c: Expr, x: Name, r: Expr, a: Expr, w: Name, r2: Expr, g: Expr,
                                       x': Name, a': Expr)
    requires FreeVars(r2) == FreeVars(r)
    requires FreeVars(a') - {x'} == FreeVars(a) - {x}
    requires x' !in FreeVars(c) + (FreeVars(g) - {w})
    ensures FreeVars(Let(x', r, If(c, a', Let(w, Var(x'), g))))
      == FreeVars(If(c, Let(x, r, a), Let(w, r2, g)))
  {
    assert FreeVars(Let(w, Var(x'), g)) == {x'} + (FreeVars(g) - {w});
  }

  lemma LiftLetOverIfBranchFreeVars(e: Expr, s: Site)
    requires Applies(LiftLetOverIfBranch, e, s)
    ensures FreeVars(Apply(LiftLetOverIfBranch, e, s)) == FreeVars(e)
  {
    FreeVarsInAllNames(e);
    if s.i == 1 {
      var a := e.thenBr;
      if BranchesShareBinding(e) {
        var g := e.elseBr;
        var o := FreeVars(e.cond) + FreeVars(g.body);
        var xb := Hoisted(a.v, a.body, a.v in o, e);
        assert Apply(LiftLetOverIfBranch, e, s)
          == Let(xb.0, a.rhs, If(e.cond, xb.1, Let(g.v, Var(xb.0), g.body)));
        HoistedFreeVars(a.v, a.body, a.v in o, e);
        AlphaEqFreeVars(a.rhs, g.rhs);
        SharedLetOutOfBranchesFreeVars(e.cond, a.v, a.rhs, a.body, g.v, g.rhs, g.body, xb.0, xb.1);
      } else {
        var o := FreeVars(e.cond) + FreeVars(e.elseBr);
        var xb := Hoisted(a.v, a.body, a.v in o, e);
        assert Apply(LiftLetOverIfBranch, e, s) == Let(xb.0, a.rhs, If(e.cond, xb.1, e.elseBr));
        HoistedFreeVars(a.v, a.body, a.v in o, e);
        LiftedLetSets(o, FreeVars(a.rhs), FreeVars(a.body), FreeVars(xb.1), a.v, xb.0);
      }
    } else {
      var a := e.elseBr;
      var o := FreeVars(e.cond) + FreeVars(e.thenBr);
      var xb := Hoisted(a.v, a.body, a.v in o, e);
      assert Apply(LiftLetOverIfBranch, e, s) == Let(xb.0, a.rhs, If(e.cond, e.thenBr, xb.1));
      HoistedFreeVars(a.v, a.body, a.v in o, e);
      LiftedLetSets(o, FreeVars(a.rhs), FreeVars(a.body), FreeVars(xb.1), a.v, xb.0);
    }
  }

  /** The free names of a let lifted out of a build body into a guarded copy: the copy
      for an empty build keeps the original lambda. */
  lemma LetOutOfBuildFreeVars(n: Expr, i: Name, x: Name, r: Expr, b: Expr, x': Name, b': Expr)
    requires i !in FreeVars(r)
    requires FreeVars(b') - {x'} == FreeVars(b) - {x}
    ensures FreeVars(If(Gt0(n), Let(x', r, Build(n, i, b')), Call(BuildName, [Hole, Lam(i, Let(x, r, b))])))
      == FreeVars(Build(n, i, Let(x, r, b)))
  {
    FreeVarsCall2(BuildName, n, Lam(i, Let(x, r, b)));
    FreeVarsCall2(GtName, n, Hole);
    FreeVarsCall2(BuildName, n, Lam(i, b'));
    FreeVarsCall2(BuildName, Hole, Lam(i, Let(x, r, b)));
  }

  lemma LiftLetOverBuildFreeVars(e: Expr, s: Site)
    requires Applies(LiftLetOverBuild, e, s)
    ensures FreeVars(Apply(LiftLetOverBuild, e, s)) == FreeVars(e)
  {
    var n := e.args[0];
    var lam := e.args[1];
    var a := lam.body;
    var clash := a.v in FreeVars(n) || a.v == lam.param;
    var xb := Hoisted(a.v, a.body, clash, e);
    assert e == Build(n, lam.param, a);
    AllNamesCall2(BuildName, n, lam);
    HoistedFreeVars(a.v, a.body, clash, e);
    assert Apply(LiftLetOverBuild, e, s)
      == If(Gt0(n), Let(xb.0, a.rhs, Build(n, lam.param, xb.1)), Call(BuildName, [Hole, lam]));
    LetOutOfBuildFreeVars(n, lam.param, a.v, a.rhs, a.body, xb.0, xb.1);
  }

  /** The free names of an if lifted out of call argument `i`. */
  lemma IfOutOfArgFreeVars(f: Name, args: seq<Expr>, i: nat)
    requires i < |args| && args[i].If?
    ensures FreeVars(If(args[i].cond, Call(f, args[i := args[i].thenBr]), Call(f, args[i := args[i].elseBr])))
      == FreeVarsArgs(args)
  {
    assert args[i := args[i]] == args;
    ArgsUpdateFreeVars(args, i, args[i]);
    ArgsUpdateFreeVars(args, i, args[i].thenBr);
    ArgsUpdateFreeVars(args, i, args[i].elseBr);
  }

  lemma LiftIfOverCallFreeVars(e: Expr, s: Site)
    requires Applies(LiftIfOverCall, e, s)
    ensures FreeVars(Apply(LiftIfOverCall, e, s)) == FreeVars(e)
  {
    var a := e.args[s.i];
    assert Apply(LiftIfOverCall, e, s)
      == If(a.cond, Call(e.fn, e.args[s.i := a.thenBr]), Call(e.fn, e.args[s.i := a.elseBr]));
    IfOutOfArgFreeVars(e.fn, e.args, s.i);
  }

  /** The free names of an if lifted out of a build body into a guarded copy: the copy for
      an empty build is the original build. */
  lemma IfOutOfBuildFreeVars(n: Expr, i: Name, c: Expr, t: Expr, f: Expr)
    requires i !in FreeVars(c)
    ensures FreeVars(If(Gt0(n), If(c, Build(n, i, t), Build(n, i, f)), Build(n, i, If(c, t, f))))
      == FreeVars(Build(n, i, If(c, t, f)))
  {
    FreeVarsCall2(BuildName, n, Lam(i, If(c, t, f)));
    FreeVarsCall2(GtName, n, Hole);
    FreeVarsCall2(BuildName, n, Lam(i, t));
    FreeVarsCall2(BuildName, n, Lam(i, f));
    IfOutOfBuildSets(FreeVars(n), FreeVars(c), FreeVars(t), FreeVars(f), i);
  }

  /** The set reasoning of an if lifted out of a build body. */
  lemma IfOutOfBuildSets(n: set<Name>, c: set<Name>, t: set<Name>, f: set<Name>, i: Name)
    requires i !in c
    ensures n + (c + (n + (t - {i})) + (n + (f - {i}))) + (n + ((c + t + f) - {i}))
      == n + ((c + t + f) - {i})
  {
  }

  lemma LiftIfOverBuildFreeVars(e: Expr, s: Site)
    requires Applies(LiftIfOverBuild, e, s)
    ensures FreeVars(Apply(LiftIfOverBuild, e, s)) == FreeVars(e)
  {
    var n := e.args[0];
    var lam := e.args[1];
    var a := lam.body;
    assert e == Build(n, lam.param, a);
    assert Apply(LiftIfOverBuild, e, s)
      == If(Gt0(n), If(a.cond, Build(n, lam.param, a.thenBr), Build(n, lam.param, a.elseBr)), e);
    IfOutOfBuildFreeVars(n, lam.param, a.cond, a.thenBr, a.elseBr);
  }

  /** Binding argument `i` to a name returned at once keeps the free names of the arguments. */
  lemma BoundArgFreeVars(args: seq<Expr>, i: nat, z: Name)
    requires i < |args|
    ensures FreeVarsArgs(args[i := Let(z, args[i], Var(z))]) == FreeVarsArgs(args)
  {
    assert args[i := args[i]] == args;
    ArgsUpdateFreeVars(args, i, args[i]);
    ArgsUpdateFreeVars(args, i, Let(z, args[i], Var(z)));
  }

  lemma NewBindFreeVars(e: Expr, s: Site)
    requires Applies(NewBind, e, s)
    ensures FreeVars(Apply(NewBind, e, s)) == FreeVars(e)
  {
    var z := FreshName(NewVarBase, AllNames(e));
    assert Apply(NewBind, e, s) == Call(e.fn, e.args[s.i := Let(z, e.args[s.i], Var(z))]);
    BoundArgFreeVars(e.args, s.i, z);
  }

  /** Binding a recomputed right-hand side to the outer variable keeps the free names: the
      outer variable is bound wherever it is now used, and the replaced right-hand side
      has the free names of the outer one. */
  lemma CseBindFreeVars(e: Expr, s: Site)
    requires Applies(CseBind, e, s)
    ensures FreeVars(Apply(CseBind, e, s)) == FreeVars(e)
  {
    var q := s.q;
    var t := SubtreeAt(e.body, q);
    var t' := Let(t.v, Var(e.v), t.body);
    assert Apply(CseBind, e, s) == Let(e.v, e.rhs, ReplaceAt(e.body, q, t'));
    AlphaEqFreeVars(t.rhs, e.rhs);
    ReplaceAtFreeVars(e.body, q, t');
    ReplaceAtFreeVars(e.body, q, t);
    ReplaceAtSubtreeIsIdentity(e.body, q);
  }

  /** Inlining replaces the variable by the free names of the right-hand side; when the
      body does not use the variable those names are dropped. */
  lemma InlineLetFreeVars(e: Expr, s: Site)
    requires Applies(InlineLet, e, s)
    ensures FreeVars(Apply(InlineLet, e, s)) <= FreeVars(e)
    ensures e.v in FreeVars(e.body) ==> FreeVars(Apply(InlineLet, e, s)) == FreeVars(e)
  {
    SubstFreeVars(e.body, e.v, e.rhs);
  }

  /** Every rule keeps the free names of the node it rewrites; only inlining a let whose
      variable is unused may lose some. */
  lemma ApplyFreeVars(rule: Rule, e: Expr, s: Site)
    requires Applies(rule, e, s)
    ensures FreeVars(Apply(rule, e, s)) <= FreeVars(e)
    ensures rule != InlineLet ==> FreeVars(Apply(rule, e, s)) == FreeVars(e)
    ensures rule == InlineLet && e.v in FreeVars(e.body) ==> FreeVars(Apply(rule, e, s)) == FreeVars(e)
  {
    match rule
    case LiftLetOverCall => LiftLetOverCallFreeVars(e, s);
    case LiftLetOverIfCond => LiftLetOverIfCondFreeVars(e, s);
    case LiftLetOverLetBody => LiftLetOverLetBodyFreeVars(e, s);
    case LiftLetOverIfBranch => LiftLetOverIfBranchFreeVars(e, s);
    case LiftLetOverBuild => LiftLetOverBuildFreeVars(e, s);
    case LiftIfOverCall => LiftIfOverCallFreeVars(e, s);
    case LiftIfOverIfCond =>
    case LiftIfOverLetBody =>
    case LiftIfOverIfBranch =>
    case LiftIfOverBuild => LiftIfOverBuildFreeVars(e, s);
    case RawNewBind =>
    case NewBind => NewBindFreeVars(e, s);
    case CseBind => CseBindFreeVars(e, s);
    case InlineLet => InlineLetFreeVars(e, s);
  }

  /** No lifting rule captures a name or lets one escape its binder. */
  lemma LiftPreservesFreeVars(rule: Rule, e: Expr, s: Site)
    requires rule in LiftAllRules && Applies(rule, e, s)
    ensures FreeVars(Apply(rule, e, s)) == FreeVars(e)
  {
    ApplyFreeVars(rule, e, s);
  }

  /** A rewrite anywhere in a tree keeps the tree's free names, except that inlining an
      unused binding may drop some. */
  lemma ApplyRewriteFreeVars(m: Match)
    requires ValidMatch(m)
    ensures FreeVars(ApplyRewrite(m)) <= FreeVars(m.root)
    ensures m.rule != InlineLet ==> FreeVars(ApplyRewrite(m)) == FreeVars(m.root)
  {
    var t := SubtreeAt(m.root, m.path);
    var a := Apply(m.rule, t, m.site);
    ApplyFreeVars(m.rule, t, m.site);
    ReplaceAtFreeVars(m.root, m.path, a);
    ReplaceAtFreeVars(m.root, m.path, t);
    ReplaceAtSubtreeIsIdentity(m.root, m.path);
  }

  // ---------------------------------------------------------------------------
  // Interchanging two lets

  /** Lifting an inner let over the outer one can be undone by lifting again: the result
      is the original when no renaming was needed, and otherwise differs only in the
      name of the inner binder, which is renamed consistently. */
  lemma LetInterchangeRoundTrip(e: Expr)
    requires Applies(LiftLetOverLetBody, e, AtNode)
    ensures Applies(LiftLetOverLetBody, Apply(LiftLetOverLetBody, e, AtNode), AtNode)
    ensures var e2 := Apply(LiftLetOverLetBody, Apply(LiftLetOverLetBody, e, AtNode), AtNode);
      e2.Let? && e2.v == e.v && e2.rhs == e.rhs && AlphaEq(e2.body, e.body)
      && (e.body.v !in FreeVars(e.rhs) && e.body.v != e.v ==> e2 == e)
  {
    var a := e.body;
    var clash := a.v in FreeVars(e.rhs) || a.v == e.v;
    var xb := Hoisted(a.v, a.body, clash, e);
    var e1 := Let(xb.0, a.rhs, Let(e.v, e.rhs, xb.1));
    assert Apply(LiftLetOverLetBody, e, AtNode) == e1;
    FreeVarsInAllNames(e);
    HoistedFreeVars(a.v, a.body, clash, e);
    assert xb.0 != e.v && xb.0 !in FreeVars(e.rhs);
    assert Hoisted(e.v, xb.1, e.v in FreeVars(a.rhs) || e.v == xb.0, e1) == (e.v, xb.1);
    var e2 := Let(e.v, e.rhs, Let(xb.0, a.rhs, xb.1));
    assert Apply(LiftLetOverLetBody, e1, AtNode) == e2;
    if clash {
      RenameBinderAlpha(a.v, xb.0, a.rhs, a.body);
      AlphaEqSymm(a, Let(xb.0, a.rhs, xb.1));
    } else {
      AlphaEqRefl(a);
    }
  }
}
