/**
 * The local rewrite rules of the binding-aware rewrite engine. A rule is
 * located at a parent node and a site inside it (the node itself, one child,
 * or for common-subexpression binding a path below the let body); `Applies`
 * is the rule's legality test and `Apply` the rewritten parent node.
 */
module Rules {
  import opened Syntax
  import opened Names
  import opened Alpha
  import opened Substitution

  datatype Rule =
    | LiftLetOverCall      // (f .. (let (x e) b) ..)        => (let (x e) (f .. b ..))
    | LiftLetOverIfCond    // (if (let (x e) b) t f)         => (let (x e) (if b t f))
    | LiftLetOverLetBody   // (let (y r) (let (x e) b))      => (let (x e) (let (y r) b))
    | LiftLetOverIfBranch  // a let out of one or both branches of an if
    | LiftLetOverBuild     // a let out of the body of a build, guarded by (gt n 0)
    | LiftIfOverCall       // (f .. (if c t e) ..)           => (if c (f .. t ..) (f .. e ..))
    | LiftIfOverIfCond     // (if (if c a b) t f)            => (if c (if a t f) (if b t f))
    | LiftIfOverLetBody    // (let (x r) (if c t f))         => (if c (let (x r) t) (let (x r) f))
    | LiftIfOverIfBranch   // (if p (if q a b) f)            => (if q (if p a f) (if p b f))
    | LiftIfOverBuild      // an if out of the body of a build, guarded by (gt n 0)
    | RawNewBind           // e                              => (let (z e) z)
    | NewBind              // (f .. e ..)                    => (f .. (let (z e) z) ..)
    | CseBind              // (let (y A) .. (let (z A') b)) with A' alpha-equivalent to A => z bound to y
    | InlineLet            // (let (x r) b)                  => b with r substituted for x

  const LiftLetRules: seq<Rule> :=
    [LiftLetOverCall, LiftLetOverIfCond, LiftLetOverLetBody, LiftLetOverIfBranch, LiftLetOverBuild]
  const LiftIfRules: seq<Rule> :=
    [LiftIfOverCall, LiftIfOverIfCond, LiftIfOverLetBody, LiftIfOverIfBranch, LiftIfOverBuild]
  const LiftAllRules: seq<Rule> := LiftLetRules + LiftIfRules

  /** Where inside the parent node a rule acts. */
  datatype Site = AtNode | AtChild(i: nat) | AtPath(q: Path)

  /** The name new bindings start from. */
  const NewVarBase: Name := "z"

  /** A non-atomic, non-lambda expression can be given a name of its own. */
  predicate Bindable(e: Expr)
  {
    !IsAtom(e) && !e.Lam?
  }

  /** Both branches bind alpha-equivalent right-hand sides: the then-branch let can be lifted
      and the else-branch binding becomes an alias of it. */
  predicate BranchesShareBinding(e: Expr)
    requires e.If? && e.thenBr.Let?
  {
    e.elseBr.Let? && AlphaEq(e.thenBr.rhs, e.elseBr.rhs)
  }

  /** The let below the body of `e` at path `q` recomputes `e`'s right-hand side, and
      `e`'s binding is visible there unchanged. */
  predicate CseTarget(e: Expr, q: Path)
    requires e.Let?
  {
    e.v !in FreeVars(e.rhs)
    && ValidPath(e.body, q)
    && SubtreeAt(e.body, q).Let?
    && AlphaEq(SubtreeAt(e.body, q).rhs, e.rhs)
    && PathBinders(e.body, q) !! ({e.v} + FreeVars(e.rhs))
  }

  // Legality of each rule at its parent node

  /** Call argument number `i` is a let (lift_let) or an if (lift_if), or can be bound (new_bind). */
  datatype ArgShape = LetArg | IfArg | BindableArg

  predicate ArgFits(shape: ArgShape, a: Expr)
  {
    match shape
    case LetArg => a.Let?
    case IfArg => a.If?
    case BindableArg => Bindable(a)
  }

  predicate CallArgFits(shape: ArgShape, e: Expr, i: nat)
  {
    e.Call? && i < |e.args| && ArgFits(shape, e.args[i])
  }

  predicate LetInCond(e: Expr)
  {
    e.If? && e.cond.Let?
  }

  /** The inner binding does not use the outer one, so their order can be swapped. */
  predicate LetInLetBody(e: Expr)
  {
    e.Let? && e.body.Let? && e.v !in FreeVars(e.body.rhs)
  }

  /** A let in a branch can be lifted when evaluating its right-hand side early does no work
      (an atom), or when the other branch computes the same right-hand side anyway. */
  predicate LetInBranch(e: Expr, i: nat)
  {
    e.If?
    && ((i == 1 && e.thenBr.Let? && (IsAtom(e.thenBr.rhs) || BranchesShareBinding(e)))
        || (i == 2 && e.elseBr.Let? && IsAtom(e.elseBr.rhs)))
  }

  /** The let in a build body does not depend on the index variable. */
  predicate LetInBuild(e: Expr)
  {
    IsBuild(e) && e.args[1].body.Let? && e.args[1].param !in FreeVars(e.args[1].body.rhs)
  }

  predicate IfInCond(e: Expr)
  {
    e.If? && e.cond.If?
  }

  /** The condition does not use the let's variable. */
  predicate IfInLetBody(e: Expr)
  {
    e.Let? && e.body.If? && e.v !in FreeVars(e.body.cond)
  }

  /** Only an atomic condition may be evaluated before the enclosing if's condition. */
  predicate IfInBranch(e: Expr, i: nat)
  {
    e.If?
    && ((i == 1 && e.thenBr.If? && IsAtom(e.thenBr.cond))
        || (i == 2 && e.elseBr.If? && IsAtom(e.elseBr.cond)))
  }

  /** The condition in a build body does not depend on the index variable. */
  predicate IfInBuild(e: Expr)
  {
    IsBuild(e) && e.args[1].body.If? && e.args[1].param !in FreeVars(e.args[1].body.cond)
  }

  /** The legality test of each rule at parent `e` and site `s`. */
  predicate Applies(rule: Rule, e: Expr, s: Site)
  {
    match rule
    case LiftLetOverCall => s.AtChild? && CallArgFits(LetArg, e, s.i)
    case LiftLetOverIfCond => s == AtNode && LetInCond(e)
    case LiftLetOverLetBody => s == AtNode && LetInLetBody(e)
    case LiftLetOverIfBranch => s.AtChild? && LetInBranch(e, s.i)
    case LiftLetOverBuild => s == AtNode && LetInBuild(e)
    case LiftIfOverCall => s.AtChild? && CallArgFits(IfArg, e, s.i)
    case LiftIfOverIfCond => s == AtNode && IfInCond(e)
    case LiftIfOverLetBody => s == AtNode && IfInLetBody(e)
    case LiftIfOverIfBranch => s.AtChild? && IfInBranch(e, s.i)
    case LiftIfOverBuild => s == AtNode && IfInBuild(e)
    case RawNewBind => s == AtNode && Bindable(e)
    case NewBind => s.AtChild? && CallArgFits(BindableArg, e, s.i)
    case CseBind => s.AtPath? && e.Let? && CseTarget(e, s.q)
    case InlineLet => s == AtNode && e.Let?
  }

  /** The arguments other than number `i`. */
  function OtherArgs(args: seq<Expr>, i: nat): seq<Expr>
    requires i < |args|
  {
    args[..i] + args[i + 1..]
  }

  /** The binder and body of a lifted let binding `x` over `b`: when the binding would
      capture a name used at its new position (`clash`) it is renamed to a name not
      occurring in the parent node `scope`. */
  function Hoisted(x: Name, b: Expr, clash: bool, scope: Expr): (Name, Expr)
  {
    if clash then
      var x' := FreshName(x, AllNames(scope));
      (x', Rename(b, x, x'))
    else (x, b)
  }

  function Gt0(n: Expr): Expr
  {
    Call(GtName, [n, Const(IntLit(0))])
  }

  function Build(n: Expr, i: Name, body: Expr): Expr
  {
    Call(BuildName, [n, Lam(i, body)])
  }

  /** The parent node after the rewrite. */
  function Apply(rule: Rule, e: Expr, s: Site): Expr
    requires Applies(rule, e, s)
  {
    match rule
    case LiftLetOverCall =>
      var Let(x, r, b) := e.args[s.i];
      var (x', b') := Hoisted(x, b, x in FreeVarsArgs(OtherArgs(e.args, s.i)), e);
      Let(x', r, Call(e.fn, e.args[s.i := b']))
    case LiftLetOverIfCond =>
      var Let(x, r, b) := e.cond;
      var (x', b') := Hoisted(x, b, x in FreeVars(e.thenBr) + FreeVars(e.elseBr), e);
      Let(x', r, If(b', e.thenBr, e.elseBr))
    case LiftLetOverLetBody =>
      var Let(x, r, b) := e.body;
      var (x', b') := Hoisted(x, b, x in FreeVars(e.rhs) || x == e.v, e);
      Let(x', r, Let(e.v, e.rhs, b'))
    case LiftLetOverIfBranch =>
      if s.i == 1 then
        var Let(x, r, a) := e.thenBr;
        if BranchesShareBinding(e) then
          var (x', a') := Hoisted(x, a, x in FreeVars(e.cond) + FreeVars(e.elseBr.body), e);
          Let(x', r, If(e.cond, a', Let(e.elseBr.v, Var(x'), e.elseBr.body)))
        else
          var (x', a') := Hoisted(x, a, x in FreeVars(e.cond) + FreeVars(e.elseBr), e);
          Let(x', r, If(e.cond, a', e.elseBr))
      else
        var Let(x, r, b) := e.elseBr;
        var (x', b') := Hoisted(x, b, x in FreeVars(e.cond) + FreeVars(e.thenBr), e);
        Let(x', r, If(e.cond, e.thenBr, b'))
    case LiftLetOverBuild =>
      var n := e.args[0];
      var i := e.args[1].param;
      var Let(x, r, b) := e.args[1].body;
      var (x', b') := Hoisted(x, b, x in FreeVars(n) || x == i, e);
      If(Gt0(n), Let(x', r, Build(n, i, b')), Call(BuildName, [Const(IntLit(0)), e.args[1]]))
    case LiftIfOverCall =>
      var If(c, t, f) := e.args[s.i];
      If(c, Call(e.fn, e.args[s.i := t]), Call(e.fn, e.args[s.i := f]))
    case LiftIfOverIfCond =>
      var If(c, a, b) := e.cond;
      If(c, If(a, e.thenBr, e.elseBr), If(b, e.thenBr, e.elseBr))
    case LiftIfOverLetBody =>
      var If(c, t, f) := e.body;
      If(c, Let(e.v, e.rhs, t), Let(e.v, e.rhs, f))
    case LiftIfOverIfBranch =>
      if s.i == 1 then
        var If(q, a, b) := e.thenBr;
        If(q, If(e.cond, a, e.elseBr), If(e.cond, b, e.elseBr))
      else
        var If(q, a, b) := e.elseBr;
        If(q, If(e.cond, e.thenBr, a), If(e.cond, e.thenBr, b))
    case LiftIfOverBuild =>
      var n := e.args[0];
      var i := e.args[1].param;
      var If(c, t, f) := e.args[1].body;
      If(Gt0(n), If(c, Build(n, i, t), Build(n, i, f)), e)
    case RawNewBind =>
      var z := FreshName(NewVarBase, AllNames(e));
      Let(z, e, Var(z))
    case NewBind =>
      var z := FreshName(NewVarBase, AllNames(e));
      Call(e.fn, e.args[s.i := Let(z, e.args[s.i], Var(z))])
    case CseBind =>
      var Let(z, _, b) := SubtreeAt(e.body, s.q);
      Let(e.v, e.rhs, ReplaceAt(e.body, s.q, Let(z, Var(e.v), b)))
    case InlineLet =>
      Subst(e.body, e.v, e.rhs)
  }

  // ---------------------------------------------------------------------------
  // Enumeration of the sites at which a rule applies

  /** The call arguments from number `k` on that have the given shape, in order. */
  function ArgSites(shape: ArgShape, args: seq<Expr>, k: nat): (ss: seq<Site>)
    decreases |args| - k
  {
    if k >= |args| then []
    else (if ArgFits(shape, args[k]) then [AtChild(k)] else []) + ArgSites(shape, args, k + 1)
  }

  lemma {:induction false} ArgSitesSpec(shape: ArgShape, args: seq<Expr>, k: nat, s: Site)
    ensures s in ArgSites(shape, args, k) <==> s.AtChild? && k <= s.i < |args| && ArgFits(shape, args[s.i])
    decreases |args| - k
  {
    if k < |args| {
      ArgSitesSpec(shape, args, k + 1, s);
    }
  }

  function BranchSites(fits: bool, fitsElse: bool): seq<Site>
  {
    (if fits then [AtChild(1)] else []) + (if fitsElse then [AtChild(2)] else [])
  }

  lemma BranchSitesSpec(fits: bool, fitsElse: bool, s: Site)
    ensures s in BranchSites(fits, fitsElse) <==> (s == AtChild(1) && fits) || (s == AtChild(2) && fitsElse)
  {
  }

  function PrefixAll(i: nat, qs: seq<Path>): (r: seq<Path>)
    ensures |r| == |qs| && forall j :: 0 <= j < |qs| ==> r[j] == [i] + qs[j]
  {
    if qs == [] then [] else [[i] + qs[0]] + PrefixAll(i, qs[1..])
  }

  lemma PrefixAllMember(i: nat, qs: seq<Path>, q: Path)
    ensures q in PrefixAll(i, qs) <==> q != [] && q[0] == i && q[1..] in qs
  {
    var r := PrefixAll(i, qs);
    if q in r {
      var j :| 0 <= j < |r| && r[j] == q;
      assert q[1..] == qs[j];
    }
    if q != [] && q[0] == i && q[1..] in qs {
      var j :| 0 <= j < |qs| && qs[j] == q[1..];
      assert r[j] == q;
    }
  }

  /** Each path of `subs[i]` prefixed by `i`, for `i` from `k` on, in order. */
  function PrefixedFrom(subs: seq<seq<Path>>, k: nat): seq<Path>
    decreases |subs| - k
  {
    if k >= |subs| then [] else PrefixAll(k, subs[k]) + PrefixedFrom(subs, k + 1)
  }

  lemma {:induction false} PrefixedFromMember(subs: seq<seq<Path>>, k: nat, q: Path)
    ensures q in PrefixedFrom(subs, k) <==> q != [] && k <= q[0] < |subs| && q[1..] in subs[q[0]]
    decreases |subs| - k
  {
    if k < |subs| {
      PrefixedFromMember(subs, k + 1, q);
      PrefixAllMember(k, subs[k], q);
    }
  }

  /** Positions within `e`, in pre-order, of lets whose right-hand side is alpha-equivalent
      to `a`, reached without passing a binder of a name in `blocked`. */
  function CsePaths(e: Expr, a: Expr, blocked: set<Name>): seq<Path>
    decreases Size(e), 1
  {
    (if e.Let? && AlphaEq(e.rhs, a) then [[]] else []) + PrefixedFrom(ChildCsePaths(e, a, blocked), 0)
  }

  /** What the search finds below each child of `e`: nothing below a child it may not enter. */
  function ChildCsePaths(e: Expr, a: Expr, blocked: set<Name>): (r: seq<seq<Path>>)
    ensures |r| == |Children(e)|
    decreases Size(e), 0
  {
    seq(|Children(e)|, i requires 0 <= i < |Children(e)| =>
      if Enterable(e, i, blocked) then CsePaths(Children(e)[i], a, blocked) else [])
  }

  /** Whether the search may descend into child number `k`. */
  predicate Enterable(e: Expr, k: nat, blocked: set<Name>)
  {
    match BinderOver(e, k)
    case Some(x) => x !in blocked
    case None => true
  }

  predicate IsCsePath(e: Expr, a: Expr, blocked: set<Name>, q: Path)
  {
    ValidPath(e, q) && SubtreeAt(e, q).Let? && AlphaEq(SubtreeAt(e, q).rhs, a)
    && PathBinders(e, q) !! blocked
  }

  /** `IsCsePath` one step at a time: enter child `q[0]`, then continue below it. */
  predicate CseReach(e: Expr, a: Expr, blocked: set<Name>, q: Path)
    decreases |q|
  {
    if q == [] then e.Let? && AlphaEq(e.rhs, a)
    else q[0] < |Children(e)| && Enterable(e, q[0], blocked) && CseReach(Children(e)[q[0]], a, blocked, q[1..])
  }

  /** A path is found by `CsePaths` exactly when it leads to a let with an alpha-equivalent
      right-hand side and passes no binder of a blocked name. */
  lemma CsePathsSpec(e: Expr, a: Expr, blocked: set<Name>, q: Path)
    ensures q in CsePaths(e, a, blocked) <==> IsCsePath(e, a, blocked, q)
  {
    CsePathsReach(e, a, blocked, q);
    CseReachMeans(e, a, blocked, q);
  }

  lemma {:induction false} CsePathsReach(e: Expr, a: Expr, blocked: set<Name>, q: Path)
    ensures q in CsePaths(e, a, blocked) <==> CseReach(e, a, blocked, q)
    decreases |q|
  {
    CsePathsStep(e, a, blocked, q);
    if q != [] && q[0] < |Children(e)| {
      CsePathsReach(Children(e)[q[0]], a, blocked, q[1..]);
    }
  }

  /** One level of the search: the let at the root, or a path found below an enterable child. */
  lemma CsePathsStep(e: Expr, a: Expr, blocked: set<Name>, q: Path)
    ensures q in CsePaths(e, a, blocked) <==>
      if q == [] then e.Let? && AlphaEq(e.rhs, a)
      else q[0] < |Children(e)| && Enterable(e, q[0], blocked) && q[1..] in CsePaths(Children(e)[q[0]], a, blocked)
  {
    var root: seq<Path> := if e.Let? && AlphaEq(e.rhs, a) then [[]] else [];
    var subs := ChildCsePaths(e, a, blocked);
    PrefixedFromMember(subs, 0, q);
    assert q in CsePaths(e, a, blocked) <==> q in root || q in PrefixedFrom(subs, 0);
    if q != [] && q[0] < |Children(e)| {
      assert subs[q[0]] == if Enterable(e, q[0], blocked) then CsePaths(Children(e)[q[0]], a, blocked) else [];
    }
  }

  /** The step-by-step reading agrees with the whole-path one. */
  lemma {:induction false} CseReachMeans(e: Expr, a: Expr, blocked: set<Name>, q: Path)
    ensures CseReach(e, a, blocked, q) <==> IsCsePath(e, a, blocked, q)
    decreases |q|
  {
    if q != [] && q[0] < |Children(e)| {
      var c := Children(e)[q[0]];
      CseReachMeans(c, a, blocked, q[1..]);
      var binders := BoundOver(e, q[0]);
      assert ValidPath(e, q) <==> ValidPath(c, q[1..]);
      if ValidPath(e, q) {
        assert PathBinders(e, q) == binders + PathBinders(c, q[1..]);
        assert SubtreeAt(e, q) == SubtreeAt(c, q[1..]);
      }
    }
  }

  /** The node itself, when the rule's condition holds there. */
  function AtNodeIf(b: bool): seq<Site>
  {
    if b then [AtNode] else []
  }

  function CseSites(e: Expr): seq<Site>
    requires e.Let?
  {
    PathSites(CsePaths(e.body, e.rhs, {e.v} + FreeVars(e.rhs)))
  }

  function PathSites(qs: seq<Path>): seq<Site>
  {
    if qs == [] then [] else [AtPath(qs[0])] + PathSites(qs[1..])
  }

  lemma {:induction false} PathSitesMember(qs: seq<Path>, s: Site)
    ensures s in PathSites(qs) <==> s.AtPath? && s.q in qs
  {
    if qs != [] {
      PathSitesMember(qs[1..], s);
      assert s.AtPath? ==> (s.q in qs <==> s.q == qs[0] || s.q in qs[1..]);
    }
  }

  /** The sites of node `e` at which `rule` applies, in order. */
  function Sites(rule: Rule, e: Expr): seq<Site>
  {
    match rule
    case LiftLetOverCall => if e.Call? then ArgSites(LetArg, e.args, 0) else []
    case LiftLetOverIfCond => AtNodeIf(LetInCond(e))
    case LiftLetOverLetBody => AtNodeIf(LetInLetBody(e))
    case LiftLetOverIfBranch => BranchSites(LetInBranch(e, 1), LetInBranch(e, 2))
    case LiftLetOverBuild => AtNodeIf(LetInBuild(e))
    case LiftIfOverCall => if e.Call? then ArgSites(IfArg, e.args, 0) else []
    case LiftIfOverIfCond => AtNodeIf(IfInCond(e))
    case LiftIfOverLetBody => AtNodeIf(IfInLetBody(e))
    case LiftIfOverIfBranch => BranchSites(IfInBranch(e, 1), IfInBranch(e, 2))
    case LiftIfOverBuild => AtNodeIf(IfInBuild(e))
    case RawNewBind => AtNodeIf(Bindable(e))
    case NewBind => if e.Call? then ArgSites(BindableArg, e.args, 0) else []
    case CseBind => if e.Let? && e.v !in FreeVars(e.rhs) then CseSites(e) else []
    case InlineLet => AtNodeIf(e.Let?)
  }

  lemma CseSitesSpec(e: Expr, s: Site)
    requires e.Let? && e.v !in FreeVars(e.rhs)
    ensures s in CseSites(e) <==> Applies(CseBind, e, s)
  {
    PathSitesMember(CsePaths(e.body, e.rhs, {e.v} + FreeVars(e.rhs)), s);
    if s.AtPath? {
      CsePathsSpec(e.body, e.rhs, {e.v} + FreeVars(e.rhs), s.q);
    }
  }

  /** `Sites` lists exactly the sites at which a rule applies. */
  lemma SitesSpec(rule: Rule, e: Expr, s: Site)
    ensures s in Sites(rule, e) <==> Applies(rule, e, s)
  {
    match rule
    case LiftLetOverCall =>
      if e.Call? { ArgSitesSpec(LetArg, e.args, 0, s); }
    case LiftLetOverIfBranch =>
      BranchSitesSpec(LetInBranch(e, 1), LetInBranch(e, 2), s);
      assert s.AtChild? && LetInBranch(e, s.i) ==> s.i == 1 || s.i == 2;
    case LiftIfOverCall =>
      if e.Call? { ArgSitesSpec(IfArg, e.args, 0, s); }
    case LiftIfOverIfBranch =>
      BranchSitesSpec(IfInBranch(e, 1), IfInBranch(e, 2), s);
      assert s.AtChild? && IfInBranch(e, s.i) ==> s.i == 1 || s.i == 2;
    case NewBind =>
      if e.Call? { ArgSitesSpec(BindableArg, e.args, 0, s); }
    case CseBind =>
      if e.Let? && e.v !in FreeVars(e.rhs) { CseSitesSpec(e, s); }
    case _ =>
  }

  // ---------------------------------------------------------------------------
  // Each site is listed once

  predicate Distinct<T(==)>(s: seq<T>)
  {
    forall i, j :: 0 <= i < j < |s| ==> s[i] != s[j]
  }

  lemma RuleSetsDistinct()
    ensures Distinct(LiftLetRules) && Distinct(LiftIfRules) && Distinct(LiftAllRules)
  {
  }

  lemma DistinctAppend<T>(a: seq<T>, b: seq<T>)
    requires Distinct(a) && Distinct(b)
    requires forall x :: x in a ==> x !in b
    ensures Distinct(a + b)
  {
    var c := a + b;
    forall i, j | 0 <= i < j < |c| ensures c[i] != c[j] {
      if j < |a| {
        assert c[i] == a[i] && c[j] == a[j];
      } else if i >= |a| {
        assert c[i] == b[i - |a|] && c[j] == b[j - |a|];
      } else {
        assert c[i] in a && c[j] in b;
      }
    }
  }

  lemma {:induction false} ArgSitesDistinct(shape: ArgShape, args: seq<Expr>, k: nat)
    ensures Distinct(ArgSites(shape, args, k))
    decreases |args| - k
  {
    if k < |args| {
      ArgSitesDistinct(shape, args, k + 1);
      var rest := ArgSites(shape, args, k + 1);
      forall x | x in rest ensures x != AtChild(k) {
        ArgSitesSpec(shape, args, k + 1, x);
      }
      DistinctAppend(if ArgFits(shape, args[k]) then [AtChild(k)] else [], rest);
    }
  }

  lemma {:induction false} PathSitesDistinct(qs: seq<Path>)
    requires Distinct(qs)
    ensures Distinct(PathSites(qs))
  {
    if qs != [] {
      assert Distinct(qs[1..]);
      PathSitesDistinct(qs[1..]);
      forall x | x in PathSites(qs[1..]) ensures x != AtPath(qs[0]) {
        PathSitesMember(qs[1..], x);
      }
      DistinctAppend([AtPath(qs[0])], PathSites(qs[1..]));
    }
  }

  lemma {:induction false} PrefixAllDistinct(i: nat, qs: seq<Path>)
    requires Distinct(qs)
    ensures Distinct(PrefixAll(i, qs))
  {
    var r := PrefixAll(i, qs);
    forall a, b | 0 <= a < b < |r| ensures r[a] != r[b] {
      assert r[a][1..] == qs[a] && r[b][1..] == qs[b];
    }
  }

  lemma {:induction false} PrefixedFromDistinct(subs: seq<seq<Path>>, k: nat)
    requires forall i :: 0 <= i < |subs| ==> Distinct(subs[i])
    ensures Distinct(PrefixedFrom(subs, k))
    decreases |subs| - k
  {
    if k < |subs| {
      PrefixAllDistinct(k, subs[k]);
      PrefixedFromDistinct(subs, k + 1);
      forall p | p in PrefixAll(k, subs[k]) ensures p !in PrefixedFrom(subs, k + 1) {
        PrefixAllMember(k, subs[k], p);
        PrefixedFromMember(subs, k + 1, p);
      }
      DistinctAppend(PrefixAll(k, subs[k]), PrefixedFrom(subs, k + 1));
    }
  }

  lemma {:induction false} CsePathsDistinct(e: Expr, a: Expr, blocked: set<Name>)
    ensures Distinct(CsePaths(e, a, blocked))
    decreases Size(e)
  {
    var subs := ChildCsePaths(e, a, blocked);
    forall i | 0 <= i < |subs| ensures Distinct(subs[i]) {
      if Enterable(e, i, blocked) {
        CsePathsDistinct(Children(e)[i], a, blocked);
      }
    }
    PrefixedFromDistinct(subs, 0);
    PrefixedFromMember(subs, 0, []);
    DistinctAppend(if e.Let? && AlphaEq(e.rhs, a) then [[]] else [], PrefixedFrom(subs, 0));
  }

  /** No site is listed twice for the same rule. */
  lemma SitesDistinct(rule: Rule, e: Expr)
    ensures Distinct(Sites(rule, e))
  {
    match rule
    case LiftLetOverCall =>
      if e.Call? { ArgSitesDistinct(LetArg, e.args, 0); }
    case LiftIfOverCall =>
      if e.Call? { ArgSitesDistinct(IfArg, e.args, 0); }
    case NewBind =>
      if e.Call? { ArgSitesDistinct(BindableArg, e.args, 0); }
    case CseBind =>
      if e.Let? && e.v !in FreeVars(e.rhs) {
        CsePathsDistinct(e.body, e.rhs, {e.v} + FreeVars(e.rhs));
        PathSitesDistinct(CsePaths(e.body, e.rhs, {e.v} + FreeVars(e.rhs)));
      }
    case _ =>
  }
}
