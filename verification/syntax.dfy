/**
 * Expression trees of the Knossos (ks) intermediate language as the rewrite
 * engine sees them: immutable trees of variables, literals, calls,
 * conditionals, lets and lambdas. A `build` is the call `(build n (lam (i) body))`.
 * Type annotations are not modelled.
 */
module Syntax {
  import opened Wrappers

  type Name = string

  datatype Lit = IntLit(i: int) | FloatLit(r: real)

  datatype Expr =
    | Var(name: Name)
    | Const(lit: Lit)
    | Call(fn: Name, args: seq<Expr>)
    | If(cond: Expr, thenBr: Expr, elseBr: Expr)
    | Let(v: Name, rhs: Expr, body: Expr)
    | Lam(param: Name, body: Expr)

  /** An expression whose evaluation does no work and cannot fail: a variable or a literal. */
  predicate IsAtom(e: Expr)
  {
    e.Var? || e.Const?
  }

  const BuildName: Name := "build"
  const GtName: Name := "gt"

  /** `(build n (lam (i) body))` */
  predicate IsBuild(e: Expr)
  {
    e.Call? && e.fn == BuildName && |e.args| == 2 && e.args[1].Lam?
  }

  // ---------------------------------------------------------------------------
  // Free variables and the names occurring in an expression

  /** The names referenced but not bound within `e`. */
  function FreeVars(e: Expr): set<Name>
    decreases e
  {
    match e
    case Var(x) => {x}
    case Const(_) => {}
    case Call(_, args) => FreeVarsArgs(args)
    case If(c, t, f) => FreeVars(c) + FreeVars(t) + FreeVars(f)
    case Let(x, r, b) => FreeVars(r) + (FreeVars(b) - {x})
    case Lam(x, b) => FreeVars(b) - {x}
  }

  function FreeVarsArgs(args: seq<Expr>): (r: set<Name>)
    ensures forall y :: y in r <==> exists i :: 0 <= i < |args| && y in FreeVars(args[i])
    decreases args
  {
    if args == [] then {}
    else
      var rest := FreeVarsArgs(args[1..]);
      assert forall i :: 1 <= i < |args| ==> args[i] == args[1..][i - 1];
      FreeVars(args[0]) + rest
  }

  /** Every name occurring in `e`, free, bound or binding. */
  function AllNames(e: Expr): set<Name>
    decreases e
  {
    match e
    case Var(x) => {x}
    case Const(_) => {}
    case Call(_, args) => AllNamesArgs(args)
    case If(c, t, f) => AllNames(c) + AllNames(t) + AllNames(f)
    case Let(x, r, b) => {x} + AllNames(r) + AllNames(b)
    case Lam(x, b) => {x} + AllNames(b)
  }

  function AllNamesArgs(args: seq<Expr>): (r: set<Name>)
    ensures forall y :: y in r <==> exists i :: 0 <= i < |args| && y in AllNames(args[i])
    decreases args
  {
    if args == [] then {}
    else
      var rest := AllNamesArgs(args[1..]);
      assert forall i :: 1 <= i < |args| ==> args[i] == args[1..][i - 1];
      AllNames(args[0]) + rest
  }

  /** The names of a two-argument call are those of its arguments. */
  lemma AllNamesCall2(f: Name, a: Expr, b: Expr)
    ensures AllNames(Call(f, [a, b])) == AllNames(a) + AllNames(b)
  {
    assert [a, b][1..] == [b];
    assert [b][1..] == [];
    assert AllNamesArgs([b]) == AllNames(b);
  }

  /** The free names of a two-argument call are those of its arguments. */
  lemma FreeVarsCall2(f: Name, a: Expr, b: Expr)
    ensures FreeVars(Call(f, [a, b])) == FreeVars(a) + FreeVars(b)
  {
    assert [a, b][1..] == [b];
    assert [b][1..] == [];
    assert FreeVarsArgs([b]) == FreeVars(b);
  }

  lemma {:induction false} FreeVarsInAllNames(e: Expr)
    ensures FreeVars(e) <= AllNames(e)
    decreases e
  {
    match e
    case Var(_) =>
    case Const(_) =>
    case Call(_, args) =>
      forall i | 0 <= i < |args| { FreeVarsInAllNames(args[i]); }
    case If(c, t, f) =>
      FreeVarsInAllNames(c); FreeVarsInAllNames(t); FreeVarsInAllNames(f);
    case Let(_, r, b) =>
      FreeVarsInAllNames(r); FreeVarsInAllNames(b);
    case Lam(_, b) =>
      FreeVarsInAllNames(b);
  }

  // ---------------------------------------------------------------------------
  // Size, a termination measure

  function Size(e: Expr): (n: nat)
    ensures n >= 1
    decreases e
  {
    match e
    case Var(_) => 1
    case Const(_) => 1
    case Call(_, args) => 1 + SizeArgs(args)
    case If(c, t, f) => 1 + Size(c) + Size(t) + Size(f)
    case Let(_, r, b) => 1 + Size(r) + Size(b)
    case Lam(_, b) => 1 + Size(b)
  }

  function SizeArgs(args: seq<Expr>): (n: nat)
    ensures forall i :: 0 <= i < |args| ==> Size(args[i]) <= n
    ensures args != [] ==> n == Size(args[0]) + SizeArgs(args[1..])
    decreases args
  {
    if args == [] then 0
    else
      var rest := SizeArgs(args[1..]);
      assert forall i :: 1 <= i < |args| ==> args[i] == args[1..][i - 1];
      Size(args[0]) + rest
  }

  // ---------------------------------------------------------------------------
  // Positions in a tree: a path is the sequence of child indices from the root

  type Path = seq<nat>

  /** The children of a node in order: call arguments; condition, then, else;
      right-hand side, body; lambda body. */
  function Children(e: Expr): (cs: seq<Expr>)
    ensures forall i :: 0 <= i < |cs| ==> Size(cs[i]) < Size(e)
  {
    match e
    case Var(_) => []
    case Const(_) => []
    case Call(_, args) => args
    case If(c, t, f) => [c, t, f]
    case Let(_, r, b) => [r, b]
    case Lam(_, b) => [b]
  }

  /** `e` with its child number `i` replaced by `c`; the node itself is unchanged: the
      same kind of node, calling the same function or binding the same name. */
  function ReplaceChild(e: Expr, i: nat, c: Expr): (r: Expr)
    requires i < |Children(e)|
    ensures Children(r) == Children(e)[i := c]
    ensures e.Call? ==> r.Call? && r.fn == e.fn
    ensures e.If? ==> r.If?
    ensures e.Let? ==> r.Let? && r.v == e.v
    ensures e.Lam? ==> r.Lam? && r.param == e.param
  {
    match e
    case Call(f, args) => Call(f, args[i := c])
    case If(a, t, f) => if i == 0 then If(c, t, f) else if i == 1 then If(a, c, f) else If(a, t, c)
    case Let(x, r, b) => if i == 0 then Let(x, c, b) else Let(x, r, c)
    case Lam(x, _) => Lam(x, c)
  }

  /** The name a node binds over its child number `i`, if any: a let binds over its body,
      a lambda over its body. */
  function BinderOver(e: Expr, i: nat): Option<Name>
  {
    if e.Let? && i == 1 then Some(e.v)
    else if e.Lam? && i == 0 then Some(e.param)
    else None
  }

  /** The names a node binds over its child number `i`, as a set. */
  function BoundOver(e: Expr, i: nat): set<Name>
  {
    match BinderOver(e, i)
    case Some(x) => {x}
    case None => {}
  }

  predicate ValidPath(e: Expr, p: Path)
    decreases |p|
  {
    p == [] || (p[0] < |Children(e)| && ValidPath(Children(e)[p[0]], p[1..]))
  }

  function SubtreeAt(e: Expr, p: Path): Expr
    requires ValidPath(e, p)
    decreases |p|
  {
    if p == [] then e else SubtreeAt(Children(e)[p[0]], p[1..])
  }

  function ReplaceAt(e: Expr, p: Path, s: Expr): Expr
    requires ValidPath(e, p)
    decreases |p|
  {
    if p == [] then s
    else ReplaceChild(e, p[0], ReplaceAt(Children(e)[p[0]], p[1..], s))
  }

  /** The names bound by the nodes a path passes through, over the position it leads to. */
  function PathBinders(e: Expr, p: Path): set<Name>
    requires ValidPath(e, p)
    decreases |p|
  {
    if p == [] then {}
    else BoundOver(e, p[0]) + PathBinders(Children(e)[p[0]], p[1..])
  }

  /** Replacing the subtree at a path and reading it back gives the replacement. */
  lemma {:induction false} ReplaceAtThenSubtree(e: Expr, p: Path, s: Expr)
    requires ValidPath(e, p)
    ensures ValidPath(ReplaceAt(e, p, s), p)
    ensures SubtreeAt(ReplaceAt(e, p, s), p) == s
    decreases |p|
  {
    if p != [] {
      ReplaceAtThenSubtree(Children(e)[p[0]], p[1..], s);
    }
  }

  /** Putting back the subtree found at a path leaves the tree unchanged. */
  lemma {:induction false} ReplaceAtSubtreeIsIdentity(e: Expr, p: Path)
    requires ValidPath(e, p)
    ensures ReplaceAt(e, p, SubtreeAt(e, p)) == e
    decreases |p|
  {
    if p != [] {
      ReplaceAtSubtreeIsIdentity(Children(e)[p[0]], p[1..]);
      var c := Children(e)[p[0]];
      assert Children(e)[p[0] := c] == Children(e);
      match e
      case Call(f, args) =>
      case If(_, _, _) =>
      case Let(_, _, _) =>
      case Lam(_, _) =>
    }
  }

  /** Paths compose: following `p + q` is following `p` and then `q`. */
  lemma {:induction false} PathAppend(e: Expr, p: Path, q: Path)
    requires ValidPath(e, p)
    ensures ValidPath(e, p + q) <==> ValidPath(SubtreeAt(e, p), q)
    ensures ValidPath(e, p + q) ==> SubtreeAt(e, p + q) == SubtreeAt(SubtreeAt(e, p), q)
    decreases |p|
  {
    if p == [] {
      assert p + q == q;
    } else {
      assert (p + q)[0] == p[0];
      assert (p + q)[1..] == p[1..] + q;
      PathAppend(Children(e)[p[0]], p[1..], q);
    }
  }
}
