/**
 * Renaming of free occurrences and capture-avoiding substitution, the two
 * operations the rewrite rules use to move and remove bindings.
 */
module Substitution {
  import opened Syntax
  import opened Names

  /** `e` with every free occurrence of `x` replaced by `y`; a binder of `x` stops the
      replacement. It cannot capture when `y` does not occur in `e`. */
  function Rename(e: Expr, x: Name, y: Name): (r: Expr)
    ensures Size(r) == Size(e)
    decreases e
  {
    match e
    case Var(z) => if z == x then Var(y) else e
    case Const(_) => e
    case Call(f, args) => Call(f, RenameArgs(args, x, y))
    case If(c, t, f) => If(Rename(c, x, y), Rename(t, x, y), Rename(f, x, y))
    case Let(z, r, b) => Let(z, Rename(r, x, y), if z == x then b else Rename(b, x, y))
    case Lam(z, b) => if z == x then e else Lam(z, Rename(b, x, y))
  }

  function RenameArgs(args: seq<Expr>, x: Name, y: Name): (r: seq<Expr>)
    ensures |r| == |args|
    ensures forall i :: 0 <= i < |args| ==> r[i] == Rename(args[i], x, y)
    ensures SizeArgs(r) == SizeArgs(args)
    decreases args
  {
    if args == [] then []
    else
      var r := [Rename(args[0], x, y)] + RenameArgs(args[1..], x, y);
      assert r[1..] == RenameArgs(args[1..], x, y);
      r
  }

  /** Renaming in a two-argument call renames in each argument. */
  lemma RenameCall2(f: Name, a: Expr, b: Expr, x: Name, y: Name)
    ensures Rename(Call(f, [a, b]), x, y) == Call(f, [Rename(a, x, y), Rename(b, x, y)])
  {
    var r := RenameArgs([a, b], x, y);
    assert r == [Rename(a, x, y), Rename(b, x, y)];
  }

  /** The effect of renaming `x` to `y` on a set of free variables. */
  function Renamed(s: set<Name>, x: Name, y: Name): set<Name>
  {
    if x in s then s - {x} + {y} else s
  }

  /** Renaming with a name that does not occur trades `x` for `y` among the free variables. */
  lemma {:induction false} RenameFreeVars(e: Expr, x: Name, y: Name)
    requires y !in AllNames(e)
    ensures FreeVars(Rename(e, x, y)) == Renamed(FreeVars(e), x, y)
    decreases e
  {
    match e
    case Var(_) =>
    case Const(_) =>
    case Call(f, args) =>
      RenameFreeVarsArgs(args, x, y);
    case If(c, t, f) =>
      RenameFreeVars(c, x, y); RenameFreeVars(t, x, y); RenameFreeVars(f, x, y);
    case Let(z, r, b) =>
      RenameFreeVars(r, x, y);
      if z != x { RenameFreeVars(b, x, y); }
    case Lam(z, b) =>
      if z != x { RenameFreeVars(b, x, y); }
  }

  lemma {:induction false} RenameFreeVarsArgs(args: seq<Expr>, x: Name, y: Name)
    requires y !in AllNamesArgs(args)
    ensures FreeVarsArgs(RenameArgs(args, x, y)) == Renamed(FreeVarsArgs(args), x, y)
    decreases args
  {
    if args != [] {
      RenameFreeVars(args[0], x, y);
      RenameFreeVarsArgs(args[1..], x, y);
      assert RenameArgs(args, x, y)[1..] == RenameArgs(args[1..], x, y);
      assert FreeVarsArgs(args) == FreeVars(args[0]) + FreeVarsArgs(args[1..]);
      var r := RenameArgs(args, x, y);
      assert FreeVarsArgs(r) == FreeVars(r[0]) + FreeVarsArgs(r[1..]);
    }
  }

  /** Renaming a name that is not free changes nothing. */
  lemma {:induction false} RenameNotFree(e: Expr, x: Name, y: Name)
    requires x !in FreeVars(e)
    ensures Rename(e, x, y) == e
    decreases e
  {
    match e
    case Var(_) =>
    case Const(_) =>
    case Call(f, args) =>
      forall i | 0 <= i < |args| ensures Rename(args[i], x, y) == args[i] {
        RenameNotFree(args[i], x, y);
      }
      assert RenameArgs(args, x, y) == args;
    case If(c, t, f) =>
      RenameNotFree(c, x, y); RenameNotFree(t, x, y); RenameNotFree(f, x, y);
    case Let(z, r, b) =>
      RenameNotFree(r, x, y);
      if z != x { RenameNotFree(b, x, y); }
    case Lam(z, b) =>
      if z != x { RenameNotFree(b, x, y); }
  }

  /**
   * `e` with the free occurrences of `x` replaced by `r`. A binder of a name free in `r`
   * over an occurrence of `x` is first renamed to a fresh name, so nothing in `r` is captured.
   */
  function Subst(e: Expr, x: Name, r: Expr): Expr
    decreases Size(e), 1
  {
    if x !in FreeVars(e) then e
    else match e
      case Var(_) => r
      case Const(_) => e
      case Call(f, args) => Call(f, SubstArgs(args, x, r))
      case If(c, t, f) => If(Subst(c, x, r), Subst(t, x, r), Subst(f, x, r))
      case Let(z, rhs, b) =>
        var (z', b') := SubstUnder(z, b, x, r);
        Let(z', Subst(rhs, x, r), b')
      case Lam(z, b) =>
        var (z', b') := SubstUnder(z, b, x, r);
        Lam(z', b')
  }

  /** The binder and body of a let or lambda binding `z` over `b`, after substituting `r` for `x`. */
  function SubstUnder(z: Name, b: Expr, x: Name, r: Expr): (Name, Expr)
    decreases Size(b), 2
  {
    if z == x || x !in FreeVars(b) then (z, b)
    else if z in FreeVars(r) then
      var z' := FreshName(z, FreeVars(r) + AllNames(b) + {x});
      (z', Subst(Rename(b, z, z'), x, r))
    else (z, Subst(b, x, r))
  }

  function SubstArgs(args: seq<Expr>, x: Name, r: Expr): (s: seq<Expr>)
    ensures |s| == |args|
    ensures forall i :: 0 <= i < |args| ==> s[i] == Subst(args[i], x, r)
    decreases SizeArgs(args), 2
  {
    if args == [] then []
    else
      var s := [Subst(args[0], x, r)] + SubstArgs(args[1..], x, r);
      assert forall i :: 1 <= i < |args| ==> args[i] == args[1..][i - 1];
      s
  }

  /** The free names after substituting `r` for `x`: `x` gives way to the free names of `r`
      and every other free name stays, so the substitution captures nothing of `r`. */
  lemma {:induction false} SubstFreeVars(e: Expr, x: Name, r: Expr)
    ensures FreeVars(Subst(e, x, r))
      == if x in FreeVars(e) then FreeVars(e) - {x} + FreeVars(r) else FreeVars(e)
    decreases Size(e), 1
  {
    if x in FreeVars(e) {
      match e
      case Var(_) =>
      case Const(_) =>
      case Call(_, args) =>
        SubstArgsFreeVars(args, x, r);
      case If(c, t, f) =>
        SubstFreeVars(c, x, r); SubstFreeVars(t, x, r); SubstFreeVars(f, x, r);
      case Let(z, rhs, b) =>
        SubstFreeVars(rhs, x, r); SubstUnderFreeVars(z, b, x, r);
      case Lam(z, b) =>
        SubstUnderFreeVars(z, b, x, r);
    }
  }

  /** Under a binder of `z`, substitution acts on the names free in the scope of `z`. */
  lemma {:induction false} SubstUnderFreeVars(z: Name, b: Expr, x: Name, r: Expr)
    ensures var zb := SubstUnder(z, b, x, r);
      FreeVars(zb.1) - {zb.0}
      == if x in FreeVars(b) - {z} then FreeVars(b) - {z} - {x} + FreeVars(r) else FreeVars(b) - {z}
    decreases Size(b), 3
  {
    if z == x || x !in FreeVars(b) {
    } else if z in FreeVars(r) {
      SubstUnderRenamedFreeVars(z, b, x, r);
    } else {
      SubstFreeVars(b, x, r);
    }
  }

  /** The case where the binder is renamed, because `r` refers to a name of the same spelling. */
  lemma {:induction false} SubstUnderRenamedFreeVars(z: Name, b: Expr, x: Name, r: Expr)
    requires z != x && x in FreeVars(b) && z in FreeVars(r)
    ensures var zb := SubstUnder(z, b, x, r);
      FreeVars(zb.1) - {zb.0} == FreeVars(b) - {z} - {x} + FreeVars(r)
    decreases Size(b), 2
  {
    var z' := FreshName(z, FreeVars(r) + AllNames(b) + {x});
    var b1 := Rename(b, z, z');
    FreeVarsInAllNames(b);
    RenameFreeVars(b, z, z');
    SubstFreeVars(b1, x, r);
    RenamedThenSubst(FreeVars(b), FreeVars(b1), FreeVars(Subst(b1, x, r)), FreeVars(r), z, z', x);
  }

  /** The set reasoning of a substitution under a binder renamed from `z` to a fresh `z'`. */
  lemma RenamedThenSubst(fb: set<Name>, fb1: set<Name>, fs: set<Name>, fr: set<Name>, z: Name, z': Name, x: Name)
    requires fb1 == Renamed(fb, z, z')
    requires z' !in fb && z' !in fr && z' != x && x != z && x in fb
    requires fs == fb1 - {x} + fr
    ensures fs - {z'} == fb - {z} - {x} + fr
  {
  }

  lemma {:induction false} SubstArgsFreeVars(args: seq<Expr>, x: Name, r: Expr)
    ensures FreeVarsArgs(SubstArgs(args, x, r))
      == if x in FreeVarsArgs(args) then FreeVarsArgs(args) - {x} + FreeVars(r) else FreeVarsArgs(args)
    decreases SizeArgs(args), 2
  {
    if args != [] {
      SubstFreeVars(args[0], x, r);
      SubstArgsFreeVars(args[1..], x, r);
      var s := SubstArgs(args, x, r);
      assert s == [Subst(args[0], x, r)] + SubstArgs(args[1..], x, r);
      SubstUnion(FreeVars(args[0]), FreeVarsArgs(args[1..]),
        FreeVars(Subst(args[0], x, r)), FreeVarsArgs(SubstArgs(args[1..], x, r)), FreeVars(r), x);
    }
  }

  /** Substitution in two parts substitutes in their union. */
  lemma SubstUnion(a: set<Name>, b: set<Name>, a': set<Name>, b': set<Name>, fr: set<Name>, x: Name)
    requires a' == if x in a then a - {x} + fr else a
    requires b' == if x in b then b - {x} + fr else b
    ensures a' + b' == if x in a + b then a + b - {x} + fr else a + b
  {
  }
}
