/**
 * Alpha-equivalence: two expressions are equal up to a consistent renaming of
 * their bound names. Bound occurrences are compared by the position of their
 * binder in the enclosing binder context (innermost first), free ones by name.
 */
module Alpha {
  import opened Wrappers
  import opened Syntax
  import opened Substitution

  /** Position of the innermost binder of `x` in a context listed innermost first. */
  function IndexOf(ctx: seq<Name>, x: Name): Option<nat>
  {
    if ctx == [] then None
    else if ctx[0] == x then Some(0)
    else match IndexOf(ctx[1..], x)
      case None => None
      case Some(k) => Some(k + 1)
  }

  function Shift(o: Option<nat>): Option<nat>
  {
    match o
    case None => None
    case Some(k) => Some(k + 1)
  }

  lemma IndexOfCons(x: Name, ctx: seq<Name>, z: Name)
    ensures IndexOf([x] + ctx, z) == if z == x then Some(0) else Shift(IndexOf(ctx, z))
  {
    assert ([x] + ctx)[1..] == ctx;
  }

  lemma {:induction false} IndexOfNone(ctx: seq<Name>, z: Name)
    ensures IndexOf(ctx, z).None? <==> z !in ctx
  {
    if ctx != [] {
      IndexOfNone(ctx[1..], z);
      assert ctx == [ctx[0]] + ctx[1..];
    }
  }

  predicate AlphaEqIn(e1: Expr, e2: Expr, c1: seq<Name>, c2: seq<Name>)
    decreases e1
  {
    match e1
    case Var(a) =>
      e2.Var? && IndexOf(c1, a) == IndexOf(c2, e2.name) && (IndexOf(c1, a).None? ==> a == e2.name)
    case Const(l) => e2 == Const(l)
    case Call(f, as1) => e2.Call? && e2.fn == f && AlphaEqArgs(as1, e2.args, c1, c2)
    case If(c, t, f) =>
      e2.If? && AlphaEqIn(c, e2.cond, c1, c2) && AlphaEqIn(t, e2.thenBr, c1, c2)
      && AlphaEqIn(f, e2.elseBr, c1, c2)
    case Let(x, r, b) =>
      e2.Let? && AlphaEqIn(r, e2.rhs, c1, c2) && AlphaEqIn(b, e2.body, [x] + c1, [e2.v] + c2)
    case Lam(x, b) =>
      e2.Lam? && AlphaEqIn(b, e2.body, [x] + c1, [e2.param] + c2)
  }

  predicate AlphaEqArgs(as1: seq<Expr>, as2: seq<Expr>, c1: seq<Name>, c2: seq<Name>)
    decreases as1
  {
    |as1| == |as2| && (as1 == [] || (AlphaEqIn(as1[0], as2[0], c1, c2) && AlphaEqArgs(as1[1..], as2[1..], c1, c2)))
  }

  /** Equal up to the names of bound variables. */
  predicate AlphaEq(e1: Expr, e2: Expr)
  {
    AlphaEqIn(e1, e2, [], [])
  }

  lemma {:induction false} AlphaEqArgsPointwise(as1: seq<Expr>, as2: seq<Expr>, c1: seq<Name>, c2: seq<Name>)
    ensures AlphaEqArgs(as1, as2, c1, c2) <==>
      |as1| == |as2| && forall i :: 0 <= i < |as1| ==> AlphaEqIn(as1[i], as2[i], c1, c2)
    decreases as1
  {
    if as1 != [] && |as1| == |as2| {
      AlphaEqArgsPointwise(as1[1..], as2[1..], c1, c2);
      assert forall i :: 1 <= i < |as1| ==> as1[i] == as1[1..][i - 1] && as2[i] == as2[1..][i - 1];
    }
  }

  /** Contexts that place every name of `e` at the same position make `e` equivalent to itself. */
  lemma {:induction false} AlphaEqInRefl(e: Expr, c1: seq<Name>, c2: seq<Name>)
    requires forall z :: z in AllNames(e) ==> IndexOf(c1, z) == IndexOf(c2, z)
    ensures AlphaEqIn(e, e, c1, c2)
    decreases e
  {
    match e
    case Var(_) =>
    case Const(_) =>
    case Call(_, args) =>
      forall i | 0 <= i < |args| ensures AlphaEqIn(args[i], args[i], c1, c2) {
        AlphaEqInRefl(args[i], c1, c2);
      }
      AlphaEqArgsPointwise(args, args, c1, c2);
    case If(c, t, f) =>
      AlphaEqInRefl(c, c1, c2); AlphaEqInRefl(t, c1, c2); AlphaEqInRefl(f, c1, c2);
    case Let(x, r, b) =>
      AlphaEqInRefl(r, c1, c2);
      forall z | z in AllNames(b) ensures IndexOf([x] + c1, z) == IndexOf([x] + c2, z) {
        IndexOfCons(x, c1, z); IndexOfCons(x, c2, z);
      }
      AlphaEqInRefl(b, [x] + c1, [x] + c2);
    case Lam(x, b) =>
      forall z | z in AllNames(b) ensures IndexOf([x] + c1, z) == IndexOf([x] + c2, z) {
        IndexOfCons(x, c1, z); IndexOfCons(x, c2, z);
      }
      AlphaEqInRefl(b, [x] + c1, [x] + c2);
  }

  lemma AlphaEqRefl(e: Expr)
    ensures AlphaEq(e, e)
  {
    AlphaEqInRefl(e, [], []);
  }

  lemma {:induction false} AlphaEqInSymm(e1: Expr, e2: Expr, c1: seq<Name>, c2: seq<Name>)
    requires AlphaEqIn(e1, e2, c1, c2)
    ensures AlphaEqIn(e2, e1, c2, c1)
    decreases e1
  {
    match e1
    case Var(_) =>
    case Const(_) =>
    case Call(_, as1) =>
      var as2 := e2.args;
      AlphaEqArgsPointwise(as1, as2, c1, c2);
      AlphaEqArgsPointwise(as2, as1, c2, c1);
      forall i | 0 <= i < |as1| ensures AlphaEqIn(as2[i], as1[i], c2, c1) {
        AlphaEqInSymm(as1[i], as2[i], c1, c2);
      }
    case If(c, t, f) =>
      AlphaEqInSymm(c, e2.cond, c1, c2);
      AlphaEqInSymm(t, e2.thenBr, c1, c2);
      AlphaEqInSymm(f, e2.elseBr, c1, c2);
    case Let(x, r, b) =>
      AlphaEqInSymm(r, e2.rhs, c1, c2);
      AlphaEqInSymm(b, e2.body, [x] + c1, [e2.v] + c2);
    case Lam(x, b) =>
      AlphaEqInSymm(b, e2.body, [x] + c1, [e2.param] + c2);
  }

  lemma AlphaEqSymm(e1: Expr, e2: Expr)
    requires AlphaEq(e1, e2)
    ensures AlphaEq(e2, e1)
  {
    AlphaEqInSymm(e1, e2, [], []);
  }

  lemma {:induction false} AlphaEqInTrans(e1: Expr, e2: Expr, e3: Expr, c1: seq<Name>, c2: seq<Name>, c3: seq<Name>)
    requires AlphaEqIn(e1, e2, c1, c2) && AlphaEqIn(e2, e3, c2, c3)
    ensures AlphaEqIn(e1, e3, c1, c3)
    decreases e1
  {
    match e1
    case Var(_) =>
    case Const(_) =>
    case Call(_, as1) =>
      var as2, as3 := e2.args, e3.args;
      AlphaEqArgsPointwise(as1, as2, c1, c2);
      AlphaEqArgsPointwise(as2, as3, c2, c3);
      AlphaEqArgsPointwise(as1, as3, c1, c3);
      forall i | 0 <= i < |as1| ensures AlphaEqIn(as1[i], as3[i], c1, c3) {
        AlphaEqInTrans(as1[i], as2[i], as3[i], c1, c2, c3);
      }
    case If(c, t, f) =>
      AlphaEqInTrans(c, e2.cond, e3.cond, c1, c2, c3);
      AlphaEqInTrans(t, e2.thenBr, e3.thenBr, c1, c2, c3);
      AlphaEqInTrans(f, e2.elseBr, e3.elseBr, c1, c2, c3);
    case Let(x, r, b) =>
      AlphaEqInTrans(r, e2.rhs, e3.rhs, c1, c2, c3);
      AlphaEqInTrans(b, e2.body, e3.body, [x] + c1, [e2.v] + c2, [e3.v] + c3);
    case Lam(x, b) =>
      AlphaEqInTrans(b, e2.body, e3.body, [x] + c1, [e2.param] + c2, [e3.param] + c3);
  }

  lemma AlphaEqTrans(e1: Expr, e2: Expr, e3: Expr)
    requires AlphaEq(e1, e2) && AlphaEq(e2, e3)
    ensures AlphaEq(e1, e3)
  {
    AlphaEqInTrans(e1, e2, e3, [], [], []);
  }

  function Elems(c: seq<Name>): set<Name>
  {
    set z | z in c
  }

  /** Alpha-equivalent expressions have the same free variables outside their contexts. */
  lemma {:induction false} AlphaEqInFreeVars(e1: Expr, e2: Expr, c1: seq<Name>, c2: seq<Name>)
    requires AlphaEqIn(e1, e2, c1, c2)
    ensures FreeVars(e1) - Elems(c1) == FreeVars(e2) - Elems(c2)
    decreases e1
  {
    match e1
    case Var(a) =>
      IndexOfNone(c1, a);
      IndexOfNone(c2, e2.name);
    case Const(_) =>
    case Call(_, as1) =>
      AlphaEqArgsFreeVars(as1, e2.args, c1, c2);
    case If(c, t, f) =>
      AlphaEqInFreeVars(c, e2.cond, c1, c2);
      AlphaEqInFreeVars(t, e2.thenBr, c1, c2);
      AlphaEqInFreeVars(f, e2.elseBr, c1, c2);
      assert FreeVars(e1) - Elems(c1) == (FreeVars(c) - Elems(c1)) + (FreeVars(t) - Elems(c1)) + (FreeVars(f) - Elems(c1));
      assert FreeVars(e2) - Elems(c2) == (FreeVars(e2.cond) - Elems(c2)) + (FreeVars(e2.thenBr) - Elems(c2)) + (FreeVars(e2.elseBr) - Elems(c2));
    case Let(x, r, b) =>
      AlphaEqInFreeVars(r, e2.rhs, c1, c2);
      AlphaEqInFreeVars(b, e2.body, [x] + c1, [e2.v] + c2);
      assert Elems([x] + c1) == {x} + Elems(c1);
      assert Elems([e2.v] + c2) == {e2.v} + Elems(c2);
      assert FreeVars(e1) - Elems(c1) == (FreeVars(r) - Elems(c1)) + (FreeVars(b) - Elems([x] + c1));
      assert FreeVars(e2) - Elems(c2) == (FreeVars(e2.rhs) - Elems(c2)) + (FreeVars(e2.body) - Elems([e2.v] + c2));
    case Lam(x, b) =>
      AlphaEqInFreeVars(b, e2.body, [x] + c1, [e2.param] + c2);
      assert Elems([x] + c1) == {x} + Elems(c1);
      assert Elems([e2.param] + c2) == {e2.param} + Elems(c2);
      assert FreeVars(e1) - Elems(c1) == FreeVars(b) - Elems([x] + c1);
      assert FreeVars(e2) - Elems(c2) == FreeVars(e2.body) - Elems([e2.param] + c2);
  }

  lemma {:induction false} AlphaEqArgsFreeVars(as1: seq<Expr>, as2: seq<Expr>, c1: seq<Name>, c2: seq<Name>)
    requires AlphaEqArgs(as1, as2, c1, c2)
    ensures FreeVarsArgs(as1) - Elems(c1) == FreeVarsArgs(as2) - Elems(c2)
    decreases as1
  {
    if as1 != [] {
      AlphaEqInFreeVars(as1[0], as2[0], c1, c2);
      AlphaEqArgsFreeVars(as1[1..], as2[1..], c1, c2);
      assert FreeVarsArgs(as1) == FreeVars(as1[0]) + FreeVarsArgs(as1[1..]);
      assert FreeVarsArgs(as2) == FreeVars(as2[0]) + FreeVarsArgs(as2[1..]);
      assert FreeVarsArgs(as1) - Elems(c1) == (FreeVars(as1[0]) - Elems(c1)) + (FreeVarsArgs(as1[1..]) - Elems(c1));
      assert FreeVarsArgs(as2) - Elems(c2) == (FreeVars(as2[0]) - Elems(c2)) + (FreeVarsArgs(as2[1..]) - Elems(c2));
    }
  }

  /** Alpha-equivalent expressions have the same free variables. */
  lemma AlphaEqFreeVars(e1: Expr, e2: Expr)
    requires AlphaEq(e1, e2)
    ensures FreeVars(e1) == FreeVars(e2)
  {
    var empty: seq<Name> := [];
    AlphaEqInFreeVars(e1, e2, empty, empty);
    assert Elems(empty) == {};
    assert FreeVars(e1) - Elems(empty) == FreeVars(e1);
    assert FreeVars(e2) - Elems(empty) == FreeVars(e2);
  }

  lemma {:induction false} RenameAlphaIn(e: Expr, x: Name, y: Name, c1: seq<Name>, c2: seq<Name>)
    requires y !in AllNames(e)
    requires IndexOf(c1, x).Some? && IndexOf(c1, x) == IndexOf(c2, y)
    requires forall z :: z in AllNames(e) && z != x ==> IndexOf(c1, z) == IndexOf(c2, z)
    ensures AlphaEqIn(e, Rename(e, x, y), c1, c2)
    decreases e
  {
    match e
    case Var(_) =>
    case Const(_) =>
    case Call(_, args) =>
      var args' := RenameArgs(args, x, y);
      forall i | 0 <= i < |args| ensures AlphaEqIn(args[i], args'[i], c1, c2) {
        RenameAlphaIn(args[i], x, y, c1, c2);
      }
      AlphaEqArgsPointwise(args, args', c1, c2);
    case If(c, t, f) =>
      RenameAlphaIn(c, x, y, c1, c2); RenameAlphaIn(t, x, y, c1, c2); RenameAlphaIn(f, x, y, c1, c2);
    case Let(w, r, b) =>
      RenameAlphaIn(r, x, y, c1, c2);
      forall z | z in AllNames(b) ensures IndexOf([w] + c1, z) == IndexOf([w] + c2, z) || z == x {
        IndexOfCons(w, c1, z); IndexOfCons(w, c2, z);
      }
      if w == x {
        forall z | z in AllNames(b) ensures IndexOf([w] + c1, z) == IndexOf([w] + c2, z) {
          IndexOfCons(w, c1, z); IndexOfCons(w, c2, z);
        }
        AlphaEqInRefl(b, [w] + c1, [w] + c2);
      } else {
        IndexOfCons(w, c1, x); IndexOfCons(w, c2, y);
        RenameAlphaIn(b, x, y, [w] + c1, [w] + c2);
      }
    case Lam(w, b) =>
      forall z | z in AllNames(b) ensures IndexOf([w] + c1, z) == IndexOf([w] + c2, z) || z == x {
        IndexOfCons(w, c1, z); IndexOfCons(w, c2, z);
      }
      if w == x {
        forall z | z in AllNames(b) ensures IndexOf([w] + c1, z) == IndexOf([w] + c2, z) {
          IndexOfCons(w, c1, z); IndexOfCons(w, c2, z);
        }
        AlphaEqInRefl(b, [w] + c1, [w] + c2);
      } else {
        IndexOfCons(w, c1, x); IndexOfCons(w, c2, y);
        RenameAlphaIn(b, x, y, [w] + c1, [w] + c2);
      }
  }

  /** Renaming a bound variable to a name that does not occur in its scope gives an
      alpha-equivalent binding. */
  lemma RenameBinderAlpha(x: Name, y: Name, r: Expr, b: Expr)
    requires y !in AllNames(b)
    ensures AlphaEq(Let(x, r, b), Let(y, r, Rename(b, x, y)))
    ensures AlphaEq(Lam(x, b), Lam(y, Rename(b, x, y)))
  {
    var empty: seq<Name> := [];
    AlphaEqInRefl(r, empty, empty);
    IndexOfCons(x, empty, x);
    IndexOfCons(y, empty, y);
    forall z | z in AllNames(b) && z != x ensures IndexOf([x] + empty, z) == IndexOf([y] + empty, z) {
      IndexOfCons(x, empty, z); IndexOfCons(y, empty, z);
    }
    RenameAlphaIn(b, x, y, [x] + empty, [y] + empty);
  }
}
