/**
 * Shorthand for writing small expression trees in the examples.
 */
module ExampleTrees {
  import opened Syntax

  function V(x: Name): Expr { Var(x) }
  function I(n: int): Expr { Const(IntLit(n)) }
  function R(r: real): Expr { Const(FloatLit(r)) }

  function Add(a: Expr, b: Expr): Expr { Call("add", [a, b]) }
  function Mul(a: Expr, b: Expr): Expr { Call("mul", [a, b]) }
  function Gt(a: Expr, b: Expr): Expr { Call("gt", [a, b]) }
  function Index(i: Expr, v: Expr): Expr { Call("index", [i, v]) }
}
