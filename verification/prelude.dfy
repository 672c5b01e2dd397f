/**
 * Runtime prelude functions of the generated code: the index and value of a
 * vector's maximum with its forward derivative, and the matrix-vector product
 * with its reverse-mode derivative. Doubles are modelled as reals.
 */
module Prelude {

  // ---------------------------------------------------------------------------
  // Maximum

  /** `i` is the first index holding the largest element of `v`. */
  predicate IsFirstMax(v: seq<real>, i: int)
  {
    0 <= i < |v| && (forall j :: 0 <= j < |v| ==> v[j] <= v[i]) && (forall j :: 0 <= j < i ==> v[j] < v[i])
  }

  /** At most one index is the first maximum. */
  lemma FirstMaxUnique(v: seq<real>, i: int, i': int)
    requires IsFirstMax(v, i) && IsFirstMax(v, i')
    ensures i == i'
  {
    assert v[i] <= v[i'] && v[i'] <= v[i];
  }

  /** The index of the maximum of a non-empty vector: a later element replaces the
      current maximum only when strictly larger, so ties go to the earliest index. */
  method IMaximum(v: seq<real>) returns (imax: nat)
    requires |v| > 0
    ensures IsFirstMax(v, imax)
  {
    imax := 0;
    var vmax := v[imax];
    var i := 1;
    while i < |v|
      invariant 1 <= i <= |v|
      invariant imax < i && vmax == v[imax]
      invariant forall j :: 0 <= j < i ==> v[j] <= vmax
      invariant forall j :: 0 <= j < imax ==> v[j] < vmax
    {
      if v[i] > vmax {
        vmax := v[i];
        imax := i;
      }
      i := i + 1;
    }
  }

  /** The largest element of a non-empty vector. */
  method Maximum(v: seq<real>) returns (m: real)
    requires |v| > 0
    ensures m in v && forall j :: 0 <= j < |v| ==> v[j] <= m
    ensures exists i :: IsFirstMax(v, i) && m == v[i]
  {
    var i := IMaximum(v);
    m := v[i];
  }

  /** The forward derivative of `maximum`: the tangent at the index of the maximum. */
  method FwdMaximum(v: seq<real>, dv: seq<real>) returns (d: real)
    requires |v| > 0 && |dv| == |v|
    ensures exists i :: IsFirstMax(v, i) && d == dv[i]
  {
    var i := IMaximum(v);
    d := dv[i];
  }

  // ---------------------------------------------------------------------------
  // Matrix-vector product

  /** The product of two entries. */
  function Mul(x: real, y: real): real
  {
    x * y
  }

  /** The inner product of two vectors of the same length. */
  function Dot(a: seq<real>, b: seq<real>): real
    requires |a| == |b|
  {
    if a == [] then 0.0 else Dot(a[..|a| - 1], b[..|b| - 1]) + Mul(a[|a| - 1], b[|b| - 1])
  }

  /** A matrix with `r` rows of `c` entries each. */
  predicate IsMatrix(m: seq<seq<real>>, r: int, c: int)
  {
    |m| == r && forall i :: 0 <= i < |m| ==> |m[i]| == c
  }

  /** Column `k` of a matrix. */
  function Column(m: seq<seq<real>>, k: nat): (col: seq<real>)
    requires forall i :: 0 <= i < |m| ==> k < |m[i]|
    ensures |col| == |m| && forall i :: 0 <= i < |m| ==> col[i] == m[i][k]
  {
    seq(|m|, i requires 0 <= i < |m| => m[i][k])
  }

  function Scale(v: seq<real>, s: real): (w: seq<real>)
    ensures |w| == |v| && forall k :: 0 <= k < |v| ==> w[k] == Mul(v[k], s)
  {
    seq(|v|, k requires 0 <= k < |v| => Mul(v[k], s))
  }

  /** The product of a matrix and a vector: one entry per row. */
  function MatVec(m: seq<seq<real>>, v: seq<real>): (w: seq<real>)
    requires IsMatrix(m, |m|, |v|)
    ensures |w| == |m|
  {
    if m == [] then [] else MatVec(m[..|m| - 1], v) + [Dot(m[|m| - 1], v)]
  }

  /** Entry `i` of the product is row `i` against the vector. */
  lemma {:induction false} MatVecAt(m: seq<seq<real>>, v: seq<real>, i: nat)
    requires IsMatrix(m, |m|, |v|) && i < |m|
    ensures MatVec(m, v)[i] == Dot(m[i], v)
  {
    var n := |m| - 1;
    if i < n {
      MatVecAt(m[..n], v, i);
    }
  }

  /** The product of the transpose of a matrix with `c` columns and a vector. */
  function TransposeVec(m: seq<seq<real>>, c: nat, d: seq<real>): (w: seq<real>)
    requires IsMatrix(m, |d|, c)
    ensures |w| == c && forall k :: 0 <= k < c ==> w[k] == Dot(Column(m, k), d)
  {
    seq(c, k requires 0 <= k < c => Dot(Column(m, k), d))
  }

  /** `mul$Mat$Vec`: one entry per row of `m`, the row's inner product with `v`. */
  method MulMatVec(m: seq<seq<real>>, v: seq<real>) returns (ret: array<real>)
    requires IsMatrix(m, |m|, |v|)
    ensures fresh(ret)
    ensures ret[..] == MatVec(m, v)
  {
    var r := |m|;
    ret := new real[r];
    var i := 0;
    while i < r
      invariant 0 <= i <= r
      invariant ret[..i] == MatVec(m[..i], v)
    {
      ret[i] := Dot(m[i], v);
      assert m[..i + 1][..i] == m[..i];
      assert ret[..i + 1] == ret[..i] + [ret[i]];
      i := i + 1;
    }
    assert m[..r] == m && ret[..r] == ret[..];
  }

  /**
   * `rev$mul$Mat$Vec`: the gradients with respect to `m` and `v` of the product, given
   * the gradient `dr` of its result: `size(m)` rows, row `i` being `v` scaled by `dr[i]`,
   * and `size(v)` entries, entry `k` being column `k` of `m` against `dr`.
   */
  method RevMulMatVec(m: seq<seq<real>>, v: seq<real>, dr: seq<real>) returns (retM: array<seq<real>>, retv: array<real>)
    requires IsMatrix(m, |m|, |v|) && |dr| == |m|
    ensures fresh(retM) && fresh(retv)
    ensures retM.Length == |m| && forall i :: 0 <= i < |m| ==> retM[i] == Scale(v, dr[i])
    ensures retv[..] == TransposeVec(m, |v|, dr)
  {
    var r := |m|;
    var c := |v|;
    retM := new seq<real>[r];
    var i := 0;
    while i < r
      modifies retM
      invariant 0 <= i <= r
      invariant forall j :: 0 <= j < i ==> retM[j] == Scale(v, dr[j])
    {
      retM[i] := Scale(v, dr[i]);
      i := i + 1;
    }
    retv := new real[c];
    i := 0;
    while i < c
      modifies retv
      invariant 0 <= i <= c
      invariant forall k :: 0 <= k < i ==> retv[k] == Dot(Column(m, k), dr)
    {
      retv[i] := ColumnDot(m, i, dr);
      i := i + 1;
    }
  }

  /** The inner loop of `rev$mul$Mat$Vec`: column `k` of `m` against `dr`, summed row by row. */
  method ColumnDot(m: seq<seq<real>>, k: nat, dr: seq<real>) returns (s: real)
    requires |dr| == |m| && forall i :: 0 <= i < |m| ==> k < |m[i]|
    ensures s == Dot(Column(m, k), dr)
  {
    var col := Column(m, k);
    s := 0.0;
    var j := 0;
    while j < |m|
      invariant 0 <= j <= |m|
      invariant s == Dot(col[..j], dr[..j])
    {
      assert col[..j + 1][..j] == col[..j];
      assert dr[..j + 1][..j] == dr[..j];
      s := s + Mul(m[j][k], dr[j]);
      j := j + 1;
    }
    assert col[..j] == col && dr[..j] == dr;
  }

  // ---------------------------------------------------------------------------
  // The reverse product is the adjoint of the forward one

  /** The pointwise sum of two vectors. */
  function Plus(a: seq<real>, b: seq<real>): (w: seq<real>)
    requires |a| == |b|
    ensures |w| == |a| && forall k :: 0 <= k < |a| ==> w[k] == a[k] + b[k]
  {
    seq(|a|, k requires 0 <= k < |a| => a[k] + b[k])
  }

  /** The inner product is additive in its first argument. */
  lemma {:induction false} DotAdd(a: seq<real>, b: seq<real>, v: seq<real>)
    requires |a| == |b| == |v|
    ensures Dot(Plus(a, b), v) == Dot(a, v) + Dot(b, v)
  {
    if a != [] {
      var n := |a| - 1;
      var w := Plus(a, b);
      assert w[..n] == Plus(a[..n], b[..n]) by {
        forall k | 0 <= k < n ensures w[..n][k] == Plus(a[..n], b[..n])[k] { }
      }
      DotAdd(a[..n], b[..n], v[..n]);
      assert Mul(w[n], v[n]) == Mul(a[n], v[n]) + Mul(b[n], v[n]);
    }
  }

  /** The inner product scales with its first argument. */
  lemma {:induction false} DotScale(a: seq<real>, s: real, v: seq<real>)
    requires |a| == |v|
    ensures Dot(Scale(a, s), v) == Mul(s, Dot(a, v))
  {
    if a != [] {
      var n := |a| - 1;
      var w := Scale(a, s);
      assert w[..n] == Scale(a[..n], s) by {
        forall k | 0 <= k < n ensures w[..n][k] == Scale(a[..n], s)[k] { }
      }
      DotScale(a[..n], s, v[..n]);
      assert Mul(w[n], v[n]) == Mul(s, Mul(a[n], v[n]));
      assert Mul(s, Dot(a, v)) == Mul(s, Dot(a[..n], v[..n])) + Mul(s, Mul(a[n], v[n]));
    }
  }

  /** The inner product is symmetric. */
  lemma {:induction false} DotSymmetric(a: seq<real>, b: seq<real>)
    requires |a| == |b|
    ensures Dot(a, b) == Dot(b, a)
  {
    if a != [] {
      DotSymmetric(a[..|a| - 1], b[..|b| - 1]);
    }
  }

  lemma {:induction false} ZeroDot(a: seq<real>, v: seq<real>)
    requires |a| == |v| && forall k :: 0 <= k < |a| ==> a[k] == 0.0
    ensures Dot(a, v) == 0.0
  {
    if a != [] {
      ZeroDot(a[..|a| - 1], v[..|v| - 1]);
    }
  }

  /** Adding a last row `m[n]` weighted by `dr[n]` to the transposed product. */
  lemma TransposeVecLastRow(m: seq<seq<real>>, c: nat, dr: seq<real>)
    requires IsMatrix(m, |dr|, c) && |m| > 0
    ensures TransposeVec(m, c, dr) ==
      Plus(TransposeVec(m[..|m| - 1], c, dr[..|dr| - 1]), Scale(m[|m| - 1], dr[|dr| - 1]))
  {
    var n := |m| - 1;
    var t := TransposeVec(m, c, dr);
    var a := TransposeVec(m[..n], c, dr[..n]);
    var b := Scale(m[n], dr[n]);
    forall k | 0 <= k < c ensures t[k] == a[k] + b[k] {
      assert Column(m, k)[..n] == Column(m[..n], k);
    }
  }

  /** The inner product of `a` and `w` is that of their prefixes plus the product of their
      last entries. */
  lemma DotSplit(a: seq<real>, w: seq<real>, n: nat, w': seq<real>, y: real)
    requires |a| == |w| == n + 1 && w[..n] == w' && w[n] == y
    ensures Dot(a, w) == Dot(a[..n], w') + Mul(a[n], y)
  {
  }

  /** Dropping the last row of `m` and of `dr` drops the last term of `dr . (m v)`. */
  lemma MatVecLastRow(m: seq<seq<real>>, v: seq<real>, dr: seq<real>, n: nat)
    requires IsMatrix(m, |m|, |v|) && |dr| == |m| == n + 1
    ensures Dot(dr, MatVec(m, v)) == Dot(dr[..n], MatVec(m[..n], v)) + Mul(dr[n], Dot(m[n], v))
  {
    var w := MatVec(m, v);
    assert w[..n] == MatVec(m[..n], v);
    DotSplit(dr, w, n, MatVec(m[..n], v), Dot(m[n], v));
  }

  /**
   * The gradient with respect to `v` is the adjoint of the product: for every `v` and
   * `dr`, `dr . (m v) == (mᵀ dr) . v`.
   */
  lemma {:induction false} RevMulMatVecAdjoint(m: seq<seq<real>>, v: seq<real>, dr: seq<real>)
    requires IsMatrix(m, |m|, |v|) && |dr| == |m|
    ensures Dot(dr, MatVec(m, v)) == Dot(TransposeVec(m, |v|, dr), v)
  {
    if m == [] {
      ZeroDot(TransposeVec(m, |v|, dr), v);
    } else {
      var n := |m| - 1;
      RevMulMatVecAdjoint(m[..n], v, dr[..n]);
      MatVecLastRow(m, v, dr, n);
      TransposeVecLastRow(m, |v|, dr);
      DotAdd(TransposeVec(m[..n], |v|, dr[..n]), Scale(m[n], dr[n]), v);
      DotScale(m[n], dr[n], v);
    }
  }

  /** The inner product of two matrices of the same shape, row by row. */
  function MatDot(a: seq<seq<real>>, b: seq<seq<real>>): real
    requires |a| == |b| && forall i :: 0 <= i < |a| ==> |a[i]| == |b[i]|
  {
    if a == [] then 0.0 else MatDot(a[..|a| - 1], b[..|b| - 1]) + Dot(a[|a| - 1], b[|b| - 1])
  }

  /** The outer product of `dr` and `v`: row `i` is `v` scaled by `dr[i]`. */
  function Outer(dr: seq<real>, v: seq<real>): (o: seq<seq<real>>)
    ensures IsMatrix(o, |dr|, |v|) && forall i :: 0 <= i < |dr| ==> o[i] == Scale(v, dr[i])
  {
    seq(|dr|, i requires 0 <= i < |dr| => Scale(v, dr[i]))
  }

  /**
   * The gradient with respect to `m` is the adjoint of the product in `m`: for every
   * direction `dm`, `dr . (dm v) == dm . (dr ⊗ v)`.
   */
  lemma {:induction false} RevMulMatAdjoint(dm: seq<seq<real>>, v: seq<real>, dr: seq<real>)
    requires IsMatrix(dm, |dm|, |v|) && |dr| == |dm|
    ensures Dot(dr, MatVec(dm, v)) == MatDot(dm, Outer(dr, v))
  {
    if dm != [] {
      var n := |dm| - 1;
      RevMulMatAdjoint(dm[..n], v, dr[..n]);
      assert MatVec(dm, v)[..n] == MatVec(dm[..n], v);
      assert Outer(dr, v)[..n] == Outer(dr[..n], v);
      DotScale(v, dr[n], dm[n]);
      DotSymmetric(Scale(v, dr[n]), dm[n]);
      DotSymmetric(v, dm[n]);
    }
  }
}
