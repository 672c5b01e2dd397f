/**
 * Fresh names: a bound name `n` that must be renamed becomes `n_0`, `n_1`, ...,
 * the smallest suffix that is not already taken.
 */
module Names {
  function Digit(d: nat): char
    requires d < 10
  {
    "0123456789"[d]
  }

  /** Decimal notation of a natural number. */
  function NatToString(n: nat): (s: string)
    ensures |s| >= 1
  {
    if n < 10 then [Digit(n)] else NatToString(n / 10) + [Digit(n % 10)]
  }

  function Pow10(k: nat): (p: nat)
    ensures p >= 1
  {
    if k == 0 then 1 else 10 * Pow10(k - 1)
  }

  /** A number at least 10^k has more than k digits. */
  lemma {:induction false} NatToStringLong(n: nat, k: nat)
    requires Pow10(k) <= n
    ensures k < |NatToString(n)|
  {
    if k > 0 {
      var p := Pow10(k - 1);
      assert n >= 10 * p;
      assert n / 10 >= p by {
        assert n == 10 * (n / 10) + n % 10;
      }
      NatToStringLong(n / 10, k - 1);
    }
  }

  function Suffixed(base: string, k: nat): string
  {
    base + "_" + NatToString(k)
  }

  /** An upper bound on the length of the strings in a finite set. */
  ghost function MaxLen(s: set<string>): (m: nat)
    ensures forall x :: x in s ==> |x| <= m
    decreases |s|
  {
    if s == {} then 0
    else
      var x :| x in s;
      var m := MaxLen(s - {x});
      if |x| > m then |x| else m
  }

  lemma TakenSuffixIsBounded(base: string, avoid: set<string>, k: nat)
    requires Suffixed(base, k) in avoid
    ensures k < Pow10(MaxLen(avoid))
  {
    var m := MaxLen(avoid);
    assert |NatToString(k)| < m;
    if Pow10(m) <= k {
      NatToStringLong(k, m);
      assert false;
    }
  }

  /** The smallest suffix index from `k` on whose name is not in `avoid`. */
  function FreshIndex(base: string, avoid: set<string>, k: nat): (i: nat)
    ensures k <= i
    ensures Suffixed(base, i) !in avoid
    ensures forall j :: k <= j < i ==> Suffixed(base, j) in avoid
    decreases Pow10(MaxLen(avoid)) - k
  {
    if Suffixed(base, k) !in avoid then k
    else
      TakenSuffixIsBounded(base, avoid, k);
      FreshIndex(base, avoid, k + 1)
  }

  /** `base` itself when it is free to use, otherwise `base_i` for the smallest `i`
      such that `base_i` is not in `avoid`. */
  function FreshName(base: string, avoid: set<string>): (r: string)
    ensures r !in avoid
    ensures base !in avoid ==> r == base
    ensures base in avoid ==>
      exists i: nat :: r == Suffixed(base, i) && forall j :: 0 <= j < i ==> Suffixed(base, j) in avoid
  {
    if base !in avoid then base
    else
      var i := FreshIndex(base, avoid, 0);
      assert forall j :: 0 <= j < i ==> Suffixed(base, j) in avoid;
      Suffixed(base, i)
  }

  /** When `base` is taken but `base_0` is not, the fresh name is `base_0`. */
  lemma FreshNameFirstSuffix(base: string, avoid: set<string>)
    requires base in avoid && base + "_0" !in avoid
    ensures FreshName(base, avoid) == base + "_0"
  {
    assert NatToString(0) == "0";
    assert Suffixed(base, 0) == base + "_0";
  }
}
