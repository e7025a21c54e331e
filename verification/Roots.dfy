/** A non-zero polynomial of m coefficients over a prime field has at most m - 1 roots. */
module Roots {
  import opened PrimeField
  import opened Vectors
  import opened SparseMatrix

  function Eval(d: seq<int>, x: int): int {
    if |d| == 0 then 0 else d[0] + x * Eval(d[1..], x)
  }

  /** Quotient of d by X - r. */
  function Quotient(d: seq<int>, r: int): (q: seq<int>)
    ensures |q| == if |d| == 0 then 0 else |d| - 1
  {
    if |d| <= 1 then [] else [Eval(d[1..], r)] + Quotient(d[1..], r)
  }

  lemma {:induction false} DivideByRoot(d: seq<int>, x: int, r: int)
    ensures Eval(d, x) - Eval(d, r) == (x - r) * Eval(Quotient(d, r), x)
  {
    if |d| > 1 {
      DivideByRoot(d[1..], x, r);
      var q := Quotient(d[1..], r);
      assert Quotient(d, r)[1..] == q;
      DivideStep(d[0], x, r, Eval(d[1..], x), Eval(d[1..], r), Eval(q, x));
    } else if |d| == 1 {
      assert d[1..] == [];
      assert x * Eval(d[1..], x) == 0 && r * Eval(d[1..], r) == 0;
    }
  }

  lemma DivideStep(c: int, x: int, r: int, ex: int, er: int, q: int)
    requires ex - er == (x - r) * q
    ensures (c + x * ex) - (c + r * er) == (x - r) * (er + x * q)
  {
    assert x * (ex - er) == (x - r) * (x * q);
    assert x * ex - r * er == x * (ex - er) + (x - r) * er;
  }

  ghost predicate AllZero(d: seq<int>, p: Modulus) {
    forall i :: 0 <= i < |d| ==> Cong(d[i], 0, p)
  }

  lemma {:induction false} ZeroQuotient(d: seq<int>, r: int, p: Modulus)
    requires AllZero(Quotient(d, r), p) && Cong(Eval(d, r), 0, p)
    ensures AllZero(d, p)
  {
    hide Mod;
    if |d| > 1 {
      var q := Quotient(d, r);
      var e := Eval(d[1..], r);
      assert q[0] == e && q[1..] == Quotient(d[1..], r);
      ZeroQuotient(d[1..], r, p);
      assert d == [d[0]] + d[1..];
      CongScale(r, e, 0, p);
      CongSub(d[0] + r * e, 0, r * e, r * 0, p);
    } else if |d| == 1 {
      assert Eval(d[1..], r) == 0;
      assert r * Eval(d[1..], r) == 0;
    }
  }

  ghost predicate Root(d: seq<int>, x: int, p: Modulus) {
    Canonical(x, p) && Cong(Eval(d, x), 0, p)
  }

  lemma OtherRoot(d: seq<int>, x: int, r: int, p: Modulus)
    requires Prime(p) && Root(d, x, p) && Root(d, r, p) && x != r
    ensures Root(Quotient(d, r), x, p)
  {
    DivideByRoot(d, x, r);
    CongSub(Eval(d, x), 0, Eval(d, r), 0, p);
    NoZeroDivisors(x - r, Eval(Quotient(d, r), x), p);
    if Cong(x - r, 0, p) {
      CongAdd(x - r, 0, r, r, p);
      CongCanonicalEqual(x, r, p);
    }
  }

  predicate Distinct(xs: seq<int>) {
    forall i, j :: 0 <= i < j < |xs| ==> xs[i] != xs[j]
  }

  /** Any list of pairwise distinct roots is shorter than the list of coefficients. */
  lemma {:induction false} RootBound(d: seq<int>, roots: seq<int>, p: Modulus)
    requires Prime(p) && !AllZero(d, p) && Distinct(roots)
    requires forall i :: 0 <= i < |roots| ==> Root(d, roots[i], p)
    ensures |roots| < |d|
    decreases |d|
  {
    if |roots| == 0 {
    } else {
      var r := roots[0];
      var q := Quotient(d, r);
      if AllZero(q, p) {
        ZeroQuotient(d, r, p);
      }
      forall i | 0 <= i < |roots[1..]| ensures Root(q, roots[1..][i], p) {
        OtherRoot(d, roots[i + 1], r, p);
      }
      RootBound(q, roots[1..], p);
    }
  }

  lemma {:induction false} EvalMinus(f: seq<int>, g: seq<int>, x: int)
    requires |f| == |g|
    ensures Eval(Lin(1, f, -1, g), x) == Eval(f, x) - Eval(g, x)
  {
    if |f| == 0 {
    } else {
      EvalMinus(f[1..], g[1..], x);
      assert Lin(1, f, -1, g)[1..] == Lin(1, f[1..], -1, g[1..]);
      MinusStep(x, Eval(f[1..], x), Eval(g[1..], x));
    }
  }

  lemma MinusStep(x: int, a: int, b: int)
    ensures x * (a - b) == x * a - x * b
  {
  }

  lemma {:induction false} EvalSnoc(d: seq<int>, c: int, x: int)
    ensures Eval(d + [c], x) == Eval(d, x) + Pow(x, |d|) * c
  {
    if |d| == 0 {
      assert ([] + [c])[1..] == [];
      assert x * Eval([], x) == 0;
    } else {
      EvalSnoc(d[1..], c, x);
      assert (d + [c])[1..] == d[1..] + [c];
      SnocStep(x, Eval(d[1..], x), Pow(x, |d| - 1), c);
    }
  }

  lemma SnocStep(x: int, e: int, w: int, c: int)
    ensures x * (e + w * c) == x * e + (w * x) * c
  {
  }

  /** The inner product with the powers of x is the polynomial's value at x. */
  lemma {:induction false} PowersDot(d: seq<int>, x: int, p: Modulus)
    ensures Cong(Dot(Powers(x, |d|, p), d), Eval(d, x), p)
  {
    if |d| == 0 {
    } else {
      var n := |d| - 1;
      PowersDot(d[..n], x, p);
      assert Powers(x, |d|, p)[..n] == Powers(x, n, p) && d == d[..n] + [d[n]];
      EvalSnoc(d[..n], d[n], x);
      PowersStep(Dot(Powers(x, n, p), d[..n]), Eval(d[..n], x), Pow(x, n), d[n], p);
    }
  }

  lemma PowersStep(a: int, b: int, w: int, c: int, p: Modulus)
    requires Cong(a, b, p)
    ensures Cong(a + Mod(w, p) * c, b + w * c, p)
  {
    hide Mod;
    ModCong(w, p);
    CongMul(Mod(w, p), w, c, c, p);
    CongAdd(a, b, Mod(w, p) * c, w * c, p);
  }
}
