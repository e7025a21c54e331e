/** Univariate polynomials of the sum-check: interpolation, evaluation, and leaving out the linear term. */
module UniPoly {
  import opened PrimeField
  import opened Vectors
  import opened Roots

  /** Coefficients [d, c, b, a] of a x^3 + b x^2 + c x + d. */
  type Poly = seq<int>

  /** The inverse of a small constant in the field. */
  function SmallInv(x: nat, p: Modulus): (y: int)
    requires Prime(p) && Mod(x, p) != 0
    ensures Canonical(y, p)
  {
    Inv(Mod(x, p), p)
  }

  /** The cubic with values e0, e1, e2, e3 at 0, 1, 2, 3. */
  function FromEvals(e0: int, e1: int, e2: int, e3: int, p: Modulus): (f: Poly)
    requires Prime(p) && p > 3
    ensures |f| == 4 && CanonicalV(f, p)
  {
    TwoSix(p);
    var twoInv, sixInv := SmallInv(2, p), SmallInv(6, p);
    var d := Mod(e0, p);
    var a := Mod(sixInv * (e3 - e2 - e2 - e2 + e1 + e1 + e1 - e0), p);
    var b := Mod(twoInv * (e0 + e0 - e1 - e1 - e1 - e1 - e1 + e2 + e2 + e2 + e2 - e3), p);
    var c := Mod(e1 - d - a - b, p);
    [d, c, b, a]
  }

  lemma TwoSix(p: Modulus)
    requires Prime(p) && p > 3
    ensures Mod(2, p) != 0 && Mod(6, p) != 0
  {
    assert Mod(0, p) == 0 && Mod(2, p) == 2 && Mod(3, p) == 3;
    if Mod(6, p) == 0 {
      NoZeroDivisors(2, 3, p);
    }
  }

  lemma SmallInvCancels(x: nat, p: Modulus)
    requires Prime(p) && Mod(x, p) != 0
    ensures Cong(x * SmallInv(x, p), 1, p)
  {
    hide Mod, Inv;
    var y := SmallInv(x, p);
    ModCong(x, p);
    CongMul(Mod(x, p), x, y, y, p);
  }

  /** The coefficients, cleared of denominators. */
  lemma FromEvalsCoefficients(e0: int, e1: int, e2: int, e3: int, p: Modulus)
    requires Prime(p) && p > 3
    ensures var f := FromEvals(e0, e1, e2, e3, p);
      Cong(f[0], e0, p) && Cong(f[1], e1 - f[0] - f[3] - f[2], p) &&
      Cong(6 * f[3], e3 - 3 * e2 + 3 * e1 - e0, p) && Cong(2 * f[2], 2 * e0 - 5 * e1 + 4 * e2 - e3, p)
  {
    hide Mod, SmallInv;
    TwoSix(p);
    var f := FromEvals(e0, e1, e2, e3, p);
    ModCong(e0, p);
    ModCong(e1 - f[0] - f[3] - f[2], p);
    ClearInv(6, e3 - e2 - e2 - e2 + e1 + e1 + e1 - e0, e3 - 3 * e2 + 3 * e1 - e0, p);
    ClearInv(2, e0 + e0 - e1 - e1 - e1 - e1 - e1 + e2 + e2 + e2 + e2 - e3, 2 * e0 - 5 * e1 + 4 * e2 - e3, p);
  }

  lemma ClearInv(x: nat, y: int, y': int, p: Modulus)
    requires Prime(p) && Mod(x, p) != 0 && y == y'
    ensures Cong(x * Mod(SmallInv(x, p) * y, p), y', p)
  {
    hide Mod, SmallInv;
    var i := SmallInv(x, p);
    SmallInvCancels(x, p);
    ModCong(i * y, p);
    CongScale(x, Mod(i * y, p), i * y, p);
    CongMul(x * i, 1, y, y, p);
    assert (x * i) * y == x * (i * y);
    CongTo(x * Mod(i * y, p), 1 * y, y', p);
  }

  lemma EvalCubic(f: Poly, x: int)
    requires |f| == 4
    ensures Eval(f, x) == f[0] + x * (f[1] + x * (f[2] + x * f[3]))
  {
    assert f[1..][1..] == f[2..] && f[2..][1..] == f[3..] && f[3..][1..] == [];
    assert Eval(f[3..], x) == f[3] by {
      assert Eval([], x) == 0 && x * 0 == 0;
    }
    assert Eval(f[2..], x) == f[2] + x * f[3];
    assert Eval(f[1..], x) == f[1] + x * (f[2] + x * f[3]);
  }

  /** Interpolation recovers the coefficients of any cubic from its values at 0, 1, 2 and 3. */
  lemma FromEvalsRecovers(g: Poly, e0: int, e1: int, e2: int, e3: int, p: Modulus)
    requires Prime(p) && p > 3 && |g| == 4
    requires Cong(e0, Eval(g, 0), p) && Cong(e1, Eval(g, 1), p) && Cong(e2, Eval(g, 2), p) && Cong(e3, Eval(g, 3), p)
    ensures CongV(FromEvals(e0, e1, e2, e3, p), g, p)
  {
    hide Mod, Eval, FromEvals, SmallInv;
    var f := FromEvals(e0, e1, e2, e3, p);
    FromEvalsCoefficients(e0, e1, e2, e3, p);
    TwoSix(p);
    EvalCubic(g, 0);
    EvalCubic(g, 1);
    EvalCubic(g, 2);
    EvalCubic(g, 3);
    var v0, v1, v2, v3 := g[0], g[0] + g[1] + g[2] + g[3], g[0] + 2 * g[1] + 4 * g[2] + 8 * g[3],
                          g[0] + 3 * g[1] + 9 * g[2] + 27 * g[3];
    ThirdDifference(e0, e1, e2, e3, v0, v1, v2, v3, p);
    assert v3 - 3 * v2 + 3 * v1 - v0 == 6 * g[3] && 2 * v0 - 5 * v1 + 4 * v2 - v3 == 2 * g[2];
    CancelConstant(6, f[3], g[3], p);
    CancelConstant(2, f[2], g[2], p);
    CongSub(e1, v1, f[0], g[0], p);
    CongSub(e1 - f[0], v1 - g[0], f[3], g[3], p);
    CongSub(e1 - f[0] - f[3], v1 - g[0] - g[3], f[2], g[2], p);
    CongTo(f[1], v1 - g[0] - g[3] - g[2], g[1], p);
    forall i | 0 <= i < 4 ensures Cong(f[i], g[i], p) {
    }
  }

  lemma ThirdDifference(e0: int, e1: int, e2: int, e3: int, v0: int, v1: int, v2: int, v3: int, p: Modulus)
    requires Cong(e0, v0, p) && Cong(e1, v1, p) && Cong(e2, v2, p) && Cong(e3, v3, p)
    ensures Cong(e3 - 3 * e2 + 3 * e1 - e0, v3 - 3 * v2 + 3 * v1 - v0, p)
    ensures Cong(2 * e0 - 5 * e1 + 4 * e2 - e3, 2 * v0 - 5 * v1 + 4 * v2 - v3, p)
  {
    hide Mod;
    CongScale(3, e2, v2, p);
    CongScale(3, e1, v1, p);
    CongSub(e3, v3, 3 * e2, 3 * v2, p);
    CongAdd(e3 - 3 * e2, v3 - 3 * v2, 3 * e1, 3 * v1, p);
    CongSub(e3 - 3 * e2 + 3 * e1, v3 - 3 * v2 + 3 * v1, e0, v0, p);
    CongScale(2, e0, v0, p);
    CongScale(5, e1, v1, p);
    CongScale(4, e2, v2, p);
    CongSub(2 * e0, 2 * v0, 5 * e1, 5 * v1, p);
    CongAdd(2 * e0 - 5 * e1, 2 * v0 - 5 * v1, 4 * e2, 4 * v2, p);
    CongSub(2 * e0 - 5 * e1 + 4 * e2, 2 * v0 - 5 * v1 + 4 * v2, e3, v3, p);
  }

  lemma CancelConstant(x: nat, a: int, b: int, p: Modulus)
    requires Prime(p) && Mod(x, p) != 0 && Cong(x * a, x * b, p)
    ensures Cong(a, b, p)
  {
    hide Mod, SmallInv;
    var i := SmallInv(x, p);
    SmallInvCancels(x, p);
    CongScale(i, x * a, x * b, p);
    CongMul(x * i, 1, a, a, p);
    CongMul(x * i, 1, b, b, p);
    assert (x * i) * a == i * (x * a) && (x * i) * b == i * (x * b);
  }

  // ---------- evaluation ----------

  method Evaluate(f: Poly, r: int, p: Modulus) returns (eval: int)
    requires |f| > 0 && Canonical(f[0], p) && Canonical(r, p)
    ensures eval == Mod(Eval(f, r), p)
  {
    hide Mod, Eval, SparseMatrix.Pow;
    eval := f[0];
    var power := r;
    EvalFirst(f, r, p);
    for i := 1 to |f|
      invariant eval == Mod(Eval(f[..i], r), p) && power == Mod(SparseMatrix.Pow(r, i), p)
    {
      EvalNext(f, r, i, eval, power, p);
      eval := Mod(eval + power * f[i], p);
      power := Mod(power * r, p);
    }
    assert f[..|f|] == f;
  }

  lemma EvalFirst(f: Poly, r: int, p: Modulus)
    requires |f| > 0 && Canonical(f[0], p) && Canonical(r, p)
    ensures f[0] == Mod(Eval(f[..1], r), p) && r == Mod(SparseMatrix.Pow(r, 1), p)
  {
    assert f[..1][1..] == [] && Eval([], r) == 0 && r * 0 == 0;
    assert SparseMatrix.Pow(r, 1) == 1 * r;
  }

  lemma EvalNext(f: Poly, r: int, i: nat, eval: int, power: int, p: Modulus)
    requires i < |f| && eval == Mod(Eval(f[..i], r), p) && power == Mod(SparseMatrix.Pow(r, i), p)
    ensures Mod(eval + power * f[i], p) == Mod(Eval(f[..i + 1], r), p)
    ensures Mod(power * r, p) == Mod(SparseMatrix.Pow(r, i + 1), p)
  {
    hide Mod, Eval;
    var x, w := Eval(f[..i], r), SparseMatrix.Pow(r, i);
    assert f[..i + 1] == f[..i] + [f[i]];
    EvalSnoc(f[..i], f[i], r);
    ModCong(x, p);
    ModCong(w, p);
    CongMul(power, w, f[i], f[i], p);
    CongSum(eval + power * f[i], Eval(f[..i + 1], r), eval, x, power * f[i], w * f[i], p);
    CongMul(power, w, r, r, p);
  }

  // ---------- compression ----------

  /** All coefficients but the linear one. */
  function Compress(f: Poly): (c: seq<int>)
    requires |f| >= 2
    ensures |c| == |f| - 1
  {
    f[..1] + f[2..]
  }

  /** The linear term that makes the values at 0 and 1 add up to the hint. */
  function Decompress(c: seq<int>, hint: int, p: Modulus): (f: Poly)
    requires |c| >= 1
    ensures |f| == |c| + 1
  {
    [c[0], Mod(hint - c[0] - Sum(c), p)] + c[1..]
  }

  method DecompressLoop(c: seq<int>, hint: int, p: Modulus) returns (f: Poly)
    requires |c| >= 1
    ensures f == Decompress(c, hint, p)
  {
    hide Mod;
    var linear := Mod(hint - c[0] - c[0], p);
    assert Sum(c[..1]) == c[0];
    for i := 1 to |c|
      invariant linear == Mod(hint - c[0] - Sum(c[..i]), p)
    {
      assert c[..i + 1][..i] == c[..i];
      ModCong(hint - c[0] - Sum(c[..i]), p);
      CongSub(linear, hint - c[0] - Sum(c[..i]), c[i], c[i], p);
      linear := Mod(linear - c[i], p);
    }
    assert c[..|c|] == c;
    f := [c[0], linear] + c[1..];
  }

  function AtOne(f: Poly): int {
    Sum(f)
  }

  /** The sum of two values the verifier checks holds by construction, whatever the prover sent. */
  lemma DecompressMeetsHint(c: seq<int>, hint: int, p: Modulus)
    requires |c| >= 1 && Canonical(hint, p)
    ensures var f := Decompress(c, hint, p); Mod(f[0] + AtOne(f), p) == hint
  {
    hide Mod, Sum;
    var l := hint - c[0] - Sum(c);
    SumInsert(c, Mod(l, p));
    ModCong(l, p);
    CongSum(c[0] + (Sum(c) + Mod(l, p)), hint, c[0] + Sum(c), c[0] + Sum(c), Mod(l, p), l, p);
    CanonicalIs(hint, p);
  }

  lemma SumInsert(c: seq<int>, x: int)
    requires |c| >= 1
    ensures Sum([c[0], x] + c[1..]) == Sum(c) + x
  {
    hide Sum;
    assert [c[0], x] + c[1..] == ([c[0]] + [x]) + c[1..] && c == [c[0]] + c[1..];
    SumConcat([c[0]] + [x], c[1..]);
    SumConcat([c[0]], [x]);
    SumConcat([c[0]], c[1..]);
    SumSingle(x);
  }

  lemma SumSingle(x: int)
    ensures Sum([x]) == x
  {
    assert [x][..0] == [];
  }

  lemma {:induction false} SumConcat(a: seq<int>, b: seq<int>)
    ensures Sum(a + b) == Sum(a) + Sum(b)
  {
    if |b| == 0 {
      assert a + b == a;
    } else {
      SumConcat(a, b[..|b| - 1]);
      assert (a + b)[..|a + b| - 1] == a + b[..|b| - 1];
    }
  }

  /** Decompression undoes compression when the hint is the sum of the values at 0 and 1. */
  lemma DecompressCompress(f: Poly, hint: int, p: Modulus)
    requires |f| >= 2 && CanonicalV(f, p) && Cong(hint, f[0] + AtOne(f), p)
    ensures Decompress(Compress(f), hint, p) == f
  {
    hide Mod, Sum;
    var c := Compress(f);
    assert [c[0], f[1]] + c[1..] == f;
    SumInsert(c, f[1]);
    var x := f[0] + Sum(c);
    CongSub(hint, f[0] + AtOne(f), x, x, p);
    CongSame(hint - x, f[0] + AtOne(f) - x, hint - c[0] - Sum(c), f[1], p);
    CanonicalIs(f[1], p);
  }
}
