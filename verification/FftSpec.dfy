/**
 The radix-2 Fourier transform: bit reversal, the butterfly recursion, the theorem that together they
 evaluate the input polynomial at the powers of omega, and the inverse transform.
 */
module FftSpec {
  import opened PowersOfTwo
  import opened PrimeField
  import Vectors
  import opened SparseMatrix
  import opened Roots

  // ---------- bit reversal ----------

  /** The l low bits of n in reverse order. */
  function Rev(n: nat, l: nat): (r: nat)
    ensures r < Pow2(l)
    decreases l
  {
    if l == 0 then 0 else n % 2 * Pow2(l - 1) + Rev(n / 2, l - 1)
  }

  lemma {:induction false} RevTop(b: nat, m: nat, l: nat)
    requires l > 0 && b < 2 && m < Pow2(l - 1)
    ensures Rev(b * Pow2(l - 1) + m, l) == 2 * Rev(m, l - 1) + b
    decreases l
  {
    if l == 1 {
      assert b * Pow2(0) + m == b;
      assert Rev(b, 1) == b % 2 * Pow2(0) + Rev(b / 2, 0);
    } else {
      var h := Pow2(l - 2);
      assert b * (2 * h) == 2 * (b * h);
      assert (2 * (b * h) + m) / 2 == b * h + m / 2 && (2 * (b * h) + m) % 2 == m % 2;
      RevTop(b, m / 2, l - 1);
      assert m % 2 * (2 * h) == 2 * (m % 2 * h);
    }
  }

  lemma {:induction false} RevTwice(n: nat, l: nat)
    requires n < Pow2(l)
    ensures Rev(Rev(n, l), l) == n
    decreases l
  {
    if l == 0 {
    } else {
      RevTwice(n / 2, l - 1);
      RevTop(n % 2, Rev(n / 2, l - 1), l);
    }
  }

  /** The input in bit-reversed order. */
  function Reordered(a: seq<int>, k: nat): (b: seq<int>)
    requires |a| == Pow2(k)
    ensures |b| == |a|
  {
    seq(|a|, i requires 0 <= i < |a| => a[Rev(i, k)])
  }

  function Evens(a: seq<int>, n: nat): (b: seq<int>)
    requires |a| == 2 * n
    ensures |b| == n
  {
    seq(n, i requires 0 <= i < n => a[2 * i])
  }

  function Odds(a: seq<int>, n: nat): (b: seq<int>)
    requires |a| == 2 * n
    ensures |b| == n
  {
    seq(n, i requires 0 <= i < n => a[2 * i + 1])
  }

  /** Reordering puts the even entries in the first half and the odd ones in the second, each reordered. */
  lemma ReorderedHalves(a: seq<int>, k: nat)
    requires k > 0 && |a| == Pow2(k)
    ensures var n := Pow2(k - 1);
      Reordered(a, k) == Reordered(Evens(a, n), k - 1) + Reordered(Odds(a, n), k - 1)
  {
    hide Rev;
    var n := Pow2(k - 1);
    var x, y := Reordered(a, k), Reordered(Evens(a, n), k - 1) + Reordered(Odds(a, n), k - 1);
    forall i | 0 <= i < 2 * n ensures x[i] == y[i] {
      RevHalf(i, k);
    }
  }

  /** Reversing a number of the lower half doubles its shorter reversal; the upper half adds one. */
  lemma RevHalf(i: nat, k: nat)
    requires k > 0 && i < 2 * Pow2(k - 1)
    ensures var n := Pow2(k - 1);
      Rev(i, k) == if i < n then 2 * Rev(i, k - 1) else 2 * Rev(i - n, k - 1) + 1
  {
    hide Rev, Pow2;
    var n := Pow2(k - 1);
    if i < n {
      RevTop(0, i, k);
    } else {
      RevTop(1, i - n, k);
      assert 1 * n + (i - n) == i;
    }
  }

  // ---------- butterflies ----------

  /** One butterfly stage over two transformed halves. */
  function Combine(l: seq<int>, r: seq<int>, w: int, p: Modulus): (c: seq<int>)
    requires |l| == |r|
    ensures |c| == 2 * |l|
  {
    seq(|l|, i requires 0 <= i < |l| => Mod(l[i] + Mod(Pow(w, i) * r[i], p), p))
    + seq(|l|, i requires 0 <= i < |l| => Mod(l[i] - Mod(Pow(w, i) * r[i], p), p))
  }

  /** All stages, for input in bit-reversed order; w is a root of order 2^k. */
  function Butterfly(b: seq<int>, k: nat, w: int, p: Modulus): (c: seq<int>)
    requires |b| == Pow2(k)
    ensures |c| == |b|
    decreases k
  {
    if k == 0 then b else
    var n := Pow2(k - 1);
    Combine(Butterfly(b[..n], k - 1, w * w, p), Butterfly(b[n..], k - 1, w * w, p), w, p)
  }

  function Transform(a: seq<int>, k: nat, w: int, p: Modulus): (c: seq<int>)
    requires |a| == Pow2(k)
    ensures |c| == |a|
  {
    Butterfly(Reordered(a, k), k, w, p)
  }

  /** w has order 2^k: its 2^(k-1)-th power is -1. */
  ghost predicate HalfRoot(w: int, k: nat, p: Modulus) {
    k > 0 ==> Cong(Pow(w, Pow2(k - 1)), -1, p)
  }

  lemma HalfRootSquare(w: int, k: nat, p: Modulus)
    requires k > 0 && HalfRoot(w, k, p)
    ensures HalfRoot(w * w, k - 1, p)
  {
    if k > 1 {
      var n := Pow2(k - 2);
      PowMul(w, w, n);
      PowAdd(w, n, n);
    }
  }

  lemma {:induction false} PowAdd(w: int, i: nat, j: nat)
    ensures Pow(w, i + j) == Pow(w, i) * Pow(w, j)
  {
    if j == 0 {
    } else {
      PowAdd(w, i, j - 1);
      assert Pow(w, i) * Pow(w, j - 1) * w == Pow(w, i) * (Pow(w, j - 1) * w);
    }
  }

  /** A polynomial from its even and its odd part. */
  lemma {:induction false} EvalEvenOdd(a: seq<int>, n: nat, x: int)
    requires |a| == 2 * n
    ensures Eval(a, x) == Eval(Evens(a, n), x * x) + x * Eval(Odds(a, n), x * x)
    decreases n
  {
    if n == 0 {
      assert x * 0 == 0;
    } else {
      EvalEvenOdd(a[2..], n - 1, x);
      assert a[1..][1..] == a[2..];
      assert Evens(a, n)[1..] == Evens(a[2..], n - 1) && Odds(a, n)[1..] == Odds(a[2..], n - 1);
      EvenOddStep(a[0], a[1], x, Eval(a[2..], x), Eval(Evens(a[2..], n - 1), x * x), Eval(Odds(a[2..], n - 1), x * x));
    }
  }

  lemma EvenOddStep(a: int, b: int, x: int, t: int, e: int, o: int)
    requires t == e + x * o
    ensures a + x * (b + x * t) == (a + (x * x) * e) + x * (b + (x * x) * o)
  {
    assert x * (x * (e + x * o)) == (x * x) * e + x * ((x * x) * o);
  }

  lemma {:induction false} EvalCongV(a: seq<int>, b: seq<int>, x: int, y: int, p: Modulus)
    requires |a| == |b| && (forall i :: 0 <= i < |a| ==> Cong(a[i], b[i], p)) && Cong(x, y, p)
    ensures Cong(Eval(a, x), Eval(b, y), p)
    decreases |a|
  {
    if |a| == 0 {
    } else {
      hide Mod;
      EvalCongV(a[1..], b[1..], x, y, p);
      CongMul(x, y, Eval(a[1..], x), Eval(b[1..], y), p);
      CongAdd(a[0], b[0], x * Eval(a[1..], x), y * Eval(b[1..], y), p);
    }
  }

  /** Both outputs of one butterfly, from the values of the even and the odd part. */
  lemma ButterflyPoint(a: seq<int>, n: nat, w: int, j: nat, l: int, r: int, p: Modulus)
    requires |a| == 2 * n && j < n && Cong(Pow(w, n), -1, p)
    requires Cong(l, Eval(Evens(a, n), Pow(w * w, j)), p) && Cong(r, Eval(Odds(a, n), Pow(w * w, j)), p)
    ensures Cong(Mod(l + Mod(Pow(w, j) * r, p), p), Eval(a, Pow(w, j)), p)
    ensures Cong(Mod(l - Mod(Pow(w, j) * r, p), p), Eval(a, Pow(w, n + j)), p)
  {
    hide Mod, Pow, Eval;
    var x := Pow(w, j);
    PowMul(w, w, j);
    var e, o := Eval(Evens(a, n), x * x), Eval(Odds(a, n), x * x);
    EvalEvenOdd(a, n, x);
    EvalEvenOdd(a, n, -x);
    assert (-x) * (-x) == x * x;
    PowAdd(w, n, j);
    CongMul(Pow(w, n), -1, x, x, p);
    EvalCongV(a, a, Pow(w, n + j), -x, p);
    ModCong(x * r, p);
    CongScale(x, r, o, p);
    CongAdd(l, e, Mod(x * r, p), x * o, p);
    CongSub(l, e, Mod(x * r, p), x * o, p);
    ModCong(l + Mod(x * r, p), p);
    ModCong(l - Mod(x * r, p), p);
    assert (-x) * o == -(x * o);
    CongTo(Mod(l - Mod(x * r, p), p), e - x * o, Eval(a, -x), p);
    CongTo(Mod(l + Mod(x * r, p), p), e + x * o, Eval(a, x), p);
  }

  /** The transform evaluates the polynomial with coefficients a at the powers of w. */
  lemma {:induction false} TransformEvaluates(a: seq<int>, k: nat, w: int, j: nat, p: Modulus)
    requires |a| == Pow2(k) && HalfRoot(w, k, p) && j < |a|
    ensures Cong(Transform(a, k, w, p)[j], Eval(a, Pow(w, j)), p)
    decreases k
  {
    if k == 0 {
      SinglePoint(a, w, p);
    } else {
      hide Mod, Eval, Pow, Transform, Pow2, HalfRoot;
      var n := Pow2(k - 1);
      Pow2Double(k);
      HalfRootSquare(w, k, p);
      HalfRootIs(w, k, p);
      var e, o := Transform(Evens(a, n), k - 1, w * w, p), Transform(Odds(a, n), k - 1, w * w, p);
      if j < n {
        TransformEvaluates(Evens(a, n), k - 1, w * w, j, p);
        TransformEvaluates(Odds(a, n), k - 1, w * w, j, p);
        LowerPoint(a, k, n, w, j, e[j], o[j], Transform(a, k, w, p)[j], p);
      } else {
        TransformEvaluates(Evens(a, n), k - 1, w * w, j - n, p);
        TransformEvaluates(Odds(a, n), k - 1, w * w, j - n, p);
        UpperPoint(a, k, n, w, j - n, j, e[j - n], o[j - n], Transform(a, k, w, p)[j], p);
      }
    }
  }

  lemma LowerPoint(a: seq<int>, k: nat, n: nat, w: int, i: nat, l: int, r: int, v: int, p: Modulus)
    requires k > 0 && n == Pow2(k - 1) && |a| == 2 * n == Pow2(k) && i < n && Cong(Pow(w, n), -1, p)
    requires l == Transform(Evens(a, n), k - 1, w * w, p)[i] && r == Transform(Odds(a, n), k - 1, w * w, p)[i] &&
             v == Transform(a, k, w, p)[i]
    requires Cong(l, Eval(Evens(a, n), Pow(w * w, i)), p) && Cong(r, Eval(Odds(a, n), Pow(w * w, i)), p)
    ensures Cong(v, Eval(a, Pow(w, i)), p)
  {
    hide Mod, Eval, Pow, Transform, Pow2, Combine, Evens, Odds;
    TransformHalves(a, k, w, p);
    CombineAt(Transform(Evens(a, n), k - 1, w * w, p), Transform(Odds(a, n), k - 1, w * w, p), w, i, p);
    ButterflyPoint(a, n, w, i, l, r, p);
  }

  lemma UpperPoint(a: seq<int>, k: nat, n: nat, w: int, i: nat, j: nat, l: int, r: int, v: int, p: Modulus)
    requires k > 0 && n == Pow2(k - 1) && |a| == 2 * n == Pow2(k) && i < n && j == n + i && Cong(Pow(w, n), -1, p)
    requires l == Transform(Evens(a, n), k - 1, w * w, p)[i] && r == Transform(Odds(a, n), k - 1, w * w, p)[i] &&
             v == Transform(a, k, w, p)[j]
    requires Cong(l, Eval(Evens(a, n), Pow(w * w, i)), p) && Cong(r, Eval(Odds(a, n), Pow(w * w, i)), p)
    ensures Cong(v, Eval(a, Pow(w, j)), p)
  {
    hide Mod, Eval, Pow, Transform, Pow2, Combine, Evens, Odds;
    TransformHalves(a, k, w, p);
    CombineAt(Transform(Evens(a, n), k - 1, w * w, p), Transform(Odds(a, n), k - 1, w * w, p), w, i, p);
    ButterflyPoint(a, n, w, i, l, r, p);
  }

  lemma Pow2Double(k: nat)
    requires k > 0
    ensures Pow2(k) == 2 * Pow2(k - 1)
  {
  }

  lemma HalfRootIs(w: int, k: nat, p: Modulus)
    requires k > 0
    ensures HalfRoot(w, k, p) <==> Cong(Pow(w, Pow2(k - 1)), -1, p)
  {
  }

  lemma ButterflyHalves(x: seq<int>, y: seq<int>, k: nat, w: int, p: Modulus)
    requires k > 0 && |x| == |y| == Pow2(k - 1) && |x + y| == Pow2(k)
    ensures Butterfly(x + y, k, w, p) == Combine(Butterfly(x, k - 1, w * w, p), Butterfly(y, k - 1, w * w, p), w, p)
  {
    hide Combine, Pow2;
    assert (x + y)[..|x|] == x && (x + y)[|x|..] == y;
  }

  lemma TransformHalves(a: seq<int>, k: nat, w: int, p: Modulus)
    requires k > 0 && |a| == 2 * Pow2(k - 1) == Pow2(k)
    ensures var n := Pow2(k - 1);
      Transform(a, k, w, p)
        == Combine(Transform(Evens(a, n), k - 1, w * w, p), Transform(Odds(a, n), k - 1, w * w, p), w, p)
  {
    hide Combine, Butterfly, Reordered, Evens, Odds, Pow2;
    var n := Pow2(k - 1);
    ReorderedHalves(a, k);
    ButterflyHalves(Reordered(Evens(a, n), k - 1), Reordered(Odds(a, n), k - 1), k, w, p);
  }

  lemma CombineAt(l: seq<int>, r: seq<int>, w: int, i: nat, p: Modulus)
    requires |l| == |r| && i < |l|
    ensures Combine(l, r, w, p)[i] == Mod(l[i] + Mod(Pow(w, i) * r[i], p), p)
    ensures Combine(l, r, w, p)[|l| + i] == Mod(l[i] - Mod(Pow(w, i) * r[i], p), p)
  {
    hide Mod, Pow;
  }

  lemma SinglePoint(a: seq<int>, w: int, p: Modulus)
    requires |a| == 1
    ensures Transform(a, 0, w, p) == a && Eval(a, Pow(w, 0)) == a[0]
  {
    hide Mod;
    assert a[1..] == [] && Eval([], 1) == 0;
    assert Rev(0, 0) == 0;
    assert Reordered(a, 0) == a;
  }

  // ---------- the inverse ----------

  /** The values of a at the powers of w, as integers. */
  function Points(a: seq<int>, w: int, n: nat): (v: seq<int>)
    ensures |v| == n
  {
    seq(n, j requires 0 <= j < n => Eval(a, Pow(w, j)))
  }

  lemma EvalHead(a: seq<int>, x: int)
    requires |a| > 0
    ensures Eval(a, x) == a[0] + x * Eval(a[1..], x)
  {
  }

  lemma {:induction false} EvalConcat(a: seq<int>, b: seq<int>, x: int)
    ensures Eval(a + b, x) == Eval(a, x) + Pow(x, |a|) * Eval(b, x)
    decreases |a|
  {
    if |a| == 0 {
      assert a + b == b;
      assert Pow(x, 0) == 1;
    } else {
      hide Eval;
      EvalConcat(a[1..], b, x);
      assert (a + b)[1..] == a[1..] + b && (a + b)[0] == a[0];
      EvalHead(a + b, x);
      EvalHead(a, x);
      ConcatStep(a[0], x, Eval(a[1..], x), Pow(x, |a| - 1), Eval(b, x), Eval(a, x), Eval(a + b, x), Pow(x, |a|));
    }
  }

  lemma ConcatStep(c: int, x: int, t: int, q: int, e: int, ea: int, all: int, next: int)
    requires ea == c + x * t && all == c + x * (t + q * e) && next == q * x
    ensures all == ea + next * e
  {
    assert x * (t + q * e) == x * t + (q * x) * e;
  }

  /** Entry j is w^j times entry j. */
  function Twist(a: seq<int>, w: int): (b: seq<int>)
    ensures |b| == |a|
  {
    seq(|a|, j requires 0 <= j < |a| => Pow(w, j) * a[j])
  }

  lemma {:induction false} EvalTwist(a: seq<int>, w: int, x: int)
    ensures Eval(Twist(a, w), x) == Eval(a, w * x)
    decreases |a|
  {
    if |a| == 0 {
    } else {
      hide Eval, Pow;
      var n := |a| - 1;
      EvalTwist(a[..n], w, x);
      assert Twist(a, w) == Twist(a[..n], w) + [Pow(w, n) * a[n]] && a == a[..n] + [a[n]];
      EvalSnoc(Twist(a[..n], w), Pow(w, n) * a[n], x);
      EvalSnoc(a[..n], a[n], w * x);
      PowMul(w, x, n);
      TwistStep(Pow(x, n), Pow(w, n), a[n], Pow(w * x, n));
    }
  }

  lemma TwistStep(x: int, w: int, a: int, wx: int)
    requires wx == w * x
    ensures x * (w * a) == wx * a
  {
  }

  lemma EvalUnfold(a: seq<int>, x: int)
    requires |a| > 0
    ensures Eval(a, x) == a[0] + x * Eval(a[1..], x)
  {
  }

  lemma {:induction false} EvalLin(a: seq<int>, b: seq<int>, s: int, x: int)
    requires |a| == |b|
    ensures Eval(Vectors.Lin(1, a, s, b), x) == Eval(a, x) + s * Eval(b, x)
    decreases |a|
  {
    if |a| == 0 {
      assert s * 0 == 0;
    } else {
      hide Eval;
      var c := Vectors.Lin(1, a, s, b);
      EvalLin(a[1..], b[1..], s, x);
      assert c[1..] == Vectors.Lin(1, a[1..], s, b[1..]);
      EvalUnfold(a, x);
      EvalUnfold(b, x);
      EvalUnfold(c, x);
      LinStep(a[0], b[0], s, x, Eval(a[1..], x), Eval(b[1..], x), Eval(c[1..], x));
    }
  }

  lemma LinStep(a: int, b: int, s: int, x: int, u: int, v: int, t: int)
    requires t == u + s * v
    ensures (1 * a + s * b) + x * t == (a + x * u) + s * (b + x * v)
  {
    assert x * (u + s * v) == x * u + s * (x * v);
  }

  lemma EvalDouble(a: seq<int>, x: int)
    ensures Eval(Vectors.Scale(2, a), x) == 2 * Eval(a, x)
  {
    EvalLin(a, a, 1, x);
    assert Vectors.Scale(2, a) == Vectors.Lin(1, a, 1, a);
  }

  /** y^n for y = v^l, where v^n = -1: the sign of the parity of l. */
  lemma {:induction false} SignOfPower(v: int, n: nat, l: nat, p: Modulus)
    requires Cong(Pow(v, n), -1, p)
    ensures Cong(Pow(Pow(v, l), n), if l % 2 == 0 then 1 else -1, p)
  {
    hide Mod;
    if l == 0 {
      PowOne(n);
    } else {
      SignOfPower(v, n, l - 1, p);
      PowMul(Pow(v, l - 1), v, n);
      var s := if (l - 1) % 2 == 0 then 1 else -1;
      CongMul(Pow(Pow(v, l - 1), n), s, Pow(v, n), -1, p);
    }
  }

  /** The two halves of the values: even part plus or minus the twisted odd part. */
  lemma PointsHalves(a: seq<int>, w: int, n: nat, j: nat, p: Modulus)
    requires |a| == 2 * n && j < n && Cong(Pow(w, n), -1, p)
    ensures var e, o := Points(Evens(a, n), w * w, n), Twist(Points(Odds(a, n), w * w, n), w);
      Cong(Points(a, w, 2 * n)[j], e[j] + o[j], p) && Cong(Points(a, w, 2 * n)[n + j], e[j] - o[j], p)
  {
    hide Mod, Pow, Eval;
    var x := Pow(w, j);
    PowMul(w, w, j);
    EvalEvenOdd(a, n, x);
    EvalEvenOdd(a, n, -x);
    assert (-x) * (-x) == x * x;
    PowAdd(w, n, j);
    CongMul(Pow(w, n), -1, x, x, p);
    EvalCongV(a, a, Pow(w, n + j), -x, p);
    var o := Eval(Odds(a, n), x * x);
    assert (-x) * o == -(x * o);
  }

  /** Transforming back multiplies every coefficient by the size. */
  lemma {:induction false} PointsBack(a: seq<int>, k: nat, w: int, v: int, l: nat, t: int, p: Modulus)
    requires |a| == Pow2(k) && HalfRoot(w, k, p) && HalfRoot(v, k, p) && Cong(w * v, 1, p) && l < |a| && t == |a| * a[l]
    ensures Cong(Eval(Points(a, w, |a|), Pow(v, l)), t, p)
    decreases k
  {
    if k == 0 {
      OnePoint(a, w, v);
    } else {
      hide Mod, Eval, Pow, Pow2, HalfRoot, Points, Twist;
      Pow2Double(k);
      var n, m := Pow2(k - 1), l / 2;
      HalfRootIs(w, k, p);
      HalfRootIs(v, k, p);
      HalfRootSquare(w, k, p);
      HalfRootSquare(v, k, p);
      SquareInverse(w, v, p);
      if l % 2 == 0 {
        var e := Evens(a, n);
        PointsBack(e, k - 1, w * w, v * v, m, n * e[m], p);
        EvenBack(a, n, w, v, m, Eval(Points(e, w * w, n), Pow(v * v, m)), n * e[m], t, p);
      } else {
        var o := Odds(a, n);
        PointsBack(o, k - 1, w * w, v * v, m, n * o[m], p);
        OddBack(a, n, w, v, m, Eval(Points(o, w * w, n), Pow(v * v, m)), n * o[m], t, p);
      }
    }
  }

  lemma OnePoint(a: seq<int>, w: int, v: int)
    requires |a| == 1
    ensures Eval(Points(a, w, 1), Pow(v, 0)) == a[0]
  {
    assert a[1..] == [] && Points(a, w, 1)[1..] == [] && Eval([], 1) == 0;
    assert Points(a, w, 1)[0] == a[0];
  }

  lemma SquareInverse(w: int, v: int, p: Modulus)
    requires Cong(w * v, 1, p)
    ensures Cong((w * w) * (v * v), 1, p)
  {
    hide Mod;
    CongMul(w * v, 1, w * v, 1, p);
    assert (w * v) * (w * v) == (w * w) * (v * v);
  }

  /** The transform back at y, from the two halves added or subtracted. */
  lemma HalvesBack(a: seq<int>, n: nat, w: int, y: int, sign: int, c: seq<int>, p: Modulus)
    requires |a| == 2 * n && |c| == n && Cong(Pow(y, n), sign, p)
    requires forall j :: 0 <= j < n ==> Cong(Points(a, w, 2 * n)[j] + sign * Points(a, w, 2 * n)[n + j], c[j], p)
    ensures Cong(Eval(Points(a, w, 2 * n), y), Eval(c, y), p)
  {
    hide Mod, Eval, Pow, Points;
    var A := Points(a, w, 2 * n);
    var lo, hi := A[..n], A[n..];
    assert A == lo + hi;
    EvalConcat(lo, hi, y);
    CongMul(Pow(y, n), sign, Eval(hi, y), Eval(hi, y), p);
    EvalLin(lo, hi, sign, y);
    var d := Vectors.Lin(1, lo, sign, hi);
    forall j | 0 <= j < n ensures Cong(d[j], c[j], p) {
      assert lo[j] == A[j] && hi[j] == A[n + j];
    }
    EvalCongV(d, c, y, y, p);
    CongSum(Eval(A, y), Eval(d, y), Eval(lo, y), Eval(lo, y), Pow(y, n) * Eval(hi, y), sign * Eval(hi, y), p);
  }

  lemma EvenBack(a: seq<int>, n: nat, w: int, v: int, m: nat, inner: int, t': int, t: int, p: Modulus)
    requires |a| == 2 * n && m < n && Cong(Pow(w, n), -1, p) && Cong(Pow(v, n), -1, p)
    requires inner == Eval(Points(Evens(a, n), w * w, n), Pow(v * v, m)) && Cong(inner, t', p) &&
             t' == n * a[2 * m] && t == |a| * a[2 * m]
    ensures Cong(Eval(Points(a, w, 2 * n), Pow(v, 2 * m)), t, p)
  {
    hide Mod, Eval, Pow, Points, Twist;
    var y := Pow(v, 2 * m);
    var e := Points(Evens(a, n), w * w, n);
    SignOfPower(v, n, 2 * m, p);
    PowSquare(v, m);
    forall j | 0 <= j < n
      ensures Cong(Points(a, w, 2 * n)[j] + 1 * Points(a, w, 2 * n)[n + j], Vectors.Scale(2, e)[j], p)
    {
      PointsHalves(a, w, n, j, p);
      var o := Twist(Points(Odds(a, n), w * w, n), w)[j];
      CongSum(Points(a, w, 2 * n)[j] + 1 * Points(a, w, 2 * n)[n + j], 2 * e[j],
              Points(a, w, 2 * n)[j], e[j] + o, Points(a, w, 2 * n)[n + j], e[j] - o, p);
    }
    HalvesBack(a, n, w, y, 1, Vectors.Scale(2, e), p);
    EvalDouble(e, y);
    CongScale(2, inner, t', p);
    DoubleCount(n, a[2 * m], t', t);
  }

  lemma DoubleCount(n: nat, x: int, t': int, t: int)
    requires t' == n * x && t == (2 * n) * x
    ensures t == 2 * t'
  {
  }

  lemma PowSquare(v: int, m: nat)
    ensures Pow(v, 2 * m) == Pow(v * v, m)
  {
    PowMul(v, v, m);
    PowAdd(v, m, m);
    assert 2 * m == m + m;
  }

  lemma OddBack(a: seq<int>, n: nat, w: int, v: int, m: nat, inner: int, t': int, t: int, p: Modulus)
    requires |a| == 2 * n && m < n && Cong(Pow(w, n), -1, p) && Cong(Pow(v, n), -1, p) && Cong(w * v, 1, p)
    requires inner == Eval(Points(Odds(a, n), w * w, n), Pow(v * v, m)) && Cong(inner, t', p) &&
             t' == n * a[2 * m + 1] && t == |a| * a[2 * m + 1]
    ensures Cong(Eval(Points(a, w, 2 * n), Pow(v, 2 * m + 1)), t, p)
  {
    hide Mod, Eval, Pow, Points, Twist;
    var z, y := Pow(v * v, m), Pow(v, 2 * m + 1);
    var q := Points(Odds(a, n), w * w, n);
    var o := Twist(q, w);
    SignOfPower(v, n, 2 * m + 1, p);
    forall j | 0 <= j < n
      ensures Cong(Points(a, w, 2 * n)[j] + -1 * Points(a, w, 2 * n)[n + j], Vectors.Scale(2, o)[j], p)
    {
      PointsHalves(a, w, n, j, p);
      var e := Points(Evens(a, n), w * w, n)[j];
      CongSub(Points(a, w, 2 * n)[j], e + o[j], Points(a, w, 2 * n)[n + j], e - o[j], p);
      CongSame(Points(a, w, 2 * n)[j] - Points(a, w, 2 * n)[n + j], (e + o[j]) - (e - o[j]),
               Points(a, w, 2 * n)[j] + -1 * Points(a, w, 2 * n)[n + j], 2 * o[j], p);
    }
    HalvesBack(a, n, w, y, -1, Vectors.Scale(2, o), p);
    EvalDouble(o, y);
    EvalTwist(q, w, y);
    OddPoint(w, v, m, z, y, p);
    EvalCongV(q, q, w * y, z, p);
    CongScale(2, Eval(q, w * y), inner, p);
    CongScale(2, inner, t', p);
    DoubleCount(n, a[2 * m + 1], t', t);
  }

  lemma OddPoint(w: int, v: int, m: nat, z: int, y: int, p: Modulus)
    requires Cong(w * v, 1, p) && z == Pow(v * v, m) && y == Pow(v, 2 * m + 1)
    ensures Cong(w * y, z, p)
  {
    hide Mod;
    PowSquare(v, m);
    assert y == z * v;
    CongMul(w * v, 1, z, z, p);
    assert w * (z * v) == (w * v) * z;
  }

  lemma InverseRoot(w: int, v: int, k: nat, p: Modulus)
    requires HalfRoot(w, k, p) && Cong(w * v, 1, p)
    ensures HalfRoot(v, k, p)
  {
    if k > 0 {
      hide Mod, Pow;
      var n := Pow2(k - 1);
      PowMul(w, v, n);
      PowCong(w * v, 1, n, p);
      PowOne(n);
      CongMul(Pow(w, n), -1, Pow(v, n), Pow(v, n), p);
      CongScale(-1, -1 * Pow(v, n), 1, p);
      CongSame(-1 * (-1 * Pow(v, n)), -1 * 1, Pow(v, n), -1, p);
    }
  }

  /** A run with 1/omega, scaled by 1/n, undoes a run with omega. */
  lemma InverseRestores(a: seq<int>, k: nat, w: int, v: int, sizeInv: int, l: nat, p: Modulus)
    requires |a| == Pow2(k) && Vectors.CanonicalV(a, p) && HalfRoot(w, k, p) && Cong(w * v, 1, p) &&
             Cong(sizeInv * |a|, 1, p) && l < |a|
    ensures Mod(sizeInv * Transform(Transform(a, k, w, p), k, v, p)[l], p) == a[l]
  {
    hide Mod, Eval, Pow, Transform, HalfRoot;
    var b := Transform(a, k, w, p);
    InverseRoot(w, v, k, p);
    TransformEvaluates(b, k, v, l, p);
    forall j | 0 <= j < |a| ensures Cong(b[j], Points(a, w, |a|)[j], p) {
      TransformEvaluates(a, k, w, j, p);
    }
    EvalCongV(b, Points(a, w, |a|), Pow(v, l), Pow(v, l), p);
    PointsBack(a, k, w, v, l, |a| * a[l], p);
    var c := Transform(b, k, v, p)[l];
    CongScale(sizeInv, c, |a| * a[l], p);
    CongMul(sizeInv * |a|, 1, a[l], a[l], p);
    assert sizeInv * (|a| * a[l]) == (sizeInv * |a|) * a[l];
    CongTo(sizeInv * c, 1 * a[l], a[l], p);
    CanonicalIs(a[l], p);
  }
}
