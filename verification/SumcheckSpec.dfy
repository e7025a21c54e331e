/**
 The sum-check protocol over products of three multilinear tables, batched with coefficients: the
 round polynomials, the prover's and the verifier's runs, and the exact error of a run.
 */
module SumcheckSpec {
  import opened PowersOfTwo
  import opened PrimeField
  import opened Vectors
  import opened Roots
  import opened Transcript
  import opened Multilinear
  import opened UniPoly

  /** The three tables whose entrywise product is summed. */
  datatype Tables = Tables(A: seq<int>, B: seq<int>, C: seq<int>)

  predicate Sized(t: Tables, n: nat) {
    |t.A| == |t.B| == |t.C| == n
  }

  predicate AllSized(ts: seq<Tables>, n: nat) {
    forall k :: 0 <= k < |ts| ==> Sized(ts[k], n)
  }

  /** The sum of the first i products. */
  function Triple(t: Tables, i: nat): int
    requires i <= |t.A| == |t.B| == |t.C|
  {
    if i == 0 then 0 else Triple(t, i - 1) + t.A[i - 1] * t.B[i - 1] * t.C[i - 1]
  }

  /** Term i of the round polynomial at x: the three lines through the lower and upper entries, multiplied. */
  function RoundTerm(t: Tables, n: nat, i: nat, x: int): int
    requires Sized(t, 2 * n) && i < n
  {
    Line(t.A[i], t.A[n + i], x) * Line(t.B[i], t.B[n + i], x) * Line(t.C[i], t.C[n + i], x)
  }

  function RoundSum(t: Tables, n: nat, i: nat, x: int): int
    requires Sized(t, 2 * n) && i <= n
  {
    if i == 0 then 0 else RoundSum(t, n, i - 1, x) + RoundTerm(t, n, i - 1, x)
  }

  function BindTables(t: Tables, n: nat, r: int, p: Modulus): (t': Tables)
    requires Sized(t, 2 * n)
    ensures Sized(t', n)
  {
    Tables(Bind(t.A, r, p), Bind(t.B, r, p), Bind(t.C, r, p))
  }

  function BindAll(ts: seq<Tables>, n: nat, r: int, p: Modulus): (ts': seq<Tables>)
    requires AllSized(ts, 2 * n)
    ensures |ts'| == |ts| && AllSized(ts', n)
  {
    seq(|ts|, k requires 0 <= k < |ts| => BindTables(ts[k], n, r, p))
  }

  /** The weighted sum over all instances of their products. */
  function BatchTriple(ts: seq<Tables>, coeffs: seq<int>, n: nat): int
    requires AllSized(ts, n) && |coeffs| == |ts|
  {
    if |ts| == 0 then 0 else
    var k := |ts| - 1;
    BatchTriple(ts[..k], coeffs[..k], n) + coeffs[k] * Triple(ts[k], n)
  }

  function BatchRound(ts: seq<Tables>, coeffs: seq<int>, n: nat, x: int): int
    requires AllSized(ts, 2 * n) && |coeffs| == |ts|
  {
    if |ts| == 0 then 0 else
    var k := |ts| - 1;
    BatchRound(ts[..k], coeffs[..k], n, x) + coeffs[k] * RoundSum(ts[k], n, n, x)
  }

  /** The polynomial the prover sends: its value at 1 is what the claim leaves over. */
  function RoundPoly(e: int, ts: seq<Tables>, coeffs: seq<int>, n: nat, p: Modulus): (f: Poly)
    requires Prime(p) && p > 3 && AllSized(ts, 2 * n) && |coeffs| == |ts|
    ensures |f| == 4 && CanonicalV(f, p)
  {
    var e0 := Mod(BatchRound(ts, coeffs, n, 0), p);
    FromEvals(e0, Mod(e - e0, p), Mod(BatchRound(ts, coeffs, n, 2), p), Mod(BatchRound(ts, coeffs, n, 3), p), p)
  }

  function CoeffMessages(f: Poly): Log {
    seq(|f|, i requires 0 <= i < |f| => Scalar("coeff", f[i]))
  }

  function PolyLog(log: Log, f: Poly): Log {
    log + [Data("UniPoly_begin", [])] + CoeffMessages(f) + [Data("UniPoly_end", [])]
  }

  datatype Run = Run(polys: seq<seq<int>>, rs: seq<int>, ts: seq<Tables>, e: int, log: Log)

  /** The prover's rounds, from the claim e. */
  function ProveRounds(oracle: Oracle, log: Log, e: int, k: nat, ts: seq<Tables>, coeffs: seq<int>,
                       p: Modulus): (run: Run)
    requires Prime(p) && p > 3 && AllSized(ts, Pow2(k)) && |coeffs| == |ts|
    ensures |run.polys| == |run.rs| == k && |run.ts| == |ts| && AllSized(run.ts, 1) && CanonicalV(run.rs, p)
    decreases k
  {
    if k == 0 then Run([], [], ts, e, log) else
    var n := Pow2(k - 1);
    var f := RoundPoly(e, ts, coeffs, n, p);
    var r := Challenge(oracle, PolyLog(log, f), "challenge_nextround", p);
    var rest := ProveRounds(oracle, PolyLog(log, f) + [Draw("challenge_nextround")], Mod(Eval(f, r), p), k - 1,
                            BindAll(ts, n, r, p), coeffs, p);
    Run([Compress(f)] + rest.polys, [r] + rest.rs, rest.ts, rest.e, rest.log)
  }

  /** The verifier's rounds; None when an assertion fails. */
  function VerifyRounds(oracle: Oracle, log: Log, e: int, polys: seq<seq<int>>, degree: nat,
                        p: Modulus): (v: Option<(int, seq<int>, Log)>)
    ensures v.Some? ==> |v.value.1| == |polys|
    decreases |polys|
  {
    if |polys| == 0 then Some((e, [], log)) else
    if |polys[0]| == 0 then None else
    var f := Decompress(polys[0], e, p);
    if |f| - 1 != degree || Mod(f[0] + AtOne(f), p) != e then None else
    var r := Challenge(oracle, PolyLog(log, f), "challenge_nextround", p);
    match VerifyRounds(oracle, PolyLog(log, f) + [Draw("challenge_nextround")], Mod(Eval(f, r), p), polys[1..],
                       degree, p)
    case None => None
    case Some((e', rs, log')) => Some((e', [r] + rs, log'))
  }

  function VerifySumcheck(oracle: Oracle, log: Log, claim: int, polys: seq<seq<int>>, rounds: nat, degree: nat,
                          p: Modulus): Option<(int, seq<int>, Log)> {
    if |polys| != rounds then None else VerifyRounds(oracle, log, claim, polys, degree, p)
  }

  /** Every polynomial is sent as `degree` coefficients, the linear one being left out. */
  predicate Shaped(polys: seq<seq<int>>, degree: nat) {
    forall i :: 0 <= i < |polys| ==> |polys[i]| == degree > 0
  }

  /**
   The verifier's run ends with a value exactly when the counts are right: one polynomial for each
   round, of the expected degree.  Nothing the polynomials say can make it stop.
   */
  lemma AcceptedByShape(oracle: Oracle, log: Log, claim: int, polys: seq<seq<int>>, rounds: nat, degree: nat,
                        p: Modulus)
    requires Canonical(claim, p)
    ensures VerifySumcheck(oracle, log, claim, polys, rounds, degree, p).Some?
      <==> |polys| == rounds && Shaped(polys, degree)
  {
    hide VerifyRounds;
    RoundsByShape(oracle, log, claim, polys, degree, p);
  }

  lemma {:induction false} RoundsByShape(oracle: Oracle, log: Log, e: int, polys: seq<seq<int>>, degree: nat,
                                         p: Modulus)
    requires Canonical(e, p)
    ensures VerifyRounds(oracle, log, e, polys, degree, p).Some? <==> Shaped(polys, degree)
    decreases |polys|
  {
    hide Mod, Eval, Sum, PolyLog;
    if |polys| == 0 {
    } else if |polys[0]| != degree || degree == 0 {
    } else {
      DecompressMeetsHint(polys[0], e, p);
      var f := Decompress(polys[0], e, p);
      var r := Challenge(oracle, PolyLog(log, f), "challenge_nextround", p);
      RoundsByShape(oracle, PolyLog(log, f) + [Draw("challenge_nextround")], Mod(Eval(f, r), p), polys[1..], degree, p);
      SameShape(polys, degree);
    }
  }

  lemma SameShape(polys: seq<seq<int>>, degree: nat)
    requires |polys| > 0 && |polys[0]| == degree > 0
    ensures Shaped(polys, degree) <==> Shaped(polys[1..], degree)
  {
    var rest := polys[1..];
    if Shaped(rest, degree) {
      forall i | 0 <= i < |polys| ensures |polys[i]| == degree {
        assert i > 0 ==> polys[i] == rest[i - 1];
      }
    }
  }

  // ---------- the round polynomial is a cubic ----------

  function AddPoly(f: Poly, g: Poly): (h: Poly)
    requires |f| == |g| == 4
    ensures |h| == 4
  {
    [f[0] + g[0], f[1] + g[1], f[2] + g[2], f[3] + g[3]]
  }

  function ScalePoly(x: int, f: Poly): (h: Poly)
    requires |f| == 4
    ensures |h| == 4
  {
    [x * f[0], x * f[1], x * f[2], x * f[3]]
  }

  lemma EvalAdd(f: Poly, g: Poly, x: int)
    requires |f| == |g| == 4
    ensures Eval(AddPoly(f, g), x) == Eval(f, x) + Eval(g, x)
  {
    hide Eval;
    EvalCubic(f, x);
    EvalCubic(g, x);
    EvalCubic(AddPoly(f, g), x);
    AddHorner(f[0], f[1], f[2], f[3], g[0], g[1], g[2], g[3], x);
  }

  lemma AddHorner(f0: int, f1: int, f2: int, f3: int, g0: int, g1: int, g2: int, g3: int, x: int)
    ensures (f0 + g0) + x * ((f1 + g1) + x * ((f2 + g2) + x * (f3 + g3)))
         == (f0 + x * (f1 + x * (f2 + x * f3))) + (g0 + x * (g1 + x * (g2 + x * g3)))
  {
  }

  lemma EvalScale(y: int, f: Poly, x: int)
    requires |f| == 4
    ensures Eval(ScalePoly(y, f), x) == y * Eval(f, x)
  {
    hide Eval;
    EvalCubic(f, x);
    EvalCubic(ScalePoly(y, f), x);
    ScaleHorner(y, f[0], f[1], f[2], f[3], x, Eval(f, x));
  }

  lemma ScaleHorner(y: int, f0: int, f1: int, f2: int, f3: int, x: int, v: int)
    requires v == f0 + x * (f1 + x * (f2 + x * f3))
    ensures (y * f0) + x * ((y * f1) + x * ((y * f2) + x * (y * f3))) == y * v
  {
  }

  /** The product of three lines, as a cubic. */
  function TermPoly(a: int, a': int, b: int, b': int, c: int, c': int): (f: Poly)
    ensures |f| == 4
  {
    var u, v, w := a' - a, b' - b, c' - c;
    [a * b * c, u * b * c + a * v * c + a * b * w, u * v * c + u * b * w + a * v * w, u * v * w]
  }

  lemma EvalTerm(a: int, a': int, b: int, b': int, c: int, c': int, x: int)
    ensures Eval(TermPoly(a, a', b, b', c, c'), x) == Line(a, a', x) * Line(b, b', x) * Line(c, c', x)
  {
    hide Eval;
    EvalCubic(TermPoly(a, a', b, b', c, c'), x);
    LinesProduct(a, a' - a, b, b' - b, c, c' - c, x);
  }

  lemma LinesProduct(a: int, u: int, b: int, v: int, c: int, w: int, x: int)
    ensures (a + x * u) * (b + x * v) * (c + x * w)
         == a * b * c + x * ((u * b * c + a * v * c + a * b * w) +
                             x * ((u * v * c + u * b * w + a * v * w) + x * (u * v * w)))
  {
    var d0, d1, d2 := a * b, u * b + a * v, u * v;
    TwoLines(a, u, b, v, x);
    ThirdLine(d0, d1, d2, c, w, x);
    Coefficients(a, u, b, v, c, w);
    var q := (a + x * u) * (b + x * v);
    assert q * (c + x * w) == (d0 + x * (d1 + x * d2)) * (c + x * w);
  }

  lemma TwoLines(a: int, u: int, b: int, v: int, x: int)
    ensures (a + x * u) * (b + x * v) == a * b + x * ((u * b + a * v) + x * (u * v))
  {
  }

  lemma ThirdLine(d0: int, d1: int, d2: int, c: int, w: int, x: int)
    ensures (d0 + x * (d1 + x * d2)) * (c + x * w)
         == d0 * c + x * ((d1 * c + d0 * w) + x * ((d2 * c + d1 * w) + x * (d2 * w)))
  {
  }

  lemma Coefficients(a: int, u: int, b: int, v: int, c: int, w: int)
    ensures (u * b + a * v) * c + (a * b) * w == u * b * c + a * v * c + a * b * w
    ensures (u * v) * c + (u * b + a * v) * w == u * v * c + u * b * w + a * v * w
  {
  }

  ghost function SumPoly(t: Tables, n: nat, i: nat): (f: Poly)
    requires Sized(t, 2 * n) && i <= n
    ensures |f| == 4
  {
    if i == 0 then [0, 0, 0, 0] else
    var j := i - 1;
    AddPoly(SumPoly(t, n, j), TermPoly(t.A[j], t.A[n + j], t.B[j], t.B[n + j], t.C[j], t.C[n + j]))
  }

  lemma {:induction false} EvalSum(t: Tables, n: nat, i: nat, x: int)
    requires Sized(t, 2 * n) && i <= n
    ensures Eval(SumPoly(t, n, i), x) == RoundSum(t, n, i, x)
  {
    hide Eval, TermPoly, Line;
    if i == 0 {
      ZeroPoly(x);
    } else {
      var j := i - 1;
      EvalSum(t, n, j, x);
      EvalTerm(t.A[j], t.A[n + j], t.B[j], t.B[n + j], t.C[j], t.C[n + j], x);
      EvalAdd(SumPoly(t, n, j), TermPoly(t.A[j], t.A[n + j], t.B[j], t.B[n + j], t.C[j], t.C[n + j]), x);
    }
  }

  lemma ZeroPoly(x: int)
    ensures Eval([0, 0, 0, 0], x) == 0
  {
    EvalCubic([0, 0, 0, 0], x);
  }

  ghost function BatchPoly(ts: seq<Tables>, coeffs: seq<int>, n: nat): (f: Poly)
    requires AllSized(ts, 2 * n) && |coeffs| == |ts|
    ensures |f| == 4
  {
    if |ts| == 0 then [0, 0, 0, 0] else
    var k := |ts| - 1;
    AddPoly(BatchPoly(ts[..k], coeffs[..k], n), ScalePoly(coeffs[k], SumPoly(ts[k], n, n)))
  }

  lemma {:induction false} EvalBatch(ts: seq<Tables>, coeffs: seq<int>, n: nat, x: int)
    requires AllSized(ts, 2 * n) && |coeffs| == |ts|
    ensures Eval(BatchPoly(ts, coeffs, n), x) == BatchRound(ts, coeffs, n, x)
  {
    hide Eval, SumPoly, RoundSum;
    if |ts| == 0 {
      ZeroPoly(x);
    } else {
      var k := |ts| - 1;
      EvalBatch(ts[..k], coeffs[..k], n, x);
      EvalSum(ts[k], n, n, x);
      EvalScale(coeffs[k], SumPoly(ts[k], n, n), x);
      EvalAdd(BatchPoly(ts[..k], coeffs[..k], n), ScalePoly(coeffs[k], SumPoly(ts[k], n, n)), x);
    }
  }

  // ---------- one round ----------

  /** The values of the round polynomial at 0 and 1 add up to the whole sum. */
  lemma RoundHalves(t: Tables, n: nat)
    requires Sized(t, 2 * n)
    ensures RoundSum(t, n, n, 0) + RoundSum(t, n, n, 1) == Triple(t, 2 * n)
  {
    LowerHalf(t, n, n);
    UpperHalf(t, n, n);
  }

  lemma {:induction false} LowerHalf(t: Tables, n: nat, i: nat)
    requires Sized(t, 2 * n) && i <= n
    ensures RoundSum(t, n, i, 0) == Triple(t, i)
  {
    if i == 0 {
    } else {
      LowerHalf(t, n, i - 1);
      LineEnds(t.A[i - 1], t.A[n + i - 1]);
      LineEnds(t.B[i - 1], t.B[n + i - 1]);
      LineEnds(t.C[i - 1], t.C[n + i - 1]);
    }
  }

  lemma LineEnds(x: int, y: int)
    ensures Line(x, y, 0) == x && Line(x, y, 1) == y
  {
  }

  lemma {:induction false} UpperHalf(t: Tables, n: nat, i: nat)
    requires Sized(t, 2 * n) && i <= n
    ensures Triple(t, n) + RoundSum(t, n, i, 1) == Triple(t, n + i)
  {
    if i == 0 {
    } else {
      UpperHalf(t, n, i - 1);
      LineEnds(t.A[i - 1], t.A[n + i - 1]);
      LineEnds(t.B[i - 1], t.B[n + i - 1]);
      LineEnds(t.C[i - 1], t.C[n + i - 1]);
    }
  }

  lemma {:induction false} BatchHalves(ts: seq<Tables>, coeffs: seq<int>, n: nat)
    requires AllSized(ts, 2 * n) && |coeffs| == |ts|
    ensures BatchRound(ts, coeffs, n, 0) + BatchRound(ts, coeffs, n, 1) == BatchTriple(ts, coeffs, 2 * n)
  {
    hide RoundSum, Triple;
    if |ts| == 0 {
    } else {
      var k := |ts| - 1;
      BatchHalves(ts[..k], coeffs[..k], n);
      RoundHalves(ts[k], n);
      AddScaled(coeffs[k], RoundSum(ts[k], n, n, 0), RoundSum(ts[k], n, n, 1), Triple(ts[k], 2 * n));
    }
  }

  lemma AddScaled(c: int, x: int, y: int, z: int)
    requires x + y == z
    ensures c * x + c * y == c * z
  {
  }

  /** The value at r is the sum over the tables bound to r. */
  lemma {:induction false} RoundIsBound(t: Tables, n: nat, i: nat, r: int, p: Modulus)
    requires Sized(t, 2 * n) && i <= n
    ensures Cong(Triple(BindTables(t, n, r, p), i), RoundSum(t, n, i, r), p)
  {
    hide Mod, Bind, Line;
    if i == 0 {
    } else {
      var j := i - 1;
      RoundIsBound(t, n, j, r, p);
      var b := BindTables(t, n, r, p);
      BindAt(t.A, n, r, j, p);
      BindAt(t.B, n, r, j, p);
      BindAt(t.C, n, r, j, p);
      ProductOfMods(Line(t.A[j], t.A[n + j], r), Line(t.B[j], t.B[n + j], r), Line(t.C[j], t.C[n + j], r),
                    b.A[j], b.B[j], b.C[j], p);
      CongSum(Triple(b, i), RoundSum(t, n, i, r), Triple(b, j), RoundSum(t, n, j, r), b.A[j] * b.B[j] * b.C[j],
              RoundTerm(t, n, j, r), p);
    }
  }

  lemma ProductOfMods(x: int, y: int, z: int, x': int, y': int, z': int, p: Modulus)
    requires x' == Mod(x, p) && y' == Mod(y, p) && z' == Mod(z, p)
    ensures Cong(x' * y' * z', x * y * z, p)
  {
    hide Mod;
    ModCong(x, p);
    ModCong(y, p);
    ModCong(z, p);
    CongMul(x', x, y', y, p);
    CongMul(x' * y', x * y, z', z, p);
  }

  lemma {:induction false} BatchIsBound(ts: seq<Tables>, coeffs: seq<int>, n: nat, r: int, p: Modulus)
    requires AllSized(ts, 2 * n) && |coeffs| == |ts|
    ensures Cong(BatchTriple(BindAll(ts, n, r, p), coeffs, n), BatchRound(ts, coeffs, n, r), p)
  {
    hide Mod, RoundSum, Triple, BindTables;
    if |ts| == 0 {
    } else {
      var k := |ts| - 1;
      BatchIsBound(ts[..k], coeffs[..k], n, r, p);
      assert BindAll(ts, n, r, p)[..k] == BindAll(ts[..k], n, r, p);
      RoundIsBound(ts[k], n, n, r, p);
      var b := BindTables(ts[k], n, r, p);
      CongScale(coeffs[k], Triple(b, n), RoundSum(ts[k], n, n, r), p);
      CongSum(BatchTriple(BindAll(ts, n, r, p), coeffs, n), BatchRound(ts, coeffs, n, r),
              BatchTriple(BindAll(ts[..k], n, r, p), coeffs[..k], n), BatchRound(ts[..k], coeffs[..k], n, r),
              coeffs[k] * Triple(b, n), coeffs[k] * RoundSum(ts[k], n, n, r), p);
    }
  }
}
