/** What a run of the sum-check proves: completeness, and the exact fate of a wrong claim. */
module SumcheckRun {
  import opened PowersOfTwo
  import opened PrimeField
  import opened Vectors
  import opened Roots
  import opened Transcript
  import opened Multilinear
  import opened UniPoly
  import opened SumcheckSpec

  /** x (x - 2) (x - 3) / 2: zero at 0, 2 and 3, one at 1. */
  function LagrangeOne(p: Modulus): (f: Poly)
    requires Prime(p) && p > 3
    ensures |f| == 4
  {
    TwoSix(p);
    var h := SmallInv(2, p);
    [0, 6 * h, -5 * h, h]
  }

  lemma LagrangeValues(p: Modulus)
    requires Prime(p) && p > 3
    ensures var l := LagrangeOne(p);
      Eval(l, 0) == 0 && Cong(Eval(l, 1), 1, p) && Eval(l, 2) == 0 && Eval(l, 3) == 0
  {
    hide Mod, Eval, SmallInv;
    TwoSix(p);
    SmallInvCancels(2, p);
    var l := LagrangeOne(p);
    EvalCubic(l, 0);
    EvalCubic(l, 1);
    EvalCubic(l, 2);
    EvalCubic(l, 3);
    assert Eval(l, 1) == 2 * SmallInv(2, p);
  }

  /** The factor by which the round's challenge multiplies an error in the claim. */
  lemma LagrangeAt(x: int, t: int, p: Modulus)
    requires Prime(p) && p > 3 && t == x * (x - 2) * (x - 3)
    ensures Cong(2 * Eval(LagrangeOne(p), x), t, p)
  {
    hide Mod, Eval, SmallInv;
    TwoSix(p);
    SmallInvCancels(2, p);
    var h := SmallInv(2, p);
    EvalCubic(LagrangeOne(p), x);
    LagrangeHorner(h, x, t);
    CongMul(2 * h, 1, t, t, p);
    CongSame((2 * h) * t, 1 * t, 2 * Eval(LagrangeOne(p), x), t, p);
  }

  lemma LagrangeHorner(h: int, x: int, t: int)
    requires t == x * (x - 2) * (x - 3)
    ensures 2 * (0 + x * (6 * h + x * (-5 * h + x * h))) == (2 * h) * t
  {
    assert x * (x - 2) * (x - 3) == x * (x * x) - 5 * (x * x) + 6 * x;
    assert x * (6 * h + x * (-5 * h + x * h)) == h * (x * (x * x) - 5 * (x * x) + 6 * x);
  }

  lemma EvalCong(f: Poly, g: Poly, x: int, p: Modulus)
    requires |f| == |g| == 4 && CongV(f, g, p)
    ensures Cong(Eval(f, x), Eval(g, x), p)
  {
    hide Mod, Eval;
    EvalCubic(f, x);
    EvalCubic(g, x);
    HornerCong(f[2], g[2], f[3], g[3], x, p);
    HornerCong(f[1], g[1], f[2] + x * f[3], g[2] + x * g[3], x, p);
    HornerCong(f[0], g[0], f[1] + x * (f[2] + x * f[3]), g[1] + x * (g[2] + x * g[3]), x, p);
  }

  lemma HornerCong(a: int, a': int, b: int, b': int, x: int, p: Modulus)
    requires Cong(a, a', p) && Cong(b, b', p)
    ensures Cong(a + x * b, a' + x * b', p)
  {
    hide Mod;
    CongScale(x, b, b', p);
    CongAdd(a, a', x * b, x * b', p);
  }

  /** The honest round polynomial, plus the claim's error times the Lagrange polynomial of 1. */
  ghost function Shifted(ts: seq<Tables>, coeffs: seq<int>, n: nat, d: int, p: Modulus): (f: Poly)
    requires Prime(p) && p > 3 && AllSized(ts, 2 * n) && |coeffs| == |ts|
    ensures |f| == 4
  {
    AddPoly(BatchPoly(ts, coeffs, n), ScalePoly(d, LagrangeOne(p)))
  }

  lemma EvalShifted(ts: seq<Tables>, coeffs: seq<int>, n: nat, d: int, x: int, p: Modulus)
    requires Prime(p) && p > 3 && AllSized(ts, 2 * n) && |coeffs| == |ts|
    ensures Eval(Shifted(ts, coeffs, n, d, p), x) == BatchRound(ts, coeffs, n, x) + d * Eval(LagrangeOne(p), x)
  {
    hide Eval, BatchPoly, BatchRound, LagrangeOne, AddPoly, ScalePoly;
    EvalBatch(ts, coeffs, n, x);
    EvalScale(d, LagrangeOne(p), x);
    EvalAdd(BatchPoly(ts, coeffs, n), ScalePoly(d, LagrangeOne(p)), x);
  }

  /** The polynomial the prover sends for a claim that is off by d. */
  lemma RoundPolyIs(e: int, ts: seq<Tables>, coeffs: seq<int>, n: nat, d: int, p: Modulus)
    requires Prime(p) && p > 3 && AllSized(ts, 2 * n) && |coeffs| == |ts|
    requires d == e - BatchTriple(ts, coeffs, 2 * n)
    ensures CongV(RoundPoly(e, ts, coeffs, n, p), Shifted(ts, coeffs, n, d, p), p)
  {
    hide Mod, Eval, BatchRound, BatchTriple, LagrangeOne, Shifted, FromEvals;
    var s0, s1, s2, s3 := BatchRound(ts, coeffs, n, 0), BatchRound(ts, coeffs, n, 1), BatchRound(ts, coeffs, n, 2),
                          BatchRound(ts, coeffs, n, 3);
    var e0 := Mod(s0, p);
    var g := Shifted(ts, coeffs, n, d, p);
    BatchHalves(ts, coeffs, n);
    LagrangeValues(p);
    EvalShifted(ts, coeffs, n, d, 0, p);
    EvalShifted(ts, coeffs, n, d, 1, p);
    EvalShifted(ts, coeffs, n, d, 2, p);
    EvalShifted(ts, coeffs, n, d, 3, p);
    assert d * 0 == 0;
    ModCong(s0, p);
    ModCong(s2, p);
    ModCong(s3, p);
    ModCong(e - e0, p);
    CongSub(e, e, e0, s0, p);
    CongScale(d, Eval(LagrangeOne(p), 1), 1, p);
    CongSum(Eval(g, 1), e - s0, s1, s1, d * Eval(LagrangeOne(p), 1), d * 1, p);
    FromEvalsRecovers(g, e0, Mod(e - e0, p), Mod(s2, p), Mod(s3, p), p);
  }

  /** One round multiplies the claim's error by the Lagrange polynomial at the challenge. */
  lemma RoundError(e: int, ts: seq<Tables>, coeffs: seq<int>, n: nat, r: int, d: int, t: int, p: Modulus)
    requires Prime(p) && p > 3 && AllSized(ts, 2 * n) && |coeffs| == |ts|
    requires d == e - BatchTriple(ts, coeffs, 2 * n) && t == d * Eval(LagrangeOne(p), r)
    ensures Cong(Mod(Eval(RoundPoly(e, ts, coeffs, n, p), r), p) - BatchTriple(BindAll(ts, n, r, p), coeffs, n), t, p)
  {
    hide Mod, Eval, BatchRound, BatchTriple, LagrangeOne, RoundPoly, Shifted, BindAll;
    var f, g := RoundPoly(e, ts, coeffs, n, p), Shifted(ts, coeffs, n, d, p);
    RoundPolyIs(e, ts, coeffs, n, d, p);
    EvalCong(f, g, r, p);
    EvalShifted(ts, coeffs, n, d, r, p);
    ModCong(Eval(f, r), p);
    BatchIsBound(ts, coeffs, n, r, p);
    var s := BatchRound(ts, coeffs, n, r);
    CongSub(Mod(Eval(f, r), p), Eval(g, r), BatchTriple(BindAll(ts, n, r, p), coeffs, n), s, p);
    CongTo(Mod(Eval(f, r), p) - BatchTriple(BindAll(ts, n, r, p), coeffs, n), Eval(g, r) - s, t, p);
  }

  /** The product of the rounds' factors. */
  function ErrorFactor(rs: seq<int>, p: Modulus): int
    requires Prime(p) && p > 3
  {
    if |rs| == 0 then 1 else Eval(LagrangeOne(p), rs[0]) * ErrorFactor(rs[1..], p)
  }

  lemma NoFactors(p: Modulus)
    requires Prime(p) && p > 3
    ensures ErrorFactor([], p) == 1
  {
  }

  lemma ErrorFactorCons(r: int, rs: seq<int>, p: Modulus)
    requires Prime(p) && p > 3
    ensures ErrorFactor([r] + rs, p) == Eval(LagrangeOne(p), r) * ErrorFactor(rs, p)
  {
    hide Eval, LagrangeOne;
    assert ([r] + rs)[1..] == rs;
  }

  /**
   Every assertion of the verifier passes on the prover's output, for every claim; the two sides end
   with the same challenges and the same value, which differs from the bound tables' products by the
   claim's error times the product of the rounds' factors.
   */
  lemma {:induction false} RunVerdict(oracle: Oracle, log: Log, e: int, k: nat, ts: seq<Tables>, coeffs: seq<int>,
                                      p: Modulus)
    requires Prime(p) && p > 3 && AllSized(ts, Pow2(k)) && |coeffs| == |ts| && Canonical(e, p)
    ensures var run := ProveRounds(oracle, log, e, k, ts, coeffs, p);
      VerifySumcheck(oracle, log, e, run.polys, k, 3, p) == Some((run.e, run.rs, run.log)) && Canonical(run.e, p) &&
      Cong(run.e - BatchTriple(run.ts, coeffs, 1), (e - BatchTriple(ts, coeffs, Pow2(k))) * ErrorFactor(run.rs, p), p)
    decreases k
  {
    hide Mod, Eval, BatchTriple, LagrangeOne, RoundPoly, BindAll, Decompress, Compress, VerifyRounds, PolyLog,
         ErrorFactor;
    if k == 0 {
      VerifyNothing(oracle, log, e, p);
      NoFactors(p);
    } else {
      var n := Pow2(k - 1);
      var f := RoundPoly(e, ts, coeffs, n, p);
      var r := Challenge(oracle, PolyLog(log, f), "challenge_nextround", p);
      var log' := PolyLog(log, f) + [Draw("challenge_nextround")];
      var e' := Mod(Eval(f, r), p);
      var rest := ProveRounds(oracle, log', e', k - 1, BindAll(ts, n, r, p), coeffs, p);
      RunVerdict(oracle, log', e', k - 1, BindAll(ts, n, r, p), coeffs, p);
      RoundHint(e, ts, coeffs, n, p);
      VerifyOne(oracle, log, e, f, rest.polys, p);
      var d, l := e - BatchTriple(ts, coeffs, 2 * n), Eval(LagrangeOne(p), r);
      RoundError(e, ts, coeffs, n, r, d, d * l, p);
      var x := ErrorFactor(rest.rs, p);
      CongMul(e' - BatchTriple(BindAll(ts, n, r, p), coeffs, n), d * l, x, x, p);
      assert (d * l) * x == d * (l * x);
      ErrorFactorCons(r, rest.rs, p);
    }
  }

  lemma VerifyNothing(oracle: Oracle, log: Log, e: int, p: Modulus)
    ensures VerifyRounds(oracle, log, e, [], 3, p) == Some((e, [], log))
  {
  }

  /** The values of the sent polynomial at 0 and 1 add up to the claim. */
  lemma RoundHint(e: int, ts: seq<Tables>, coeffs: seq<int>, n: nat, p: Modulus)
    requires Prime(p) && p > 3 && AllSized(ts, 2 * n) && |coeffs| == |ts| && Canonical(e, p)
    ensures var f := RoundPoly(e, ts, coeffs, n, p);
      Cong(e, f[0] + AtOne(f), p) && Decompress(Compress(f), e, p) == f && Mod(f[0] + AtOne(f), p) == e
  {
    hide Mod, BatchRound, FromEvals, Compress, Decompress;
    var f := RoundPoly(e, ts, coeffs, n, p);
    var e0 := Mod(BatchRound(ts, coeffs, n, 0), p);
    var e1 := Mod(e - e0, p);
    FromEvalsCoefficients(e0, e1, Mod(BatchRound(ts, coeffs, n, 2), p), Mod(BatchRound(ts, coeffs, n, 3), p), p);
    SumFour(f);
    ModCong(e - e0, p);
    CongAdd(e1, e - e0, f[0], e0, p);
    var x := e1 - f[0] - f[3] - f[2];
    var rest := f[0] + f[2] + f[3];
    CongAdd(x, f[1], rest + f[0], rest + f[0], p);
    CongSame(x + (rest + f[0]), f[1] + (rest + f[0]), e1 + f[0], f[0] + AtOne(f), p);
    CongTo(e1 + f[0], (e - e0) + e0, e, p);
    DecompressCompress(f, e, p);
    CanonicalIs(e, p);
  }

  lemma SumFour(f: Poly)
    requires |f| == 4
    ensures AtOne(f) == f[0] + f[1] + f[2] + f[3]
  {
    assert f[..3][..2] == f[..2] && f[..2][..1] == f[..1] && f[..1][..0] == [];
    assert Sum(f[..1]) == f[0] && Sum(f[..2]) == f[0] + f[1] && Sum(f[..3]) == f[0] + f[1] + f[2];
  }

  lemma VerifyOne(oracle: Oracle, log: Log, e: int, f: Poly, polys: seq<seq<int>>, p: Modulus)
    requires |f| == 4 && Decompress(Compress(f), e, p) == f && Mod(f[0] + AtOne(f), p) == e
    ensures var r := Challenge(oracle, PolyLog(log, f), "challenge_nextround", p);
      var rest := VerifyRounds(oracle, PolyLog(log, f) + [Draw("challenge_nextround")], Mod(Eval(f, r), p), polys, 3,
                               p);
      VerifyRounds(oracle, log, e, [Compress(f)] + polys, 3, p) ==
        match rest
        case None => None
        case Some((e', rs, log')) => Some((e', [r] + rs, log'))
  {
    hide Mod, Eval, Compress, Decompress, PolyLog;
    assert ([Compress(f)] + polys)[1..] == polys;
  }

  // ---------- when a wrong claim survives ----------

  lemma {:induction false} ErrorFactorZero(rs: seq<int>, p: Modulus)
    requires Prime(p) && p > 3 && CanonicalV(rs, p)
    ensures Cong(ErrorFactor(rs, p), 0, p) <==> exists j :: 0 <= j < |rs| && (rs[j] == 0 || rs[j] == 2 || rs[j] == 3)
  {
    hide Eval, LagrangeOne;
    assert Mod(0, p) == 0 && Mod(1, p) == 1;
    if |rs| == 0 {
    } else {
      hide Mod;
      var l, x := Eval(LagrangeOne(p), rs[0]), ErrorFactor(rs[1..], p);
      LagrangeZero(rs[0], p);
      ErrorFactorZero(rs[1..], p);
      if Cong(l * x, 0, p) {
        NoZeroDivisors(l, x, p);
      } else {
        ZeroTimes(l, x, p);
      }
      assert forall j :: 1 <= j < |rs| ==> rs[j] == rs[1..][j - 1];
      assert forall j :: 0 <= j < |rs[1..]| ==> rs[1..][j] == rs[j + 1];
    }
  }

  lemma ZeroTimes(x: int, y: int, p: Modulus)
    ensures Cong(x, 0, p) || Cong(y, 0, p) ==> Cong(x * y, 0, p)
  {
    hide Mod;
    if Cong(x, 0, p) {
      CongMul(x, 0, y, y, p);
    } else if Cong(y, 0, p) {
      CongMul(x, x, y, 0, p);
    }
  }

  lemma LagrangeZero(x: int, p: Modulus)
    requires Prime(p) && p > 3 && Canonical(x, p)
    ensures Cong(Eval(LagrangeOne(p), x), 0, p) <==> x == 0 || x == 2 || x == 3
  {
    hide Eval, LagrangeOne;
    assert Mod(0, p) == 0 && Mod(2, p) == 2;
    SmallZero(x, p);
    hide Mod;
    var l, t := Eval(LagrangeOne(p), x), x * (x - 2) * (x - 3);
    LagrangeAt(x, t, p);
    if Cong(l, 0, p) {
      ZeroTimes(2, l, p);
      NoZeroDivisors(x * (x - 2), x - 3, p);
      if Cong(x * (x - 2), 0, p) {
        NoZeroDivisors(x, x - 2, p);
      }
    } else if x == 0 || x == 2 || x == 3 {
      assert t == 0;
      NoZeroDivisors(2, l, p);
    }
  }

  lemma SmallZero(x: int, p: Modulus)
    requires Canonical(x, p) && p > 3
    ensures Cong(x, 0, p) <==> x == 0
    ensures Cong(x - 2, 0, p) <==> x == 2
    ensures Cong(x - 3, 0, p) <==> x == 3
  {
    hide Mod;
    NearZero(x, p);
    NearZero(x - 2, p);
    NearZero(x - 3, p);
  }

  lemma NearZero(y: int, p: Modulus)
    requires 0 - p < y < p
    ensures Cong(y, 0, p) <==> y == 0
  {
    assert y < 0 ==> Mod(y + p, p) == y + p;
  }

  /**
   The final value is the product of the bound tables exactly when the claim was right or a challenge
   was 0, 2 or 3.
   */
  lemma ClaimCaught(oracle: Oracle, log: Log, e: int, k: nat, ts: seq<Tables>, coeffs: seq<int>, p: Modulus)
    requires Prime(p) && p > 3 && AllSized(ts, Pow2(k)) && |coeffs| == |ts| && Canonical(e, p)
    ensures var run := ProveRounds(oracle, log, e, k, ts, coeffs, p);
      Cong(run.e, BatchTriple(run.ts, coeffs, 1), p) <==>
        Cong(e, BatchTriple(ts, coeffs, Pow2(k)), p) || exists j :: 0 <= j < k &&
                                                                    (run.rs[j] == 0 || run.rs[j] == 2 || run.rs[j] == 3)
  {
    hide Mod, BatchTriple, ErrorFactor, ProveRounds;
    var run := ProveRounds(oracle, log, e, k, ts, coeffs, p);
    RunVerdict(oracle, log, e, k, ts, coeffs, p);
    ErrorFactorZero(run.rs, p);
    var d, x := e - BatchTriple(ts, coeffs, Pow2(k)), ErrorFactor(run.rs, p);
    DifferenceZero(run.e, BatchTriple(run.ts, coeffs, 1), p);
    DifferenceZero(e, BatchTriple(ts, coeffs, Pow2(k)), p);
    ZeroTimes(d, x, p);
    if Cong(d * x, 0, p) {
      NoZeroDivisors(d, x, p);
    }
  }

  lemma DifferenceZero(x: int, y: int, p: Modulus)
    ensures Cong(x, y, p) <==> Cong(x - y, 0, p)
  {
    hide Mod;
    if Cong(x, y, p) {
      CongSub(x, y, y, y, p);
    } else if Cong(x - y, 0, p) {
      CongAdd(x - y, 0, y, y, p);
    }
  }

  // ---------- the bound tables are the multilinear extensions ----------

  lemma {:induction false} BoundTables(oracle: Oracle, log: Log, e: int, k: nat, ts: seq<Tables>, coeffs: seq<int>,
                                       i: nat, p: Modulus)
    requires Prime(p) && p > 3 && AllSized(ts, Pow2(k)) && |coeffs| == |ts| && i < |ts|
    ensures var run := ProveRounds(oracle, log, e, k, ts, coeffs, p);
      run.ts[i] == Tables([Mle(ts[i].A, run.rs, p)], [Mle(ts[i].B, run.rs, p)], [Mle(ts[i].C, run.rs, p)])
    decreases k
  {
    hide Mod, Eval, RoundPoly, Bind, PolyLog;
    if k == 0 {
      assert ts[i].A == [ts[i].A[0]] && ts[i].B == [ts[i].B[0]] && ts[i].C == [ts[i].C[0]];
    } else {
      var n := Pow2(k - 1);
      var f := RoundPoly(e, ts, coeffs, n, p);
      var r := Challenge(oracle, PolyLog(log, f), "challenge_nextround", p);
      var log' := PolyLog(log, f) + [Draw("challenge_nextround")];
      BoundTables(oracle, log', Mod(Eval(f, r), p), k - 1, BindAll(ts, n, r, p), coeffs, i, p);
      var rest := ProveRounds(oracle, log', Mod(Eval(f, r), p), k - 1, BindAll(ts, n, r, p), coeffs, p);
      assert ([r] + rest.rs)[1..] == rest.rs;
    }
  }

  // ---------- one instance ----------

  lemma OneTriple(t: Tables, n: nat)
    requires Sized(t, n)
    ensures BatchTriple([t], [1], n) == Triple(t, n)
  {
    hide Triple;
    assert [t][..0] == [] && [1][..0] == [];
    assert BatchTriple([], [], n) == 0;
  }

  lemma ZeroError(e: int, f: int, claim: int, s: int, x: int, p: Modulus)
    requires Cong(e - f, (claim - s) * x, p) && Cong(s, claim, p)
    ensures Cong(e, f, p)
  {
    hide Mod;
    CongSub(claim, claim, s, claim, p);
    CongMul(claim - s, 0, x, x, p);
    CongAdd(e - f, 0, f, f, p);
  }

  lemma FinalTriple(t: Tables, a: int, b: int, c: int)
    requires t == Tables([a], [b], [c])
    ensures BatchTriple([t], [1], 1) == a * b * c
  {
    OneTriple(t, 1);
    assert Triple(t, 0) == 0;
  }

  /**
   Completeness for one triple of tables: from the true sum every check passes, both sides draw the
   same challenges, and the last claim is the product of the three extensions at the drawn point.
   */
  lemma CubicVerdict(oracle: Oracle, log: Log, e: int, k: nat, t: Tables, p: Modulus)
    requires Prime(p) && p > 3 && Sized(t, Pow2(k)) && Canonical(e, p) && Cong(Triple(t, Pow2(k)), e, p)
    ensures var run := ProveRounds(oracle, log, e, k, [t], [1], p);
      VerifySumcheck(oracle, log, e, run.polys, k, 3, p) == Some((run.e, run.rs, run.log)) && Canonical(run.e, p) &&
      run.ts == [Tables([Mle(t.A, run.rs, p)], [Mle(t.B, run.rs, p)], [Mle(t.C, run.rs, p)])] &&
      Cong(run.e, Mle(t.A, run.rs, p) * Mle(t.B, run.rs, p) * Mle(t.C, run.rs, p), p)
  {
    hide Mod, Mle, ProveRounds, VerifySumcheck, ErrorFactor, BatchTriple, Triple;
    var run := ProveRounds(oracle, log, e, k, [t], [1], p);
    RunVerdict(oracle, log, e, k, [t], [1], p);
    BoundTables(oracle, log, e, k, [t], [1], 0, p);
    OneTriple(t, Pow2(k));
    ZeroError(run.e, BatchTriple(run.ts, [1], 1), e, BatchTriple([t], [1], Pow2(k)), ErrorFactor(run.rs, p), p);
    assert run.ts == [run.ts[0]];
    FinalTriple(run.ts[0], Mle(t.A, run.rs, p), Mle(t.B, run.rs, p), Mle(t.C, run.rs, p));
  }
}
