/**
 Soundness of the sum-check against any prover: a wrong claim that ends in a right value passed through a
 round whose challenge is a point where two different cubics meet, and two cubics meet in at most three.
 */
module SumcheckSound {
  import opened PowersOfTwo
  import opened PrimeField
  import opened Vectors
  import opened Roots
  import opened Transcript
  import opened Multilinear
  import opened UniPoly
  import opened SumcheckSpec
  import opened SumcheckRun
  import opened SumcheckTrace

  /** Two polynomials that differ in the field take the same value at x. */
  ghost predicate Coincide(f: Poly, g: Poly, x: int, p: Modulus) {
    |f| == |g| && !CongV(f, g, p) && Cong(Eval(f, x), Eval(g, x), p)
  }

  /** Different polynomials of n coefficients coincide at fewer than n points. */
  lemma FewCoincide(f: Poly, g: Poly, xs: seq<int>, p: Modulus)
    requires Prime(p) && Distinct(xs) && CanonicalV(xs, p) && |f| == |g| && !CongV(f, g, p)
    requires forall i :: 0 <= i < |xs| ==> Coincide(f, g, xs[i], p)
    ensures |xs| < |f|
  {
    hide Mod, Eval;
    var d := Lin(1, f, -1, g);
    forall i | 0 <= i < |xs| ensures Root(d, xs[i], p) {
      EvalMinus(f, g, xs[i]);
      DifferenceZero(Eval(f, xs[i]), Eval(g, xs[i]), p);
    }
    if AllZero(d, p) {
      forall i | 0 <= i < |f| ensures Cong(f[i], g[i], p) {
        assert d[i] == f[i] - g[i];
        DifferenceZero(f[i], g[i], p);
      }
    }
    RootBound(d, xs, p);
  }

  // ---------- one round ----------

  /** A wrong claim becomes a wrong claim, or the challenge is a meeting point. */
  lemma RoundSound(e: int, f: Poly, ts: seq<Tables>, coeffs: seq<int>, n: nat, r: int, p: Modulus)
    requires AllSized(ts, 2 * n) && |coeffs| == |ts| && |f| == 4 && Cong(Eval(f, 0) + Eval(f, 1), e, p)
    requires !Cong(e, BatchTriple(ts, coeffs, 2 * n), p)
    ensures Coincide(f, BatchPoly(ts, coeffs, n), r, p) ||
            !Cong(Mod(Eval(f, r), p), BatchTriple(BindAll(ts, n, r, p), coeffs, n), p)
  {
    hide Mod, Eval, BatchPoly, BatchRound, BatchTriple, BindAll;
    var g := BatchPoly(ts, coeffs, n);
    EvalBatch(ts, coeffs, n, 0);
    EvalBatch(ts, coeffs, n, 1);
    EvalBatch(ts, coeffs, n, r);
    BatchHalves(ts, coeffs, n);
    BatchIsBound(ts, coeffs, n, r, p);
    ModCong(Eval(f, r), p);
    if CongV(f, g, p) {
      EvalCong(f, g, 0, p);
      EvalCong(f, g, 1, p);
      CongSum(Eval(f, 0) + Eval(f, 1), BatchTriple(ts, coeffs, 2 * n), Eval(f, 0), Eval(g, 0), Eval(f, 1), Eval(g, 1),
              p);
    }
  }

  // ---------- all rounds ----------

  /** The tables with their top variables set to the drawn challenges. */
  function BoundTo(ts: seq<Tables>, k: nat, rs: seq<int>, p: Modulus): (r: seq<Tables>)
    requires AllSized(ts, Pow2(k)) && |rs| <= k
    ensures |r| == |ts| && AllSized(r, Pow2(k - |rs|))
    decreases k
  {
    if |rs| == 0 then ts else BoundTo(BindAll(ts, Pow2(k - 1), rs[0], p), k - 1, rs[1..], p)
  }

  /** The polynomial of the round after the challenges rs. */
  ghost function HonestPoly(ts: seq<Tables>, coeffs: seq<int>, k: nat, rs: seq<int>, p: Modulus): (f: Poly)
    requires AllSized(ts, Pow2(k)) && |rs| < k && |coeffs| == |ts|
    ensures |f| == 4
  {
    BatchPoly(BoundTo(ts, k, rs, p), coeffs, Pow2(k - |rs| - 1))
  }

  /** The algebra of a run's rounds, without the transcript. */
  ghost predicate ChainHolds(t: Rounds, p: Modulus) {
    Counted(t) && forall j :: 0 <= j < |t.fs| ==> LinkHolds(t.fs[j], t.es[j], t.rs[j], t.es[j + 1], p)
  }

  ghost predicate LinkHolds(f: Poly, e: int, r: int, e': int, p: Modulus) {
    |f| == 4 && Cong(Eval(f, 0) + Eval(f, 1), e, p) && e' == Mod(Eval(f, r), p)
  }

  lemma ChainOfRounds(oracle: Oracle, log: Log, t: Rounds, p: Modulus)
    requires RoundsHold(oracle, log, t, 3, p)
    ensures ChainHolds(t, p)
  {
    hide Mod, Eval, RunMessages;
    forall j | 0 <= j < |t.fs| ensures LinkHolds(t.fs[j], t.es[j], t.rs[j], t.es[j + 1], p) {
      assert RoundHolds(oracle, log, t, 3, j, p);
    }
  }

  function Later(t: Rounds): Rounds
    requires Counted(t) && |t.fs| > 0
  {
    Rounds(t.polys[1..], t.fs[1..], t.es[1..], t.rs[1..])
  }

  lemma ChainLater(t: Rounds, p: Modulus)
    requires ChainHolds(t, p) && |t.fs| > 0
    ensures ChainHolds(Later(t), p) && LinkHolds(t.fs[0], t.es[0], t.rs[0], t.es[1], p)
  {
    hide LinkHolds;
    var u := Later(t);
    forall j | 0 <= j < |u.fs| ensures LinkHolds(u.fs[j], u.es[j], u.rs[j], u.es[j + 1], p) {
      assert LinkHolds(t.fs[j + 1], t.es[j + 1], t.rs[j + 1], t.es[j + 2], p);
    }
  }

  /** Round j's challenge is a meeting point of what was sent and the true polynomial of that round. */
  ghost predicate LuckyRound(ts: seq<Tables>, coeffs: seq<int>, k: nat, t: Rounds, j: nat, p: Modulus)
    requires AllSized(ts, Pow2(k)) && |coeffs| == |ts| && Counted(t) && |t.fs| == k && j < k
  {
    Coincide(t.fs[j], HonestPoly(ts, coeffs, k, t.rs[..j], p), t.rs[j], p)
  }

  ghost predicate LuckyRun(ts: seq<Tables>, coeffs: seq<int>, k: nat, t: Rounds, p: Modulus)
    requires AllSized(ts, Pow2(k)) && |coeffs| == |ts| && Counted(t) && |t.fs| == k
  {
    exists j :: 0 <= j < k && LuckyRound(ts, coeffs, k, t, j, p)
  }

  lemma LuckyLater(ts: seq<Tables>, coeffs: seq<int>, k: nat, t: Rounds, j: nat, p: Modulus)
    requires AllSized(ts, Pow2(k)) && |coeffs| == |ts| && Counted(t) && |t.fs| == k > 0 && j < k - 1
    requires LuckyRound(BindAll(ts, Pow2(k - 1), t.rs[0], p), coeffs, k - 1, Later(t), j, p)
    ensures LuckyRound(ts, coeffs, k, t, j + 1, p)
  {
    hide Mod, Eval, BatchPoly, BindAll, Coincide;
    assert t.rs[..j + 1][1..] == t.rs[1..][..j];
    assert t.rs[..j + 1][0] == t.rs[0];
  }

  lemma HalfTables(ts: seq<Tables>, k: nat, r: int, p: Modulus)
    requires AllSized(ts, Pow2(k)) && k > 0
    ensures Pow2(k) == 2 * Pow2(k - 1) && AllSized(ts, 2 * Pow2(k - 1))
    ensures AllSized(BindAll(ts, Pow2(k - 1), r, p), Pow2(k - 1))
  {
  }

  lemma BoundFirst(ts: seq<Tables>, k: nat, rs: seq<int>, p: Modulus)
    requires AllSized(ts, Pow2(k)) && |rs| == k
    ensures AllSized(BoundTo(ts, k, rs, p), 1)
    ensures k == 0 ==> BoundTo(ts, k, rs, p) == ts && Pow2(k) == 1
    ensures k > 0 ==>
      Pow2(k) == 2 * Pow2(k - 1) &&
      BoundTo(ts, k, rs, p) == BoundTo(BindAll(ts, Pow2(k - 1), rs[0], p), k - 1, rs[1..], p)
  {
    hide BindAll;
  }

  /** A wrong claim stays wrong to the end, or some round was lucky. */
  lemma {:induction false} ChainSound(ts: seq<Tables>, coeffs: seq<int>, k: nat, t: Rounds, p: Modulus)
    requires AllSized(ts, Pow2(k)) && |coeffs| == |ts| && ChainHolds(t, p) && Counted(t) && |t.fs| == k
    requires !Cong(t.es[0], BatchTriple(ts, coeffs, Pow2(k)), p)
    ensures AllSized(BoundTo(ts, k, t.rs, p), 1)
    ensures !Cong(t.es[k], BatchTriple(BoundTo(ts, k, t.rs, p), coeffs, 1), p) || LuckyRun(ts, coeffs, k, t, p)
    decreases k
  {
    hide Mod, Cong, Eval, BatchPoly, BatchTriple, BindAll, LuckyRun, ChainHolds, BoundTo, Pow2, AllSized, Coincide;
    BoundFirst(ts, k, t.rs, p);
    if k == 0 {
    } else {
      var n := Pow2(k - 1);
      HalfTables(ts, k, t.rs[0], p);
      ChainLater(t, p);
      RoundSound(t.es[0], t.fs[0], ts, coeffs, n, t.rs[0], p);
      if Coincide(t.fs[0], BatchPoly(ts, coeffs, n), t.rs[0], p) {
        FirstLucky(ts, coeffs, k, t, p);
        LuckyFound(ts, coeffs, k, t, 0, p);
      } else {
        var ts' := BindAll(ts, n, t.rs[0], p);
        ChainSound(ts', coeffs, k - 1, Later(t), p);
        RunLater(ts, coeffs, k, t, p);
      }
    }
  }

  lemma LuckyFound(ts: seq<Tables>, coeffs: seq<int>, k: nat, t: Rounds, j: nat, p: Modulus)
    requires AllSized(ts, Pow2(k)) && |coeffs| == |ts| && Counted(t) && |t.fs| == k && j < k
    requires LuckyRound(ts, coeffs, k, t, j, p)
    ensures LuckyRun(ts, coeffs, k, t, p)
  {
    hide LuckyRound, Pow2;
  }

  lemma RunLater(ts: seq<Tables>, coeffs: seq<int>, k: nat, t: Rounds, p: Modulus)
    requires AllSized(ts, Pow2(k)) && |coeffs| == |ts| && Counted(t) && |t.fs| == k > 0
    requires AllSized(ts, 2 * Pow2(k - 1))
    ensures LuckyRun(BindAll(ts, Pow2(k - 1), t.rs[0], p), coeffs, k - 1, Later(t), p) ==>
      LuckyRun(ts, coeffs, k, t, p)
  {
    hide LuckyRound, Pow2, BindAll, AllSized;
    var ts' := BindAll(ts, Pow2(k - 1), t.rs[0], p);
    if LuckyRun(ts', coeffs, k - 1, Later(t), p) {
      var j :| 0 <= j < k - 1 && LuckyRound(ts', coeffs, k - 1, Later(t), j, p);
      LuckyLater(ts, coeffs, k, t, j, p);
    }
  }

  lemma FirstLucky(ts: seq<Tables>, coeffs: seq<int>, k: nat, t: Rounds, p: Modulus)
    requires AllSized(ts, Pow2(k)) && |coeffs| == |ts| && Counted(t) && |t.fs| == k > 0
    requires Coincide(t.fs[0], BatchPoly(ts, coeffs, Pow2(k - 1)), t.rs[0], p)
    ensures LuckyRound(ts, coeffs, k, t, 0, p)
  {
    hide Mod, Eval, BatchPoly, BindAll, Coincide;
    assert t.rs[..0] == [];
  }

  /**
   Soundness: when the verifier accepts any polynomials for a claim and ends with the value the bound tables
   really have, the claim was the true sum, or some challenge was a meeting point of the polynomial sent and
   the true one.
   */
  lemma SumcheckSoundness(oracle: Oracle, log: Log, claim: int, polys: seq<seq<int>>, ts: seq<Tables>,
                          coeffs: seq<int>, k: nat, p: Modulus) returns (t: Rounds)
    requires AllSized(ts, Pow2(k)) && |coeffs| == |ts| && Canonical(claim, p)
    requires VerifySumcheck(oracle, log, claim, polys, k, 3, p).Some?
    ensures t == TraceOf(oracle, log, claim, polys, p) && t.polys == polys && |polys| == k
    ensures RoundsHold(oracle, log, t, 3, p)
    ensures VerifySumcheck(oracle, log, claim, polys, k, 3, p) == Some((t.es[k], t.rs, log + RunMessages(t.fs)))
    ensures Cong(t.es[k], BatchTriple(BoundTo(ts, k, t.rs, p), coeffs, 1), p) ==>
      Cong(claim, BatchTriple(ts, coeffs, Pow2(k)), p) || LuckyRun(ts, coeffs, k, t, p)
  {
    hide Mod, BatchTriple, VerifyRounds, RoundsHold, RunMessages, LuckyRun, Pow2, ChainHolds, TraceOf;
    t := RunTrace(oracle, log, claim, polys, 3, p);
    RoundsCounted(oracle, log, t, 3, p);
    ChainOfRounds(oracle, log, t, p);
    if !Cong(claim, BatchTriple(ts, coeffs, Pow2(k)), p) {
      ChainSound(ts, coeffs, k, t, p);
    }
  }

  /** Fewer than four challenges of a round are meeting points of a given wrong polynomial. */
  lemma FewLuckyChallenges(ts: seq<Tables>, coeffs: seq<int>, k: nat, rs: seq<int>, f: Poly, xs: seq<int>, p: Modulus)
    requires Prime(p) && AllSized(ts, Pow2(k)) && |coeffs| == |ts| && |rs| < k && |f| == 4
    requires Distinct(xs) && CanonicalV(xs, p) && !CongV(f, HonestPoly(ts, coeffs, k, rs, p), p)
    requires forall i :: 0 <= i < |xs| ==> Coincide(f, HonestPoly(ts, coeffs, k, rs, p), xs[i], p)
    ensures |xs| <= 3
  {
    hide HonestPoly, Coincide, CongV;
    FewCoincide(f, HonestPoly(ts, coeffs, k, rs, p), xs, p);
  }

  lemma {:induction false} BoundEntries(ts: seq<Tables>, k: nat, rs: seq<int>, i: nat, p: Modulus)
    requires AllSized(ts, Pow2(k)) && |rs| == k && i < |ts|
    ensures BoundTo(ts, k, rs, p)[i] == Tables([Mle(ts[i].A, rs, p)], [Mle(ts[i].B, rs, p)], [Mle(ts[i].C, rs, p)])
    decreases k
  {
    hide Mod, Bind;
    if k == 0 {
      assert ts[i].A == [ts[i].A[0]] && ts[i].B == [ts[i].B[0]] && ts[i].C == [ts[i].C[0]];
    } else {
      BoundEntries(BindAll(ts, Pow2(k - 1), rs[0], p), k - 1, rs[1..], i, p);
    }
  }
}
