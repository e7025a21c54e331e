/**
 What the product proofs' verifiers do with a wrong claim: the prover's run from it is rejected, except when
 a sum-check challenge of the first layer is 0, 2 or 3.
 */
module ProductExact {
  import opened PowersOfTwo
  import opened PrimeField
  import opened Vectors
  import opened Tensor
  import opened Transcript
  import opened Multilinear
  import opened SumcheckSpec
  import opened SumcheckRun
  import opened ProductTree
  import opened ProductBatch

  /** Some challenge is one of the three at which a wrong claim survives a round. */
  predicate Lucky(rs: seq<int>) {
    exists j :: 0 <= j < |rs| && (rs[j] == 0 || rs[j] == 2 || rs[j] == 3)
  }

  // ---------- one layer of one circuit ----------

  /** The layer's two checks, for a claim that may be wrong. */
  lemma LayerCaught(oracle: Oracle, log: Log, claim: int, rand: seq<int>, l: Layer, p: Modulus)
    requires Prime(p) && p > 3 && |l.left| == |l.right| == Pow2(|rand|) && CanonicalLayer(l, p) && Canonical(claim, p)
    ensures var run := LayerRun(oracle, log, claim, rand, l, p);
      var a, b := Mle(l.left, run.rs, p), Mle(l.right, run.rs, p);
      run.ts[0].A[0] == a && run.ts[0].B[0] == b &&
      VerifySumcheck(oracle, log, claim, run.polys, |rand|, 3, p) == Some((run.e, run.rs, run.log)) &&
      (Mod(a * b * EqEval(rand, run.rs, p), p) == run.e <==> claim == Mle(Products(l, p), rand, p) || Lucky(run.rs))
  {
    hide Mod, Dot, EqTable, Triple, Mle, EqEval, ProveRounds, VerifySumcheck, BatchTriple, ErrorFactor, Pow2;
    var t, n := Tables(l.left, l.right, EqTable(rand, p)), Pow2(|rand|);
    var run := LayerRun(oracle, log, claim, rand, l, p);
    RunVerdict(oracle, log, claim, |rand|, [t], [1], p);
    ClaimCaught(oracle, log, claim, |rand|, [t], [1], p);
    BoundTables(oracle, log, claim, |rand|, [t], [1], 0, p);
    assert run.ts == [run.ts[0]];
    var a, b, c := Mle(t.A, run.rs, p), Mle(t.B, run.rs, p), Mle(t.C, run.rs, p);
    FinalTriple(run.ts[0], a, b, c);
    EqClaim(rand, run.rs, p);
    CongScale(a * b, c, EqEval(rand, run.rs, p), p);
    LayerSum(l, rand, p);
    MleCanonical(Products(l, p), rand, p);
    SameClass(run.e, a * b * c, a * b * EqEval(rand, run.rs, p), p);
    SameClass(claim, BatchTriple([t], [1], n), Mle(Products(l, p), rand, p), p);
    CanonicalIs(Mle(Products(l, p), rand, p), p);
  }

  lemma SameClass(x: int, y: int, z: int, p: Modulus)
    requires Canonical(x, p) && Cong(y, z, p)
    ensures Cong(x, y, p) <==> Mod(z, p) == x
  {
    CanonicalIs(x, p);
  }

  /** One layer, proved from any claim: the verifier goes on to the reduced claim, which is right, or stops. */
  lemma LayerExact(oracle: Oracle, log: Log, claim: int, rand: seq<int>, l: Layer, proofs: seq<LayerProof>, p: Modulus)
    requires Prime(p) && p > 3 && |l.left| == |l.right| == Pow2(|rand|) && CanonicalLayer(l, p) && Canonical(claim, p)
    ensures var red := ProveLayer(oracle, log, claim, rand, l, p);
      red.claim == Mle(l.left + l.right, red.rand, p) &&
      VerifyLayers(oracle, log, claim, rand, [red.pf] + proofs, p) ==
        if claim == Mle(Products(l, p), rand, p) || Lucky(red.rand[1..])
        then VerifyLayers(oracle, red.log, red.claim, red.rand, proofs, p) else None
  {
    hide Mod, Mle, EqEval, LayerRun, VerifySumcheck, Mix, Products, VerifyLayers, CanonicalLayer, Pow2, Lucky;
    var run := LayerRun(oracle, log, claim, rand, l, p);
    var a, b := run.ts[0].A[0], run.ts[0].B[0];
    LayerCaught(oracle, log, claim, rand, l, p);
    var red := ProveLayer(oracle, log, claim, rand, l, p);
    assert red.rand[1..] == run.rs;
    MleTop(l, run.rs, Challenge(oracle, ClaimLog(run.log, a, b), "challenge_r_layer", p), p);
    if claim == Mle(Products(l, p), rand, p) || Lucky(run.rs) {
      VerifyLayerStep(oracle, log, claim, rand, LayerProof(run.polys, [a, b]), proofs, run.e, run.rs, run.log, p);
    } else {
      VerifyLayersUnfold(oracle, log, claim, rand, [red.pf] + proofs, p);
      assert ([red.pf] + proofs)[0] == red.pf;
    }
  }

  /** The layered proof from any claim: it stands or falls with the first layer it checks. */
  lemma LayersExact(oracle: Oracle, log: Log, claim: int, rand: seq<int>, ls: seq<Layer>, p: Modulus)
    requires Prime(p) && p > 3 && LayersSized(ls, |rand|) && |ls| >= 1 && Chained(ls, p) && Canonical(claim, p)
    requires forall i :: 0 <= i < |ls| ==> CanonicalLayer(ls[i], p)
    requires var l := ls[|ls| - 1]; |l.left| == |l.right| == Pow2(|rand|)
    ensures var run := ProveLayers(oracle, log, claim, rand, ls, p);
      var first := ProveLayer(oracle, log, claim, rand, ls[|ls| - 1], p);
      InputClaim(run.claim, ls, |rand|, run.rand, p) &&
      VerifyLayers(oracle, log, claim, rand, run.proofs, p) ==
        if claim == Mle(Products(ls[|ls| - 1], p), rand, p) || Lucky(first.rand[1..])
        then Some((run.claim, run.rand, run.log)) else None
  {
    hide Mod, Mle, ProveLayer, ProveLayers, Products, Chained, LayersSized, VerifyLayers, CanonicalLayer, Pow2,
         InputTable, Earlier, Lucky;
    var l := ls[|ls| - 1];
    LastLayer(ls, |rand|, p);
    ProveLayersStep(oracle, log, claim, rand, ls, p);
    var red := ProveLayer(oracle, log, claim, rand, l, p);
    var rest := ProveLayers(oracle, red.log, red.claim, red.rand, Earlier(ls, |rand|), p);
    LayerExact(oracle, log, claim, rand, l, rest.proofs, p);
    if |ls| == 1 {
      ProveNoLayers(oracle, red.log, red.claim, red.rand, Earlier(ls, |rand|), p);
      VerifyNoLayers(oracle, red.log, red.claim, red.rand, p);
      OnlyLayer(ls, |rand|);
    } else {
      EarlierLayers(ls, |rand|, p);
      LayersVerdict(oracle, red.log, red.claim, red.rand, Earlier(ls, |rand|), p);
    }
  }

  /**
   The single tree, for any claimed product: the verifier takes one proof for each layer, and accepts the
   prover's run exactly when the claim is the product.
   */
  lemma TreeExact(oracle: Oracle, log: Log, claim: int, T: seq<int>, k: nat, p: Modulus)
    requires Prime(p) && p > 3 && k >= 1 && |T| == Pow2(k) && CanonicalV(T, p) && Canonical(claim, p)
    ensures var run := ProveLayers(oracle, log, claim, [], Layers(T, k, p), p);
      VerifyTree(oracle, log, claim, k, run.proofs, p) ==
        if claim == Mod(Prod(T), p) then Some((run.claim, run.rand, run.log)) else None
  {
    hide Mod, VerifyLayers, ProveLayers, ProveLayer, Products, Prod;
    var ls := Layers(T, k, p);
    RootIsProduct(T, k, p);
    LayersChained(T, k, p);
    RootClaim(ls[k - 1], p);
    LayersExact(oracle, log, claim, [], ls, p);
    assert |ProveLayer(oracle, log, claim, [], ls[k - 1], p).rand| == 1;
  }

  // ---------- one batched level ----------

  /** The weighted error of a level's claims: what they miss of the sums they stand for. */
  function LevelError(oracle: Oracle, log: Log, claims: seq<int>, rand: seq<int>, ls: seq<Layer>, dots: seq<Tables>,
                      p: Modulus): int
    requires LevelSized(ls, Pow2(|rand|)) && AllSized(dots, Pow2(|rand|)) && |claims| == |ls|
  {
    var n, eq := Pow2(|rand|), EqTable(rand, p);
    var all := LevelClaims(claims, dots, n, p);
    var coeffs := DrawVector(oracle, log, "rand_coeffs_next_layer", |all|, p).0;
    LevelTablesSized(ls, eq, dots, n);
    Dot(all, coeffs) - BatchTriple(LevelTables(ls, eq, dots), coeffs, n)
  }

  /** The sum-check of a level, for claims that may be wrong. */
  lemma LevelCaught(oracle: Oracle, log: Log, claims: seq<int>, rand: seq<int>, ls: seq<Layer>, dots: seq<Tables>,
                    p: Modulus)
    requires Prime(p) && p > 3 && LevelSized(ls, Pow2(|rand|)) && AllSized(dots, Pow2(|rand|)) && |claims| == |ls|
    ensures var n := Pow2(|rand|);
      var run := LevelRun(oracle, log, claims, rand, ls, dots, p);
      var all := LevelClaims(claims, dots, n, p);
      var (coeffs, log0) := DrawVector(oracle, log, "rand_coeffs_next_layer", |all|, p);
      VerifySumcheck(oracle, log0, Mod(Dot(all, coeffs), p), run.polys, |rand|, 3,
                     p) == Some((run.e, run.rs, run.log)) &&
      Canonical(run.e, p) &&
      (Cong(run.e, BatchTriple(run.ts, coeffs, 1), p)
       <==> Cong(LevelError(oracle, log, claims, rand, ls, dots, p), 0, p) || Lucky(run.rs))
  {
    hide Mod, Dot, EqTable, Triple, Mle, ProveRounds, VerifySumcheck, ErrorFactor, BatchTriple, LevelTables,
         LevelClaims, Pow2;
    var n := Pow2(|rand|);
    var ts := LevelTables(ls, EqTable(rand, p), dots);
    LevelTablesSized(ls, EqTable(rand, p), dots, n);
    var run := LevelRun(oracle, log, claims, rand, ls, dots, p);
    var all := LevelClaims(claims, dots, n, p);
    var (coeffs, log0) := DrawVector(oracle, log, "rand_coeffs_next_layer", |all|, p);
    var claim, total := Mod(Dot(all, coeffs), p), BatchTriple(ts, coeffs, n);
    ModCong(Dot(all, coeffs), p);
    RunVerdict(oracle, log0, claim, |rand|, ts, coeffs, p);
    ClaimCaught(oracle, log0, claim, |rand|, ts, coeffs, p);
    DifferenceZero(Dot(all, coeffs), total, p);
  }

  /**
   A level proved from any claims: the verifier accepts it exactly when the weighted error of the claims
   vanishes or a challenge is lucky, and then goes on as the prover does.
   */
  lemma LevelExact(oracle: Oracle, log: Log, claims: seq<int>, rand: seq<int>, ls: seq<Layer>, dots: seq<Tables>,
                   p: Modulus)
    requires Prime(p) && p > 3 && LevelSized(ls, Pow2(|rand|)) && AllSized(dots, Pow2(|rand|)) && |claims| == |ls|
    ensures var lv := ProveLevel(oracle, log, claims, rand, ls, dots, p);
      VerifyLevel(oracle, log, claims, DotValues(dots, Pow2(|rand|), p), rand, lv.layer, lv.dots, p) ==
        if Cong(LevelError(oracle, log, claims, rand, ls, dots, p), 0, p) || Lucky(lv.rand[1..]) then Some(lv)
        else None
  {
    hide Mod, Dot, EqTable, Mle, LevelRun, Pow2, DrawVector, ProdMessages, DotMessages, EqEval, BatchTriple,
         FinalValues, MixAll, VerifySumcheck, DotValues, LevelError, Lucky;
    var n := Pow2(|rand|);
    LevelCaught(oracle, log, claims, rand, ls, dots, p);
    var run := LevelRun(oracle, log, claims, rand, ls, dots, p);
    var lv := ProveLevel(oracle, log, claims, rand, ls, dots, p);
    assert lv.rand[1..] == run.rs;
    var all := LevelClaims(claims, dots, n, p);
    var coeffs := DrawVector(oracle, log, "rand_coeffs_next_layer", |all|, p).0;
    LevelExpected(oracle, log, claims, rand, ls, dots, coeffs, p);
    var values := FinalValues(lv.layer.left, lv.layer.right, EqEval(rand, run.rs, p), lv.dots);
    assert coeffs[..|values|] == coeffs;
    SameClass(run.e, BatchTriple(run.ts, coeffs, 1), Dot(values, coeffs), p);
  }

  /** The right claim about every circuit's layer. */
  function TrueClaims(rand: seq<int>, ls: seq<Layer>, p: Modulus): (v: seq<int>)
    requires LevelSized(ls, Pow2(|rand|))
    ensures |v| == |ls|
  {
    seq(|ls|, i requires 0 <= i < |ls| => Mle(Products(ls[i], p), rand, p))
  }

  lemma {:induction false} DrawPrefix(oracle: Oracle, log: Log, tag: string, m: nat, n: nat, p: Modulus)
    requires m <= n
    ensures DrawVector(oracle, log, tag, n, p).0[..m] == DrawVector(oracle, log, tag, m, p).0
    decreases n
  {
    hide Challenge;
    if m == n {
      var c := DrawVector(oracle, log, tag, n, p).0;
      assert c[..m] == c;
    } else {
      DrawPrefix(oracle, log, tag, m, n - 1, p);
      var c := DrawVector(oracle, log, tag, n - 1, p).0;
      assert DrawVector(oracle, log, tag, n, p).0[..n - 1] == c;
      assert DrawVector(oracle, log, tag, n, p).0[..m] == c[..m];
    }
  }

  lemma TrueRight(rand: seq<int>, ls: seq<Layer>, p: Modulus)
    requires LevelSized(ls, Pow2(|rand|))
    ensures RightClaims(TrueClaims(rand, ls, p), rand, ls, p)
  {
    hide Mle, Products, Pow2;
  }

  /** The weighted error is that of the circuits' claims alone, each with its coefficient. */
  lemma LevelErrorIs(oracle: Oracle, log: Log, claims: seq<int>, rand: seq<int>, ls: seq<Layer>, dots: seq<Tables>,
                     e: int, p: Modulus)
    requires LevelSized(ls, Pow2(|rand|)) && AllSized(dots, Pow2(|rand|)) && |claims| == |ls|
    requires e == Dot(Lin(1, claims, -1, TrueClaims(rand, ls, p)),
                      DrawVector(oracle, log, "rand_coeffs_next_layer", |claims|, p).0)
    ensures Cong(LevelError(oracle, log, claims, rand, ls, dots, p), e, p)
  {
    hide Mod, Dot, EqTable, Triple, Mle, BatchTriple, LevelTables, Pow2, DrawVector, TrueClaims, RightClaims, Lin,
         DotValues;
    var n, eq, m := Pow2(|rand|), EqTable(rand, p), |claims|;
    var right := TrueClaims(rand, ls, p);
    var all, all' := LevelClaims(claims, dots, n, p), LevelClaims(right, dots, n, p);
    var coeffs := DrawVector(oracle, log, "rand_coeffs_next_layer", |all|, p).0;
    var ts := LevelTables(ls, eq, dots);
    LevelTablesSized(ls, eq, dots, n);
    TrueRight(rand, ls, p);
    forall i | 0 <= i < |ts| ensures Cong(Triple(ts[i], n), all'[i], p) {
      LevelSum(right, rand, ls, dots, i, p);
    }
    BatchByValues(ts, coeffs, all', n, p);
    DrawPrefix(oracle, log, "rand_coeffs_next_layer", m, |all|, p);
    var low, high, v := coeffs[..m], coeffs[m..], DotValues(dots, n, p);
    assert coeffs == low + high;
    DotConcat(claims, low, v, high);
    DotConcat(right, low, v, high);
    DotMinus(claims, right, low);
    var total := BatchTriple(ts, coeffs, n);
    CongSub(Dot(all, coeffs), Dot(all, coeffs), total, Dot(all', coeffs), p);
    CongTo(Dot(all, coeffs) - total, Dot(all, coeffs) - Dot(all', coeffs), e, p);
  }

  // ---------- all levels ----------

  /** The batched proof from any claims: it stands or falls with the first level it checks. */
  lemma LevelsExact(oracle: Oracle, log: Log, claims: seq<int>, rand: seq<int>, levels: seq<seq<Layer>>,
                    dots: seq<Tables>, p: Modulus)
    requires Prime(p) && p > 3 && LevelsSized(levels, |claims|, |rand|) && DotsSized(dots, |levels|, |rand|)
    requires LevelsChained(levels, p) && CanonicalLevels(levels, p)
    requires var k := |levels| - 1;
      |levels[k]| == |claims| && LevelSized(levels[k], Pow2(|rand|)) &&
      AllSized(if k == 0 then dots else [], Pow2(|rand|))
    ensures var run := ProveLevels(oracle, log, claims, rand, levels, dots, p);
      var k := |levels| - 1; var here := if k == 0 then dots else [];
      var verdict := VerifyLevels(oracle, log, claims, DotInputs(dots, |levels|, |rand|, p), rand, run.proofs,
                                  run.dots, p);
      if LevelPasses(oracle, log, claims, rand, levels[k], here, p) then
        TableClaims(run.claims, run.rand, levels[0], p) && DotsPublished(run.dots, dots, run.rand, p) &&
        verdict == Some(Followed(run, dots, p))
      else verdict == None
  {
    hide *;
    LevelsExist(dots, |levels|, |rand|);
    var k := |levels| - 1;
    var here := if k == 0 then dots else [];
    CanonicalAt(levels, k, p);
    HereSized(dots, |levels|, |rand|);
    if LevelPasses(oracle, log, claims, rand, levels[k], here, p) {
      if k == 0 {
        InputLevel(oracle, log, claims, rand, levels, dots, p);
      } else {
        UpperLevel(oracle, log, claims, rand, levels, dots, p);
        var lv := ProveLevel(oracle, log, claims, rand, levels[k], [], p);
        var up := UpperLevels(levels, |claims|, |rand|);
        UpperParts(levels, |claims|, |rand|, p);
        LastLevel(up, |claims|, |rand| + 1);
        LevelsAccepted(oracle, lv.log, lv.claims, lv.rand, up, dots, p);
        DotInputsSame(dots, |levels|, |rand|, p);
        var rest := ProveLevels(oracle, lv.log, lv.claims, lv.rand, up, dots, p);
        FollowedSame(rest, [lv.layer] + rest.proofs, dots, p);
      }
    } else {
      LevelsFail(oracle, log, claims, rand, levels, dots, p);
    }
  }

  /** A level that does not pass is rejected. */
  lemma LevelFails(oracle: Oracle, log: Log, claims: seq<int>, rand: seq<int>, ls: seq<Layer>, dots: seq<Tables>,
                   p: Modulus)
    requires Prime(p) && p > 3 && LevelSized(ls, Pow2(|rand|)) && AllSized(dots, Pow2(|rand|)) && |claims| == |ls|
    requires !LevelPasses(oracle, log, claims, rand, ls, dots, p)
    ensures var lv := ProveLevel(oracle, log, claims, rand, ls, dots, p);
      VerifyLevel(oracle, log, claims, DotValues(dots, Pow2(|rand|), p), rand, lv.layer, lv.dots, p) == None
  {
    hide Mod, ProveLevel, VerifyLevel, LevelError, Pow2, LevelSized, AllSized, Lucky;
    LevelExact(oracle, log, claims, rand, ls, dots, p);
  }

  lemma LevelsFail(oracle: Oracle, log: Log, claims: seq<int>, rand: seq<int>, levels: seq<seq<Layer>>,
                   dots: seq<Tables>, p: Modulus)
    requires Prime(p) && p > 3 && LevelsSized(levels, |claims|, |rand|) && DotsSized(dots, |levels|, |rand|)
    requires |levels| >= 1
    requires var k := |levels| - 1;
      |levels[k]| == |claims| && LevelSized(levels[k], Pow2(|rand|)) &&
      AllSized(if k == 0 then dots else [], Pow2(|rand|)) &&
      CanonicalLayers(levels[k], p) &&
      !LevelPasses(oracle, log, claims, rand, levels[k], if k == 0 then dots else [], p)
    ensures var run := ProveLevels(oracle, log, claims, rand, levels, dots, p);
      VerifyLevels(oracle, log, claims, DotInputs(dots, |levels|, |rand|, p), rand, run.proofs, run.dots, p) == None
  {
    hide Mod, Mle, Pow2, ProveLevel, VerifyLevel, LevelsSized, LevelSized, AllSized, DotValues, DotsAt, PairMix,
         CanonicalLayers, DotsSized, DotInputs, LevelPasses, TableClaims;
    var k := |levels| - 1;
    var here := if k == 0 then dots else [];
    HereSized(dots, |levels|, |rand|);
    LevelFails(oracle, log, claims, rand, levels[k], here, p);
    LevelReduced(oracle, log, claims, rand, levels[k], here, p);
    NoneSized(Pow2(|rand|), p);
    var lv := ProveLevel(oracle, log, claims, rand, levels[k], here, p);
    if k == 0 {
      assert DotInputs(dots, 1, |rand|, p) == DotValues(dots, Pow2(|rand|), p) by { InputsHere(dots, |rand|, p); }
      assert ProveLevels(oracle, log, claims, rand, levels, dots, p)
          == BatchRun([lv.layer], lv.dots, lv.claims, lv.rand, lv.log);
      assert |[lv.layer]| == 1 && [lv.layer][0] == lv.layer;
    } else {
      NoDots(lv.dots);
      UpperStep(oracle, log, claims, rand, levels, dots, p);
      var rest := ProveLevels(oracle, lv.log, lv.claims, lv.rand, UpperLevels(levels, |claims|, |rand|), dots, p);
      LevelsShape(oracle, lv.log, lv.claims, lv.rand, UpperLevels(levels, |claims|, |rand|), dots, p);
      VerifyStops(oracle, log, claims, DotInputs(dots, |levels|, |rand|, p), rand, rest.proofs, rest.dots, lv, p);
    }
  }

  lemma InputsHere(dots: seq<Tables>, m: nat, p: Modulus)
    requires DotsSized(dots, 1, m) && AllSized(dots, Pow2(m))
    ensures DotInputs(dots, 1, m, p) == DotValues(dots, Pow2(m), p)
  {
    hide Pow2, DotValues;
  }

  lemma VerifyStops(oracle: Oracle, log: Log, claims: seq<int>, dotClaims: seq<int>, rand: seq<int>,
                    proofs: seq<BatchLayer>, d: DotClaims, lv: Level, p: Modulus)
    requires Prime(p) && |proofs| >= 1 && VerifyLevel(oracle, log, claims, [], rand, lv.layer, NO_DOTS, p) == None
    ensures VerifyLevels(oracle, log, claims, dotClaims, rand, [lv.layer] + proofs, d, p) == None
  {
    hide VerifyLevel, PairMix;
  }

  /** The batched prover's run from any claimed products. */
  function ProveFrom(oracle: Oracle, log: Log, claims: seq<int>, Ts: seq<seq<int>>, k: nat, dots: seq<Tables>,
                     p: Modulus): (run: BatchRun)
    requires Prime(p) && p > 3 && k >= 1 && InputTables(Ts, k, p) && AllSized(dots, Pow2(k - 1)) && |claims| == |Ts|
  {
    LevelsOfShape(Ts, k, p);
    ProveLevels(oracle, log, claims, [], LevelsOf(Ts, k, p), dots, p)
  }

  lemma FromShape(Ts: seq<seq<int>>, k: nat, dots: seq<Tables>, p: Modulus)
    requires k >= 1 && InputTables(Ts, k, p) && AllSized(dots, Pow2(k - 1))
    ensures var levels := LevelsOf(Ts, k, p);
      LevelsSized(levels, |Ts|, 0) && LevelsChained(levels, p) && CanonicalLevels(levels, p) && DotsSized(dots, k, 0) &&
      |levels| == k && levels[0] == LevelOf(Ts, k, 0, p) && levels[k - 1] == LevelOf(Ts, k, k - 1, p) &&
      LevelSized(levels[k - 1], Pow2(0)) && AllSized(if k == 1 then dots else [], Pow2(0)) &&
      DotInputs(dots, k, 0, p) == DotValues(dots, Pow2(k - 1), p)
  {
    hide LevelOf, LevelSized, Pow2, InputTables, LevelsChained, CanonicalLevels, LevelsSized, DotValues;
    LevelsOfShape(Ts, k, p);
    LevelOfSized(Ts, k, k - 1, p);
    HereSized(dots, k, 0);
  }

  lemma FullCount(oracle: Oracle, log: Log, claims: seq<int>, dotClaims: seq<int>, k: nat, proofs: seq<BatchLayer>,
                  d: DotClaims, p: Modulus)
    requires Prime(p) && |proofs| == k
    ensures VerifyBatch(oracle, log, claims, dotClaims, k, proofs, d, p)
         == VerifyLevels(oracle, log, claims, dotClaims, [], proofs, d, p)
  {
  }

  /**
   The batched proof, for any claimed products: the prover's run from them is accepted exactly when their
   errors, weighted by the first coefficients drawn, cancel out.
   */
  lemma BatchExact(oracle: Oracle, log: Log, claims: seq<int>, Ts: seq<seq<int>>, k: nat, dots: seq<Tables>, p: Modulus)
    requires Prime(p) && p > 3 && k >= 1 && InputTables(Ts, k, p) && AllSized(dots, Pow2(k - 1)) && |claims| == |Ts|
    ensures var run := ProveFrom(oracle, log, claims, Ts, k, dots, p);
      var verdict := VerifyBatch(oracle, log, claims, DotValues(dots, Pow2(k - 1), p), k, run.proofs, run.dots, p);
      var coeffs := DrawVector(oracle, log, "rand_coeffs_next_layer", |claims|, p).0;
      if Cong(Dot(Lin(1, claims, -1, ProductBatch.Roots(Ts, p)), coeffs), 0, p) then
        DotsPublished(run.dots, dots, run.rand, p) && verdict == Some(Followed(run, dots, p)) &&
        |run.claims| == |Ts| && |run.rand| == k && (forall i :: 0 <= i < |Ts| ==> run.claims[i] == Mle(Ts[i],
                                                                                                       run.rand, p))
      else verdict == None
  {
    hide Mod, Cong, Mle, ProveLevels, VerifyLevels, LevelsOf, LevelOf, LevelsSized, LevelsChained, CanonicalLevels,
         DotsPublished, Followed, AllSized, DotValues, DotInputs, Pow2, LevelSized, ProductBatch.Roots, TableClaims,
         Dot, Lin, DrawVector, LevelPasses, DotsSized, InputTables, VerifyBatch;
    FromShape(Ts, k, dots, p);
    var levels := LevelsOf(Ts, k, p);
    var here := if k == 1 then dots else [];
    LevelsShape(oracle, log, claims, [], levels, dots, p);
    LevelsExact(oracle, log, claims, [], levels, dots, p);
    FirstLevel(oracle, log, claims, Ts, k, here, p);
    var run := ProveLevels(oracle, log, claims, [], levels, dots, p);
    FullCount(oracle, log, claims, DotValues(dots, Pow2(k - 1), p), k, run.proofs, run.dots, p);
    if LevelPasses(oracle, log, claims, [], levels[k - 1], here, p) {
      InputClaims(Ts, k, run.claims, run.rand, p);
    }
  }

  /** The level above all others has no sum-check round, so only the coefficients can save a wrong claim. */
  lemma FirstLevel(oracle: Oracle, log: Log, claims: seq<int>, Ts: seq<seq<int>>, k: nat, here: seq<Tables>,
                   p: Modulus)
    requires Prime(p) && p > 3 && k >= 1 && InputTables(Ts, k, p) && AllSized(here, Pow2(0)) && |claims| == |Ts|
    requires LevelSized(LevelOf(Ts, k, k - 1, p), Pow2(0))
    ensures LevelPasses(oracle, log, claims, [], LevelOf(Ts, k, k - 1, p), here, p) <==>
      Cong(Dot(Lin(1, claims, -1, ProductBatch.Roots(Ts, p)),
               DrawVector(oracle, log, "rand_coeffs_next_layer", |claims|, p).0), 0,
           p)
  {
    hide Mod, Mle, LevelOf, AllSized, DotValues, Pow2, RightClaims, LevelSized, ProductBatch.Roots, Dot, Lin,
         DrawVector,
         LevelError, InputTables, ProveLevel, VerifyLevel, TrueClaims;
    var ls := LevelOf(Ts, k, k - 1, p);
    RootsRight(Ts, k, p);
    SameClaims(ProductBatch.Roots(Ts, p), [], ls, p);
    var e := Dot(Lin(1, claims, -1, ProductBatch.Roots(Ts, p)),
                 DrawVector(oracle, log, "rand_coeffs_next_layer", |claims|, p).0);
    LevelErrorIs(oracle, log, claims, [], ls, here, e, p);
    LevelExact(oracle, log, claims, [], ls, here, p);
    assert |ProveLevel(oracle, log, claims, [], ls, here, p).rand| == 1;
  }

  lemma SameClaims(claims: seq<int>, rand: seq<int>, ls: seq<Layer>, p: Modulus)
    requires LevelSized(ls, Pow2(|rand|)) && RightClaims(claims, rand, ls, p)
    ensures claims == TrueClaims(rand, ls, p)
  {
    hide Mle, Products, Pow2;
  }
}
