/**
 Soundness of the batched product proof against any prover: if the claims it ends with are true, every claimed
 product and dot product is, or some challenge was unlucky for the verifier.
 */
module ProductBatchSound {
  import opened PowersOfTwo
  import opened PrimeField
  import opened Vectors
  import Roots
  import opened Tensor
  import opened Transcript
  import opened Multilinear
  import opened UniPoly
  import opened SumcheckSpec
  import opened SumcheckRun
  import opened SumcheckTrace
  import opened SumcheckSound
  import opened ProductTree
  import opened ProductBatch
  import opened ProductExact
  import opened ProductTrace
  import opened ProductBatchTrace
  import opened ProductSound

  // ---------- luck ----------

  /** Two lists that differ in the field have the same weighted sum. */
  ghost predicate LuckyCoeffs(a: seq<int>, b: seq<int>, coeffs: seq<int>, p: Modulus) {
    |a| == |b| == |coeffs| && !CongV(a, b, p) && Cong(Dot(a, coeffs), Dot(b, coeffs), p)
  }

  /** Where two lists differ, at most one value of that coefficient is lucky, the others being given. */
  lemma OneLuckyCoefficient(a: seq<int>, b: seq<int>, coeffs: seq<int>, i: nat, x: int, p: Modulus)
    requires Prime(p) && LuckyCoeffs(a, b, coeffs, p) && i < |a| && !Cong(a[i], b[i], p)
    requires LuckyCoeffs(a, b, coeffs[i := x], p) && Canonical(x, p) && Canonical(coeffs[i], p)
    ensures x == coeffs[i]
  {
    hide Mod, Dot;
    DotUpdate(coeffs, a, i, x);
    DotUpdate(coeffs, b, i, x);
    var d := x - coeffs[i];
    CongSub(Dot(a, coeffs[i := x]), Dot(b, coeffs[i := x]), Dot(a, coeffs), Dot(b, coeffs), p);
    CongSame(Dot(a, coeffs[i := x]) - Dot(a, coeffs), Dot(b, coeffs[i := x]) - Dot(b, coeffs), d * a[i], d * b[i], p);
    CongSub(d * a[i], d * b[i], d * b[i], d * b[i], p);
    Roots.MinusStep(d, a[i], b[i]);
    NoZeroDivisors(d, a[i] - b[i], p);
    DifferenceZero(a[i], b[i], p);
    DifferenceZero(x, coeffs[i], p);
    CongCanonicalEqual(x, coeffs[i], p);
  }

  /** The lines through the published and through the true claims of circuit i meet at the joining challenge. */
  ghost predicate LuckyClaim(layer: BatchLayer, ls: seq<Layer>, rs: seq<int>, i: nat, r: int, p: Modulus)
    requires |layer.left| == |layer.right| == |ls| && LevelSized(ls, Pow2(|rs|)) && i < |ls|
  {
    Coincide(LineThrough(layer.left[i], layer.right[i]), LineThrough(Mle(ls[i].left, rs, p), Mle(ls[i].right, rs, p)),
             r, p)
  }

  /** The sums a level's claims stand for. */
  function Truth(rand: seq<int>, ls: seq<Layer>, dots: seq<Tables>, p: Modulus): (v: seq<int>)
    requires LevelSized(ls, Pow2(|rand|)) && AllSized(dots, Pow2(|rand|))
    ensures |v| == |ls| + |dots|
  {
    LevelClaims(TrueClaims(rand, ls, p), dots, Pow2(|rand|), p)
  }

  function LevelTrace(oracle: Oracle, log: Log, all: seq<int>, polys: seq<seq<int>>, p: Modulus): (t: Rounds)
    ensures Counted(t)
  {
    TraceOf(oracle, log + Draws("rand_coeffs_next_layer", |all|), Joined(oracle, log, all, p), polys, p)
  }

  /** The coefficients, a round's challenge or the joining challenge of this level was lucky. */
  ghost predicate LuckyLevel(oracle: Oracle, log: Log, all: seq<int>, rand: seq<int>, layer: BatchLayer, d: DotClaims,
                             ls: seq<Layer>, dots: seq<Tables>, p: Modulus)
    requires LevelSized(ls, Pow2(|rand|)) && AllSized(dots, Pow2(|rand|)) && |all| == |ls| + |dots|
    requires |layer.left| == |layer.right| == |ls| && |d.left| <= |d.right| && |d.left| <= |d.weight|
  {
    var eq, t := EqTable(rand, p), LevelTrace(oracle, log, all, layer.polys, p);
    var coeffs := LevelCoeffs(oracle, log, |all|, p);
    var r := Mod(oracle(log + LevelMessages(|all|, t.fs, layer.left, layer.right, d)), p);
    LuckyCoeffs(all, Truth(rand, ls, dots, p), coeffs, p) ||
    (|t.fs| == |rand| &&
     (LevelTablesSized(ls, eq, dots, Pow2(|rand|));
      LuckyRun(LevelTables(ls, eq, dots), coeffs, |rand|, t, p) ||
      exists i :: 0 <= i < |ls| && LuckyClaim(layer, ls, t.rs, i, r, p)))
  }

  // ---------- one level ----------

  /** The published claims about the dot products are true at rs. */
  ghost predicate DotsTrue(d: DotClaims, dots: seq<Tables>, rs: seq<int>, p: Modulus)
    requires AllSized(dots, Pow2(|rs|))
  {
    |d.left| == |d.right| == |d.weight| == |dots| &&
    forall i :: 0 <= i < |dots| ==>
      Cong(d.left[i], Mle(dots[i].A, rs, p), p) && Cong(d.right[i], Mle(dots[i].B, rs, p), p) &&
      Cong(d.weight[i], Mle(dots[i].C, rs, p), p)
  }

  ghost predicate LayersTrue(layer: BatchLayer, ls: seq<Layer>, rs: seq<int>, p: Modulus)
    requires LevelSized(ls, Pow2(|rs|))
  {
    |layer.left| == |layer.right| == |ls| &&
    forall i :: 0 <= i < |ls| ==>
      Cong(layer.left[i], Mle(ls[i].left, rs, p), p) && Cong(layer.right[i], Mle(ls[i].right, rs, p), p)
  }

  lemma ThreeFactors(x: int, y: int, z: int, x': int, y': int, z': int, p: Modulus)
    requires Cong(x, x', p) && Cong(y, y', p) && Cong(z, z', p)
    ensures Cong(x * y * z, x' * y' * z', p)
  {
    hide Mod;
    CongMul(x, x', y, y', p);
    CongMul(x * y, x' * y', z, z', p);
  }

  lemma FinalAt(left: seq<int>, right: seq<int>, eq: int, d: DotClaims, i: nat)
    requires |left| == |right| && |d.left| <= |d.right| && |d.left| <= |d.weight| && i < |left| + |d.left|
    ensures FinalValues(left, right, eq, d)[i] ==
      if i < |left| then left[i] * right[i] * eq
      else d.left[i - |left|] * d.right[i - |left|] * d.weight[i - |left|]
  {
  }

  /** The final value of one instance, from true published claims. */
  lemma TrueValueAt(layer: BatchLayer, d: DotClaims, ls: seq<Layer>, dots: seq<Tables>, rand: seq<int>, rs: seq<int>,
                    i: nat, p: Modulus)
    requires |rand| == |rs| && LevelSized(ls, Pow2(|rs|)) && AllSized(dots, Pow2(|rs|))
    requires LayersTrue(layer, ls, rs, p) && DotsTrue(d, dots, rs, p) && i < |ls| + |dots|
    requires AllSized(LevelTables(ls, EqTable(rand, p), dots), Pow2(|rs|))
    ensures var bound := BoundTo(LevelTables(ls, EqTable(rand, p), dots), |rs|, rs, p);
      Sized(bound[i], 1) &&
      Cong(Triple(bound[i], 1), FinalValues(layer.left, layer.right, EqEval(rand, rs, p), d)[i], p)
  {
    hide Mod, Dot, EqTable, Mle, Pow2, Triple, EqEval, LevelTables, LevelSized, AllSized, BoundTo, FinalValues;
    var eq := EqTable(rand, p);
    var ts := LevelTables(ls, eq, dots);
    SizedAt(ls, Pow2(|rs|));
    AllSizedAt(dots, Pow2(|rs|));
    BoundFirst(ts, |rs|, rs, p);
    BoundEntries(ts, |rs|, rs, i, p);
    LevelTableAt(ls, eq, dots, i);
    var bound := BoundTo(ts, |rs|, rs, p)[i];
    OneEntry(bound);
    FinalAt(layer.left, layer.right, EqEval(rand, rs, p), d, i);
    if i < |ls| {
      EqClaim(rand, rs, p);
      ThreeFactors(bound.A[0], bound.B[0], bound.C[0], layer.left[i], layer.right[i], EqEval(rand, rs, p), p);
    } else {
      var j := i - |ls|;
      ThreeFactors(bound.A[0], bound.B[0], bound.C[0], d.left[j], d.right[j], d.weight[j], p);
    }
  }

  /** True published claims give the value the sum-check should end with. */
  lemma TrueValues(layer: BatchLayer, d: DotClaims, ls: seq<Layer>, dots: seq<Tables>, rand: seq<int>, rs: seq<int>,
                   coeffs: seq<int>, p: Modulus)
    requires |rand| == |rs| && LevelSized(ls, Pow2(|rs|)) && AllSized(dots, Pow2(|rs|))
    requires LayersTrue(layer, ls, rs, p) && DotsTrue(d, dots, rs, p) && |coeffs| == |ls| + |dots|
    requires AllSized(LevelTables(ls, EqTable(rand, p), dots), Pow2(|rs|))
    ensures var bound := BoundTo(LevelTables(ls, EqTable(rand, p), dots), |rs|, rs, p);
      AllSized(bound, 1) &&
      Cong(BatchTriple(bound, coeffs, 1), Dot(FinalValues(layer.left, layer.right, EqEval(rand, rs, p), d), coeffs), p)
  {
    hide Mod, Dot, EqTable, Mle, Pow2, Triple, EqEval, LevelTables, LevelSized, BoundTo, FinalValues, BatchTriple,
         LayersTrue, DotsTrue;
    var ts := LevelTables(ls, EqTable(rand, p), dots);
    var bound := BoundTo(ts, |rs|, rs, p);
    BoundFirst(ts, |rs|, rs, p);
    assert |layer.left| == |layer.right| == |ls| && |d.left| == |d.right| == |d.weight| == |dots| by {
      TrueCounts(layer, d, ls, dots, rs, p);
    }
    var values := FinalValues(layer.left, layer.right, EqEval(rand, rs, p), d);
    forall i | 0 <= i < |bound| ensures Cong(Triple(bound[i], 1), values[i], p) {
      TrueValueAt(layer, d, ls, dots, rand, rs, i, p);
    }
    BatchByValues(bound, coeffs, values, 1, p);
  }

  lemma TrueCounts(layer: BatchLayer, d: DotClaims, ls: seq<Layer>, dots: seq<Tables>, rs: seq<int>, p: Modulus)
    requires LevelSized(ls, Pow2(|rs|)) && AllSized(dots, Pow2(|rs|))
    requires LayersTrue(layer, ls, rs, p) && DotsTrue(d, dots, rs, p)
    ensures |layer.left| == |layer.right| == |ls| && |d.left| == |d.right| == |d.weight| == |dots|
  {
  }

  /** Joined claims that are true were true before, unless the lines met. */
  lemma JoinedTrue(layer: BatchLayer, ls: seq<Layer>, rs: seq<int>, r: int, p: Modulus)
    requires LevelSized(ls, Pow2(|rs|)) && |layer.left| == |layer.right| == |ls| && CanonicalLayers(ls, p)
    requires TableClaims(MixAll(layer.left, layer.right, r, p), [r] + rs, ls, p)
    requires forall i :: 0 <= i < |ls| ==> !LuckyClaim(layer, ls, rs, i, r, p)
    ensures LayersTrue(layer, ls, rs, p)
  {
    hide Mod, Mle, Pow2, Mix, CanonicalLayer, Coincide, TableClaim;
    var m := MixAll(layer.left, layer.right, r, p);
    forall i | 0 <= i < |ls|
      ensures Cong(layer.left[i], Mle(ls[i].left, rs, p), p) && Cong(layer.right[i], Mle(ls[i].right, rs, p), p)
    {
      var a, b, a', b' := layer.left[i], layer.right[i], Mle(ls[i].left, rs, p), Mle(ls[i].right, rs, p);
      assert TableClaim(m[i], [r] + rs, ls[i], p);
      ClaimIs(m[i], [r] + rs, ls[i], p);
      MleTop(ls[i], rs, r, p);
      MixIsWeighted(a, b, r, p);
      MixIsWeighted(a', b', r, p);
      assert !LuckyClaim(layer, ls, rs, i, r, p);
      if !(Cong(a, a', p) && Cong(b, b', p)) {
        LinesMeet(a, b, a', b', r, p);
      }
    }
  }

  lemma ClaimIs(claim: int, rand: seq<int>, l: Layer, p: Modulus)
    requires |rand| >= 1 && |l.left| == |l.right| == Pow2(|rand| - 1) && TableClaim(claim, rand, l, p)
    ensures |l.left + l.right| == Pow2(|rand|) && claim == Mle(l.left + l.right, rand, p)
  {
  }

  /** The sum over a level's tables is the weighted sum of what its claims should be. */
  lemma TruthSums(rand: seq<int>, ls: seq<Layer>, dots: seq<Tables>, coeffs: seq<int>, p: Modulus)
    requires LevelSized(ls, Pow2(|rand|)) && AllSized(dots, Pow2(|rand|)) && |coeffs| == |ls| + |dots|
    ensures var ts := LevelTables(ls, EqTable(rand, p), dots);
      AllSized(ts, Pow2(|rand|)) && Cong(BatchTriple(ts, coeffs, Pow2(|rand|)), Dot(Truth(rand, ls, dots, p), coeffs),
                                         p)
  {
    hide Mod, Dot, EqTable, Triple, Mle, BatchTriple, LevelTables, Pow2, TrueClaims, LevelClaims, RightClaims;
    var ts := LevelTables(ls, EqTable(rand, p), dots);
    LevelTablesSized(ls, EqTable(rand, p), dots, Pow2(|rand|));
    TrueRight(rand, ls, p);
    forall i | 0 <= i < |ts| ensures Cong(Triple(ts[i], Pow2(|rand|)), Truth(rand, ls, dots, p)[i], p) {
      LevelSum(TrueClaims(rand, ls, p), rand, ls, dots, i, p);
    }
    BatchByValues(ts, coeffs, Truth(rand, ls, dots, p), Pow2(|rand|), p);
  }

  /** The sum-check of an accepted level without luck: true published claims come from true claims. */
  lemma LevelSumSound(oracle: Oracle, log: Log, all: seq<int>, rand: seq<int>, layer: BatchLayer, d: DotClaims,
                      ls: seq<Layer>, dots: seq<Tables>, t: Rounds, p: Modulus)
    requires Prime(p) && p > 3 && LevelSized(ls, Pow2(|rand|)) && AllSized(dots, Pow2(|rand|))
    requires |all| == |ls| + |dots| && t == LevelTrace(oracle, log, all, layer.polys, p) && |t.fs| == |rand|
    requires |layer.polys| == |rand| && Shaped(layer.polys, 3)
    requires LayersTrue(layer, ls, t.rs, p) && DotsTrue(d, dots, t.rs, p)
    requires Cong(Expected(oracle, log, rand, t.rs, layer, d, p), t.es[|rand|], p)
    requires AllSized(LevelTables(ls, EqTable(rand, p), dots), Pow2(|rand|))
    requires !LuckyRun(LevelTables(ls, EqTable(rand, p), dots), LevelCoeffs(oracle, log, |all|, p), |rand|, t, p)
    ensures Cong(Dot(all, LevelCoeffs(oracle, log, |all|, p)),
                 Dot(Truth(rand, ls, dots, p), LevelCoeffs(oracle, log, |all|, p)), p)
  {
    hide Mod, Dot, EqTable, Mle, EqEval, BoundTo, BatchTriple, VerifyRounds, RoundsHold, LuckyRun, TraceOf, Shaped,
         RunMessages, Pow2, LevelTables, LevelSized, AllSized, FinalValues, Truth, LayersTrue, DotsTrue, LevelCoeffs,
         Draws;
    var ts, k, coeffs := LevelTables(ls, EqTable(rand, p), dots), |rand|, LevelCoeffs(oracle, log, |all|, p);
    var log0, claim := log + Draws("rand_coeffs_next_layer", |all|), Joined(oracle, log, all, p);
    AcceptedByShape(oracle, log0, claim, layer.polys, k, 3, p);
    var t' := SumcheckSoundness(oracle, log0, claim, layer.polys, ts, coeffs, k, p);
    TrueCounts(layer, d, ls, dots, t.rs, p);
    TrueValues(layer, d, ls, dots, rand, t.rs, coeffs, p);
    TruthSums(rand, ls, dots, coeffs, p);
    ModCong(Dot(all, coeffs), p);
  }

  /** A level without luck: if the claims it goes on with and publishes are true, the claims it started from were. */
  lemma LevelSound(oracle: Oracle, log: Log, claims: seq<int>, dotClaims: seq<int>, rand: seq<int>, layer: BatchLayer,
                   d: DotClaims, ls: seq<Layer>, dots: seq<Tables>, lv: Level, p: Modulus)
    requires Prime(p) && p > 3 && LevelSized(ls, Pow2(|rand|)) && AllSized(dots, Pow2(|rand|))
    requires |claims| == |ls| && |dotClaims| == |dots| && CanonicalLayers(ls, p)
    requires VerifyLevel(oracle, log, claims, dotClaims, rand, layer, d, p) == Some(lv)
    requires TableClaims(lv.claims, lv.rand, ls, p)
    requires |lv.rand| == |rand| + 1 && DotsTrue(d, dots, lv.rand[1..], p)
    ensures |layer.left| == |layer.right| == |ls| && |d.left| <= |d.right| && |d.left| <= |d.weight|
    ensures CongV(claims + dotClaims, Truth(rand, ls, dots, p), p) ||
            LuckyLevel(oracle, log, claims + dotClaims, rand, layer, d, ls, dots, p)
  {
    hide Mod, Dot, EqTable, Mle, EqEval, BatchTriple, RoundsHold, LuckyRun, TraceOf, Shaped, RunMessages, Pow2,
         LevelTables, LevelSized, AllSized, FinalValues, Truth, LayersTrue, DotsTrue, LevelCoeffs, Draws, Joined,
         Expected, LevelMessages, VerifyLevel, TableClaims, LuckyClaim, MixAll, EvenlySized, CanonicalLayers;
    var all := claims + dotClaims;
    var t := AnyLevel(oracle, log, claims, dotClaims, rand, layer, d, p);
    RoundsCounted(oracle, log + Draws("rand_coeffs_next_layer", |all|), t, 3, p);
    assert lv.rand[1..] == t.rs;
    if !LuckyLevel(oracle, log, all, rand, layer, d, ls, dots, p) {
      LevelTablesSized(ls, EqTable(rand, p), dots, Pow2(|rand|));
      JoinedTrue(layer, ls, t.rs, lv.rand[0], p);
      LevelSumSound(oracle, log, all, rand, layer, d, ls, dots, t, p);
    }
  }

  // ---------- all levels ----------

  /** Some level was lucky. */
  ghost predicate LuckyLevels(oracle: Oracle, log: Log, claims: seq<int>, dotClaims: seq<int>, rand: seq<int>,
                              levels: seq<seq<Layer>>, dots: seq<Tables>, proofs: seq<BatchLayer>, d: DotClaims,
                              p: Modulus)
    requires Prime(p) && LevelsSized(levels, |claims|, |rand|) && DotsSized(dots, |levels|, |rand|)
    requires |dotClaims| == |dots| && |proofs| == |levels| > 0
    decreases |levels|
  {
    hide VerifyLevel, LuckyLevel, LevelSized, AllSized, Pow2, LevelsSized, DotsSized;
    var k, last := |levels| - 1, |levels| == 1;
    LastLevel(levels, |claims|, |rand|);
    HereSized(dots, |levels|, |rand|);
    var here, hereClaims, hereD := if last then dots else [], if last then dotClaims else [],
                                   if last then d else NO_DOTS;
    match VerifyLevel(oracle, log, claims, hereClaims, rand, proofs[0], hereD, p)
    case None => false
    case Some(lv) =>
      |proofs[0].left| == |proofs[0].right| == |claims| && |hereD.left| <= |hereD.right| &&
      |hereD.left| <= |hereD.weight| && |lv.claims| == |claims| && |lv.rand| == |rand| + 1 &&
      (LuckyLevel(oracle, log, claims + hereClaims, rand, proofs[0], hereD, levels[k], here, p) ||
       (!last && LuckyLevels(oracle, lv.log, lv.claims, dotClaims, lv.rand, UpperLevels(levels, |claims|, |rand|),
                             dots, proofs[1..], d, p)))
  }

  lemma SplitCong(a: seq<int>, b: seq<int>, a': seq<int>, b': seq<int>, p: Modulus)
    requires |a| == |a'| && CongV(a + b, a' + b', p)
    ensures CongV(a, a', p) && CongV(b, b', p)
  {
    hide Mod;
    assert |b| == |b'|;
    forall i | 0 <= i < |a| ensures Cong(a[i], a'[i], p) {
      assert (a + b)[i] == a[i] && (a' + b')[i] == a'[i];
    }
    forall i | 0 <= i < |b| ensures Cong(b[i], b'[i], p) {
      assert (a + b)[|a| + i] == b[i] && (a' + b')[|a| + i] == b'[i];
    }
  }

  /** Right claims about the products below are right claims about the tables above. */
  lemma ClaimsPassUp(claims: seq<int>, rand: seq<int>, below: seq<Layer>, above: seq<Layer>, p: Modulus)
    requires LevelChained(below, above, p) && LevelSized(below, Pow2(|rand|)) && CanonicalV(claims, p)
    requires |rand| >= 1 && LevelSized(above, Pow2(|rand| - 1)) && CongV(claims, TrueClaims(rand, below, p), p)
    ensures TableClaims(claims, rand, above, p)
  {
    hide Mle, Products, Pow2;
    forall i | 0 <= i < |above| ensures TableClaim(claims[i], rand, above[i], p) {
      MleCanonical(Products(below[i], p), rand, p);
      CongCanonicalEqual(claims[i], Mle(Products(below[i], p), rand, p), p);
      TableClaimIs(claims[i], rand, above[i], p);
    }
  }

  lemma MixCanonical(left: seq<int>, right: seq<int>, r: int, p: Modulus)
    requires |left| == |right|
    ensures CanonicalV(MixAll(left, right, r, p), p)
  {
    hide Mix;
  }

  /** What the verifier starts from and ends with. */
  ghost predicate EndsTrue(b: BatchClaims, d: DotClaims, input: seq<Layer>, dots: seq<Tables>, p: Modulus) {
    TableClaims(b.claims, b.rand, input, p) && AllSized(dots, Pow2(|b.rand| - 1)) &&
    DotsTrue(d, dots, b.rand[1..], p)
  }

  ghost predicate StartsTrue(claims: seq<int>, dotClaims: seq<int>, rand: seq<int>, ls: seq<Layer>, dots: seq<Tables>,
                             levels: nat, p: Modulus)
    requires LevelSized(ls, Pow2(|rand|)) && DotsSized(dots, levels, |rand|)
  {
    CongV(claims, TrueClaims(rand, ls, p), p) && CongV(dotClaims, DotInputs(dots, levels, |rand|, p), p)
  }

  /** The input level. */
  lemma InputSound(oracle: Oracle, log: Log, claims: seq<int>, dotClaims: seq<int>, rand: seq<int>,
                   levels: seq<seq<Layer>>, dots: seq<Tables>, proofs: seq<BatchLayer>, d: DotClaims, lv: Level,
                   p: Modulus)
    requires Prime(p) && p > 3 && LevelsSized(levels, |claims|, |rand|) && DotsSized(dots, 1, |rand|)
    requires |dotClaims| == |dots| && |proofs| == |levels| == 1 && |levels[0]| == |claims|
    requires LevelSized(levels[0], Pow2(|rand|)) && AllSized(dots, Pow2(|rand|)) && CanonicalLayers(levels[0], p)
    requires VerifyLevel(oracle, log, claims, dotClaims, rand, proofs[0], d, p) == Some(lv)
    requires |lv.claims| == |claims| && |lv.rand| == |rand| + 1
    requires TableClaims(lv.claims, lv.rand, levels[0], p) && DotsTrue(d, dots, lv.rand[1..], p)
    ensures StartsTrue(claims, dotClaims, rand, levels[0], dots, 1, p) ||
            LuckyLevels(oracle, log, claims, dotClaims, rand, levels, dots, proofs, d, p)
  {
    hide Mod, Cong, Mle, Pow2, VerifyLevel, LevelsSized, LevelSized, AllSized, DotValues, TableClaims, DotsTrue,
         CanonicalLayers, DotsSized, DotInputs, LuckyLevel, TrueClaims, CongV;
    LevelSound(oracle, log, claims, dotClaims, rand, proofs[0], d, levels[0], dots, lv, p);
    if !LuckyLevel(oracle, log, claims + dotClaims, rand, proofs[0], d, levels[0], dots, p) {
      SplitCong(claims, dotClaims, TrueClaims(rand, levels[0], p), DotValues(dots, Pow2(|rand|), p), p);
      InputsHere(dots, |rand|, p);
    }
  }

  lemma NoDotsTrue(rs: seq<int>, p: Modulus)
    ensures AllSized([], Pow2(|rs|)) && DotsTrue(NO_DOTS, [], rs, p)
  {
  }

  /** A level above the input, once the claims below it are known to be true. */
  lemma UpperSound(oracle: Oracle, log: Log, claims: seq<int>, rand: seq<int>, layer: BatchLayer, ls: seq<Layer>,
                   below: seq<Layer>, lv: Level, p: Modulus)
    requires Prime(p) && p > 3 && LevelSized(ls, Pow2(|rand|)) && |claims| == |ls| && CanonicalLayers(ls, p)
    requires VerifyLevel(oracle, log, claims, [], rand, layer, NO_DOTS, p) == Some(lv)
    requires |lv.claims| == |claims| && |lv.rand| == |rand| + 1 && CanonicalV(lv.claims, p)
    requires LevelChained(below, ls, p) && LevelSized(below, Pow2(|lv.rand|))
    requires CongV(lv.claims, TrueClaims(lv.rand, below, p), p)
    ensures AllSized([], Pow2(|rand|)) && |layer.left| == |layer.right| == |ls|
    ensures CongV(claims, TrueClaims(rand, ls, p), p) ||
            LuckyLevel(oracle, log, claims + [], rand, layer, NO_DOTS, ls, [], p)
  {
    hide Mod, Cong, Mle, Pow2, VerifyLevel, LevelSized, TableClaims, DotsTrue, CanonicalLayers, LevelChained,
         TrueClaims, CongV, LuckyLevel, CanonicalV, AllSized, DotValues;
    NoDotsTrue(lv.rand[1..], p);
    ClaimsPassUp(lv.claims, lv.rand, below, ls, p);
    NoneSized(Pow2(|rand|), p);
    LevelSound(oracle, log, claims, [], rand, layer, NO_DOTS, ls, [], lv, p);
    if !LuckyLevel(oracle, log, claims + [], rand, layer, NO_DOTS, ls, [], p) {
      SplitCong(claims, [], TrueClaims(rand, ls, p), [], p);
    }
  }

  /** Back from the input level: true ends make true starts, unless some level was lucky. */
  lemma {:induction false} LevelsSound(oracle: Oracle, log: Log, claims: seq<int>, dotClaims: seq<int>,
                                       rand: seq<int>, levels: seq<seq<Layer>>, dots: seq<Tables>,
                                       proofs: seq<BatchLayer>, d: DotClaims, b: BatchClaims, p: Modulus)
    requires Prime(p) && p > 3 && LevelsSized(levels, |claims|, |rand|) && DotsSized(dots, |levels|, |rand|)
    requires LevelsChained(levels, p) && CanonicalLevels(levels, p)
    requires |dotClaims| == |dots| && |proofs| == |levels| > 0
    requires VerifyLevels(oracle, log, claims, dotClaims, rand, proofs, d, p) == Some(b)
    requires |b.rand| == |rand| + |levels| && EndsTrue(b, d, levels[0], dots, p)
    ensures LevelSized(levels[|levels| - 1], Pow2(|rand|))
    ensures StartsTrue(claims, dotClaims, rand, levels[|levels| - 1], dots, |levels|, p) ||
            LuckyLevels(oracle, log, claims, dotClaims, rand, levels, dots, proofs, d, p)
    decreases |levels|
  {
    hide Mod, Cong, Mle, Pow2, VerifyLevel, LevelsSized, LevelSized, AllSized, DotValues, TableClaims, DotsTrue,
         CanonicalLayers, DotsSized, DotInputs, LuckyLevel, TrueClaims, CongV, LevelsChained, CanonicalLevels,
         LevelChained, CanonicalV, PairMix;
    var k := |levels| - 1;
    LastLevel(levels, |claims|, |rand|);
    HereSized(dots, |levels|, |rand|);
    CanonicalAt(levels, k, p);
    var lv := StepBinds(oracle, log, claims, dotClaims, rand, proofs, d, p);
    if k == 0 {
      InputSound(oracle, log, claims, dotClaims, rand, levels, dots, proofs, d, lv, p);
    } else {
      var up := UpperLevels(levels, |claims|, |rand|);
      UpperParts(levels, |claims|, |rand|, p);
      LastLevel(up, |claims|, |rand| + 1);
      LevelsSound(oracle, lv.log, lv.claims, dotClaims, lv.rand, up, dots, proofs[1..], d, b, p);
      ClaimsCanonical(oracle, log, claims, rand, proofs[0], lv, p);
      DotInputsSame(dots, |levels|, |rand|, p);
      if !LuckyLevels(oracle, lv.log, lv.claims, dotClaims, lv.rand, up, dots, proofs[1..], d, p) {
        UpperSound(oracle, log, claims, rand, proofs[0], levels[k], up[k - 1], lv, p);
      }
    }
  }

  lemma ClaimsCanonical(oracle: Oracle, log: Log, claims: seq<int>, rand: seq<int>, layer: BatchLayer, lv: Level,
                        p: Modulus)
    requires Prime(p) && VerifyLevel(oracle, log, claims, [], rand, layer, NO_DOTS, p) == Some(lv)
    ensures CanonicalV(lv.claims, p) && |layer.left| == |layer.right| == |claims|
  {
    hide Mod, RoundsHold, LevelMessages, EvenlySized, Joined, Expected, VerifyLevel, Shaped, MixAll, CanonicalV,
         TraceOf;
    var t := AnyLevel(oracle, log, claims, [], rand, layer, NO_DOTS, p);
    MixCanonical(layer.left, layer.right, lv.rand[0], p);
  }

  /**
   The batched product proof is sound: whatever is accepted for claimed products and dot products, if the
   returned claims are the extensions of the input tables and the published claims about the dot products'
   tables are true, then every claimed value is right, or some challenge was lucky.
   */
  lemma BatchSound(oracle: Oracle, log: Log, claims: seq<int>, dotClaims: seq<int>, Ts: seq<seq<int>>, k: nat,
                   dots: seq<Tables>, proofs: seq<BatchLayer>, d: DotClaims, b: BatchClaims, p: Modulus)
    requires Prime(p) && p > 3 && k >= 1 && InputTables(Ts, k, p) && AllSized(dots, Pow2(k - 1))
    requires |claims| == |Ts| && |dotClaims| == |dots|
    requires VerifyBatch(oracle, log, claims, dotClaims, k, proofs, d, p) == Some(b)
    requires |b.rand| == k && |b.claims| == |Ts| && DotsTrue(d, dots, b.rand[1..], p)
    requires forall i :: 0 <= i < |Ts| ==> |Ts[i]| == Pow2(k) && b.claims[i] == Mle(Ts[i], b.rand, p)
    ensures LevelsSized(LevelsOf(Ts, k, p), |claims|, 0) && DotsSized(dots, k, 0) && |proofs| == k
    ensures (CongV(claims, ProductBatch.Roots(Ts, p), p) && CongV(dotClaims, DotValues(dots, Pow2(k - 1), p), p)) ||
            LuckyLevels(oracle, log, claims, dotClaims, [], LevelsOf(Ts, k, p), dots, proofs, d, p)
  {
    hide Mod, Cong, Mle, VerifyLevels, LevelsOf, LevelOf, LevelsSized, LevelsChained, CanonicalLevels,
         AllSized, DotValues, DotInputs, Pow2, LevelSized, ProductBatch.Roots, TableClaims, DotsSized, InputTables,
         LuckyLevels, TrueClaims, CongV, DotsTrue;
    FromShape(Ts, k, dots, p);
    var levels := LevelsOf(Ts, k, p);
    InputTableClaims(Ts, k, b.claims, b.rand, p);
    LevelsSound(oracle, log, claims, dotClaims, [], levels, dots, proofs, d, b, p);
    RootsRight(Ts, k, p);
    SameClaims(ProductBatch.Roots(Ts, p), [], LevelOf(Ts, k, k - 1, p), p);
  }

  lemma InputTableClaims(Ts: seq<seq<int>>, k: nat, claims: seq<int>, rand: seq<int>, p: Modulus)
    requires k >= 1 && InputTables(Ts, k, p) && |rand| == k && |claims| == |Ts|
    requires forall i :: 0 <= i < |Ts| ==> |Ts[i]| == Pow2(k) && claims[i] == Mle(Ts[i], rand, p)
    ensures TableClaims(claims, rand, LevelOf(Ts, k, 0, p), p)
  {
    hide Mod, Mle, Layers, CanonicalLayer, Pow2, CanonicalV, Chained;
    var ls := LevelOf(Ts, k, 0, p);
    LevelOfSized(Ts, k, 0, p);
    SizedAt(ls, Pow2(k - 1));
    forall i | 0 <= i < |Ts| ensures TableClaim(claims[i], rand, ls[i], p) {
      LayersChained(Ts[i], k, p);
      assert ls[i].left + ls[i].right == Ts[i];
      TableClaimIs(claims[i], rand, ls[i], p);
    }
  }

  // ---------- the returned claims about the dot products ----------

  /** What the verifier returns about pair j is true of the two tables put together. */
  ghost predicate PairTrue(m: seq<int>, dots: seq<Tables>, rand: seq<int>, j: nat, p: Modulus)
    requires |rand| >= 1 && 2 * j + 1 < |dots| && 3 * j + 2 < |m|
    requires Sized(dots[2 * j], Pow2(|rand| - 1)) && Sized(dots[2 * j + 1], Pow2(|rand| - 1))
  {
    Pow2Next(|rand| - 1);
    var x, y := dots[2 * j], dots[2 * j + 1];
    m[3 * j] == Mle(x.A + y.A, rand, p) && m[3 * j + 1] == Mle(x.B + y.B, rand, p) &&
    m[3 * j + 2] == Mle(x.C + y.C, rand, p)
  }

  /** The joining challenge is a meeting point of one of the three pairs of lines of pair j. */
  ghost predicate LuckyPair(d: DotClaims, dots: seq<Tables>, rand: seq<int>, j: nat, p: Modulus)
    requires |rand| >= 1 && |d.left| == |d.right| == |d.weight| == |dots| && 2 * j + 1 < |dots|
    requires Sized(dots[2 * j], Pow2(|rand| - 1)) && Sized(dots[2 * j + 1], Pow2(|rand| - 1))
  {
    var x, y, rs := dots[2 * j], dots[2 * j + 1], rand[1..];
    Coincide(LineThrough(d.left[2 * j], d.left[2 * j + 1]), LineThrough(Mle(x.A, rs, p), Mle(y.A, rs, p)), rand[0],
             p) ||
    Coincide(LineThrough(d.right[2 * j], d.right[2 * j + 1]), LineThrough(Mle(x.B, rs, p), Mle(y.B, rs, p)), rand[0],
             p) ||
    Coincide(LineThrough(d.weight[2 * j], d.weight[2 * j + 1]), LineThrough(Mle(x.C, rs, p), Mle(y.C, rs, p)),
             rand[0], p)
  }

  lemma {:induction false} PairMixAt(d: DotClaims, n: nat, r: int, j: nat, p: Modulus)
    requires 2 * n <= |d.left| && 2 * n <= |d.right| && 2 * n <= |d.weight| && j < n
    ensures var m := PairMix(d, n, r, p);
      m[3 * j] == Mix(d.left[2 * j], d.left[2 * j + 1], r, p) &&
      m[3 * j + 1] == Mix(d.right[2 * j], d.right[2 * j + 1], r, p) &&
      m[3 * j + 2] == Mix(d.weight[2 * j], d.weight[2 * j + 1], r, p)
  {
    hide Mix;
    if j < n - 1 {
      PairMixAt(d, n - 1, r, j, p);
    }
  }

  /** A joined value that is true was made of true ones, unless the lines met. */
  lemma OnePairSound(a: int, b: int, x: seq<int>, y: seq<int>, rs: seq<int>, r: int, p: Modulus)
    requires |x| == |y| == Pow2(|rs|) && CanonicalV(x, p) && CanonicalV(y, p)
    requires |x + y| == Pow2(|rs| + 1) && Mix(a, b, r, p) == Mle(x + y, [r] + rs, p)
    requires !Coincide(LineThrough(a, b), LineThrough(Mle(x, rs, p), Mle(y, rs, p)), r, p)
    ensures Cong(a, Mle(x, rs, p), p) && Cong(b, Mle(y, rs, p), p)
  {
    hide Mod, Mle, Pow2, Mix, CanonicalV, Coincide;
    MleTop(Layer(x, y), rs, r, p);
    MixIsWeighted(a, b, r, p);
    MixIsWeighted(Mle(x, rs, p), Mle(y, rs, p), r, p);
    if !(Cong(a, Mle(x, rs, p), p) && Cong(b, Mle(y, rs, p), p)) {
      LinesMeet(a, b, Mle(x, rs, p), Mle(y, rs, p), r, p);
    }
  }

  /** True returned claims about whole dot products come from true published claims about their halves. */
  lemma PairsSound(d: DotClaims, dots: seq<Tables>, rand: seq<int>, n: nat, p: Modulus)
    requires |rand| >= 1 && |d.left| == |d.right| == |d.weight| == |dots| == 2 * n
    requires AllSized(dots, Pow2(|rand| - 1))
    requires forall i :: 0 <= i < |dots|
               ==> CanonicalV(dots[i].A, p) && CanonicalV(dots[i].B, p) && CanonicalV(dots[i].C, p)
    requires forall j :: 0 <= j < n ==>
      PairTrue(PairMix(d, n, rand[0], p), dots, rand, j, p) && !LuckyPair(d, dots, rand, j, p)
    ensures DotsTrue(d, dots, rand[1..], p)
  {
    hide Mod, Mle, Pow2, Mix, CanonicalV, Coincide, PairMix;
    var m, r, rs := PairMix(d, n, rand[0], p), rand[0], rand[1..];
    assert rand == [r] + rs;
    Pow2Next(|rs|);
    forall i | 0 <= i < |dots|
      ensures Cong(d.left[i], Mle(dots[i].A, rs, p), p) && Cong(d.right[i], Mle(dots[i].B, rs, p), p) &&
              Cong(d.weight[i], Mle(dots[i].C, rs, p), p)
    {
      var j := i / 2;
      assert i == 2 * j || i == 2 * j + 1;
      assert PairTrue(m, dots, rand, j, p) && !LuckyPair(d, dots, rand, j, p);
      PairMixAt(d, n, r, j, p);
      var x, y := dots[2 * j], dots[2 * j + 1];
      OnePairSound(d.left[2 * j], d.left[2 * j + 1], x.A, y.A, rs, r, p);
      OnePairSound(d.right[2 * j], d.right[2 * j + 1], x.B, y.B, rs, r, p);
      OnePairSound(d.weight[2 * j], d.weight[2 * j + 1], x.C, y.C, rs, r, p);
    }
  }
}
