/**
 The batched layered product proof: one sum-check per layer for many product circuits at once, with
 dot-product circuits joining at the input layer.
 */
module ProductBatch {
  import opened PowersOfTwo
  import opened PrimeField
  import opened Vectors
  import opened Tensor
  import opened Transcript
  import opened Multilinear
  import opened SumcheckSpec
  import opened SumcheckRun
  import opened ProductTree

  datatype BatchLayer = BatchLayer(polys: seq<seq<int>>, left: seq<int>, right: seq<int>)

  /** The three lists of claims about the dot-product circuits' bound tables. */
  datatype DotClaims = DotClaims(left: seq<int>, right: seq<int>, weight: seq<int>)

  // ---------- transcript ----------

  function DrawVector(oracle: Oracle, log: Log, tag: string, n: nat, p: Modulus): (r: (seq<int>, Log))
    ensures |r.0| == n
    decreases n
  {
    if n == 0 then ([], log) else
    var (cs, log') := DrawVector(oracle, log, tag, n - 1, p);
    (cs + [Challenge(oracle, log', tag, p)], log' + [Draw(tag)])
  }

  function ProdMessages(left: seq<int>, right: seq<int>, n: nat): Log
    requires n <= |left| && n <= |right|
  {
    if n == 0 then [] else ProdMessages(left, right, n - 1) + [Scalar("claim_prod_left", left[n - 1]),
                                                               Scalar("claim_prod_right", right[n - 1])]
  }

  function DotMessages(d: DotClaims, n: nat): Log
    requires n <= |d.left| && n <= |d.right| && n <= |d.weight|
  {
    if n == 0 then [] else
    DotMessages(d, n - 1) + [Scalar("claim_dotp_left", d.left[n - 1]), Scalar("claim_dotp_right", d.right[n - 1]),
                             Scalar("claim_dotp_weight", d.weight[n - 1])]
  }

  // ---------- one level ----------

  /** The layer tables of all circuits, sharing the equality table, followed by the dot products. */
  function LevelTables(ls: seq<Layer>, eq: seq<int>, dots: seq<Tables>): (ts: seq<Tables>)
    ensures |ts| == |ls| + |dots|
  {
    seq(|ls|, i requires 0 <= i < |ls| => Tables(ls[i].left, ls[i].right, eq)) + dots
  }

  predicate LevelSized(ls: seq<Layer>, n: nat) {
    forall i :: 0 <= i < |ls| ==> |ls[i].left| == |ls[i].right| == n
  }

  lemma LevelTablesSized(ls: seq<Layer>, eq: seq<int>, dots: seq<Tables>, n: nat)
    requires LevelSized(ls, n) && |eq| == n && AllSized(dots, n)
    ensures AllSized(LevelTables(ls, eq, dots), n)
  {
  }

  function DotValues(dots: seq<Tables>, n: nat, p: Modulus): (v: seq<int>)
    requires AllSized(dots, n)
    ensures |v| == |dots|
  {
    seq(|dots|, i requires 0 <= i < |dots| => Mod(Triple(dots[i], n), p))
  }

  /** What one level leaves for the next. */
  datatype Level = Level(layer: BatchLayer, dots: DotClaims, claims: seq<int>, rand: seq<int>, log: Log)

  function LevelClaims(claims: seq<int>, dots: seq<Tables>, n: nat, p: Modulus): (v: seq<int>)
    requires AllSized(dots, n)
    ensures |v| == |claims| + |dots|
  {
    claims + DotValues(dots, n, p)
  }

  function LevelRun(oracle: Oracle, log: Log, claims: seq<int>, rand: seq<int>, ls: seq<Layer>, dots: seq<Tables>,
                    p: Modulus): (run: Run)
    requires Prime(p) && p > 3 && LevelSized(ls, Pow2(|rand|)) && AllSized(dots, Pow2(|rand|)) && |claims| == |ls|
    ensures |run.polys| == |run.rs| == |rand| && |run.ts| == |ls| + |dots| && AllSized(run.ts, 1)
  {
    var eq := EqTable(rand, p);
    LevelTablesSized(ls, eq, dots, Pow2(|rand|));
    var all := LevelClaims(claims, dots, Pow2(|rand|), p);
    var (coeffs, log') := DrawVector(oracle, log, "rand_coeffs_next_layer", |all|, p);
    ProveRounds(oracle, log', Mod(Dot(all, coeffs), p), |rand|, LevelTables(ls, eq, dots), coeffs, p)
  }

  function Firsts(ts: seq<Tables>, from: nat, count: nat): (d: DotClaims)
    requires from + count <= |ts| && AllSized(ts, 1)
    ensures |d.left| == |d.right| == |d.weight| == count
  {
    DotClaims(seq(count, i requires 0 <= i < count => ts[from + i].A[0]),
              seq(count, i requires 0 <= i < count => ts[from + i].B[0]),
              seq(count, i requires 0 <= i < count => ts[from + i].C[0]))
  }

  function MixAll(left: seq<int>, right: seq<int>, r: int, p: Modulus): (m: seq<int>)
    requires |left| == |right|
    ensures |m| == |left|
  {
    seq(|left|, i requires 0 <= i < |left| => Mix(left[i], right[i], r, p))
  }

  function ProveLevel(oracle: Oracle, log: Log, claims: seq<int>, rand: seq<int>, ls: seq<Layer>, dots: seq<Tables>,
                      p: Modulus): (lv: Level)
    requires Prime(p) && p > 3 && LevelSized(ls, Pow2(|rand|)) && AllSized(dots, Pow2(|rand|)) && |claims| == |ls|
    ensures |lv.rand| == |rand| + 1 && |lv.claims| == |claims|
  {
    var run := LevelRun(oracle, log, claims, rand, ls, dots, p);
    var f, d := Firsts(run.ts, 0, |ls|), Firsts(run.ts, |ls|, |dots|);
    var log' := run.log + ProdMessages(f.left, f.right, |ls|) + DotMessages(d, |dots|);
    var r := Challenge(oracle, log', "challenge_r_layer", p);
    Level(BatchLayer(run.polys, f.left, f.right), d, MixAll(f.left, f.right, r, p), [r] + run.rs,
          log' + [Draw("challenge_r_layer")])
  }

  /** left * right * eq for every circuit, left * right * weight for every dot product. */
  function FinalValues(left: seq<int>, right: seq<int>, eq: int, d: DotClaims): (v: seq<int>)
    requires |left| == |right| && |d.left| <= |d.right| && |d.left| <= |d.weight|
    ensures |v| == |left| + |d.left|
  {
    seq(|left|, i requires 0 <= i < |left| => left[i] * right[i] * eq)
    + seq(|d.left|, i requires 0 <= i < |d.left| => d.left[i] * d.right[i] * d.weight[i])
  }

  /** One level of the verifier; None when an assertion or an index fails. */
  function VerifyLevel(oracle: Oracle, log: Log, claims: seq<int>, dotClaims: seq<int>, rand: seq<int>,
                       layer: BatchLayer, d: DotClaims, p: Modulus)
    : Option<Level>
    requires Prime(p)
  {
    var all := claims + dotClaims;
    var (coeffs, log0) := DrawVector(oracle, log, "rand_coeffs_next_layer", |all|, p);
    match VerifySumcheck(oracle, log0, Mod(Dot(all, coeffs), p), layer.polys, |rand|, 3, p)
    case None => None
    case Some((last, rs, log1)) =>
      if |layer.left| != |claims| || |layer.right| != |claims| || |rs| != |rand| then None else
      if |d.right| < |d.left| || |d.weight| < |d.left| || |dotClaims| < |d.left| then None else
      var values := FinalValues(layer.left, layer.right, EqEval(rand, rs, p), d);
      if Mod(Dot(values, coeffs[..|values|]), p) != last then None else
      var log' := log1 + ProdMessages(layer.left, layer.right, |claims|) + DotMessages(d, |d.left|);
      var r := Challenge(oracle, log', "challenge_r_layer", p);
      Some(Level(layer, d, MixAll(layer.left, layer.right, r, p), [r] + rs, log' + [Draw("challenge_r_layer")]))
  }

  // ---------- one level verifies ----------

  /** The weighted sum over instances depends only on each instance's sum in the field. */
  lemma {:induction false} BatchByValues(ts: seq<Tables>, coeffs: seq<int>, vals: seq<int>, n: nat, p: Modulus)
    requires AllSized(ts, n) && |coeffs| == |ts| == |vals|
    requires forall i :: 0 <= i < |ts| ==> Cong(Triple(ts[i], n), vals[i], p)
    ensures Cong(BatchTriple(ts, coeffs, n), Dot(vals, coeffs), p)
  {
    hide Mod, Triple;
    if |ts| == 0 {
    } else {
      var k := |ts| - 1;
      BatchByValues(ts[..k], coeffs[..k], vals[..k], n, p);
      CongScale(coeffs[k], Triple(ts[k], n), vals[k], p);
      assert coeffs[k] * vals[k] == vals[k] * coeffs[k];
      CongSum(BatchTriple(ts, coeffs, n), Dot(vals, coeffs), BatchTriple(ts[..k], coeffs[..k], n),
              Dot(vals[..k], coeffs[..k]),
              coeffs[k] * Triple(ts[k], n), vals[k] * coeffs[k], p);
    }
  }

  /** The claims a level starts from are right. */
  predicate RightClaims(claims: seq<int>, rand: seq<int>, ls: seq<Layer>, p: Modulus)
    requires LevelSized(ls, Pow2(|rand|))
  {
    |claims| == |ls| && forall i :: 0 <= i < |ls| ==> claims[i] == Mle(Products(ls[i], p), rand, p)
  }

  lemma LevelSum(claims: seq<int>, rand: seq<int>, ls: seq<Layer>, dots: seq<Tables>, i: nat, p: Modulus)
    requires LevelSized(ls, Pow2(|rand|)) && AllSized(dots, Pow2(|rand|)) && RightClaims(claims, rand, ls, p) &&
             i < |ls| + |dots|
    ensures var ts := LevelTables(ls, EqTable(rand, p), dots);
      Sized(ts[i], Pow2(|rand|)) && Cong(Triple(ts[i], Pow2(|rand|)), LevelClaims(claims, dots, Pow2(|rand|), p)[i], p)
  {
    hide Mod, EqTable, Triple, Mle, BatchTriple, Products;
    var n := Pow2(|rand|);
    if i < |ls| {
      LayerSum(ls[i], rand, p);
      OneTriple(Tables(ls[i].left, ls[i].right, EqTable(rand, p)), n);
    } else {
      ModCong(Triple(dots[i - |ls|], n), p);
    }
  }

  /** The bound tables of a level: the extensions of its tables at the sum-check's point. */
  predicate BoundAt(ts: seq<Tables>, bound: seq<Tables>, n: nat, rs: seq<int>, p: Modulus)
    requires AllSized(ts, n) && n == Pow2(|rs|)
  {
    |bound| == |ts| && forall i :: 0 <= i < |ts| ==>
      bound[i] == Tables([Mle(ts[i].A, rs, p)], [Mle(ts[i].B, rs, p)], [Mle(ts[i].C, rs, p)])
  }

  lemma LevelSumcheck(oracle: Oracle, log: Log, claims: seq<int>, rand: seq<int>, ls: seq<Layer>, dots: seq<Tables>,
                      p: Modulus)
    requires Prime(p) && p > 3 && LevelSized(ls, Pow2(|rand|)) && AllSized(dots, Pow2(|rand|)) && |claims| == |ls| &&
             RightClaims(claims, rand, ls, p)
    ensures var n := Pow2(|rand|);
      var run := LevelRun(oracle, log, claims, rand, ls, dots, p);
      var all := LevelClaims(claims, dots, n, p);
      var (coeffs, log0) := DrawVector(oracle, log, "rand_coeffs_next_layer", |all|, p);
      VerifySumcheck(oracle, log0, Mod(Dot(all, coeffs), p), run.polys, |rand|, 3,
                     p) == Some((run.e, run.rs, run.log)) &&
      Canonical(run.e, p) && Cong(run.e, BatchTriple(run.ts, coeffs, 1), p)
  {
    hide Mod, Dot, EqTable, Triple, Mle, ProveRounds, VerifySumcheck, ErrorFactor, BatchTriple, RightClaims,
         LevelTables, LevelClaims, Pow2;
    var n := Pow2(|rand|);
    var ts := LevelTables(ls, EqTable(rand, p), dots);
    LevelTablesSized(ls, EqTable(rand, p), dots, n);
    var run := LevelRun(oracle, log, claims, rand, ls, dots, p);
    var all := LevelClaims(claims, dots, n, p);
    var (coeffs, log0) := DrawVector(oracle, log, "rand_coeffs_next_layer", |all|, p);
    forall i | 0 <= i < |ts| ensures Cong(Triple(ts[i], n), all[i], p) {
      LevelSum(claims, rand, ls, dots, i, p);
    }
    BatchByValues(ts, coeffs, all, n, p);
    var claim := Mod(Dot(all, coeffs), p);
    ModCong(Dot(all, coeffs), p);
    RunVerdict(oracle, log0, claim, |rand|, ts, coeffs, p);
    ZeroError(run.e, BatchTriple(run.ts, coeffs, 1), claim, BatchTriple(ts, coeffs, n), ErrorFactor(run.rs, p), p);
  }

  /** The tables a level's sum-check ends with: every table's extension at the drawn point. */
  lemma LevelFinals(oracle: Oracle, log: Log, claims: seq<int>, rand: seq<int>, ls: seq<Layer>, dots: seq<Tables>,
                    p: Modulus)
    requires Prime(p) && p > 3 && LevelSized(ls, Pow2(|rand|)) && AllSized(dots, Pow2(|rand|)) && |claims| == |ls|
    ensures var run := LevelRun(oracle, log, claims, rand, ls, dots, p);
      BoundAt(LevelTables(ls, EqTable(rand, p), dots), run.ts, Pow2(|rand|), run.rs, p)
  {
    hide Mod, Dot, EqTable, Triple, Mle, ProveRounds, LevelTables, LevelClaims, Pow2;
    var n := Pow2(|rand|);
    var ts := LevelTables(ls, EqTable(rand, p), dots);
    LevelTablesSized(ls, EqTable(rand, p), dots, n);
    var run := LevelRun(oracle, log, claims, rand, ls, dots, p);
    var all := LevelClaims(claims, dots, n, p);
    var (coeffs, log0) := DrawVector(oracle, log, "rand_coeffs_next_layer", |all|, p);
    forall i | 0 <= i < |ts|
      ensures run.ts[i] == Tables([Mle(ts[i].A, run.rs, p)], [Mle(ts[i].B, run.rs, p)], [Mle(ts[i].C, run.rs, p)])
    {
      BoundTables(oracle, log0, Mod(Dot(all, coeffs), p), |rand|, ts, coeffs, i, p);
    }
  }

  /** The claims a level publishes: both halves of every layer, and the three tables of every dot product. */
  predicate LayersAt(layer: BatchLayer, ls: seq<Layer>, rs: seq<int>, p: Modulus)
    requires LevelSized(ls, Pow2(|rs|))
  {
    |layer.left| == |layer.right| == |ls| &&
    forall i :: 0 <= i < |ls| ==> layer.left[i] == Mle(ls[i].left, rs, p) && layer.right[i] == Mle(ls[i].right, rs, p)
  }

  predicate DotsAt(d: DotClaims, dots: seq<Tables>, rs: seq<int>, p: Modulus)
    requires AllSized(dots, Pow2(|rs|))
  {
    |d.left| == |d.right| == |d.weight| == |dots| &&
    forall i :: 0 <= i < |dots| ==>
      d.left[i] == Mle(dots[i].A, rs, p) && d.right[i] == Mle(dots[i].B, rs, p) && d.weight[i] == Mle(dots[i].C, rs, p)
  }

  lemma LevelTableAt(ls: seq<Layer>, eq: seq<int>, dots: seq<Tables>, i: nat)
    requires i < |ls| + |dots|
    ensures LevelTables(ls, eq, dots)[i] == if i < |ls| then Tables(ls[i].left, ls[i].right, eq) else dots[i - |ls|]
  {
  }

  /** Table i of a level's bound tables. */
  lemma BoundEntry(ls: seq<Layer>, eq: seq<int>, dots: seq<Tables>, bound: seq<Tables>, rs: seq<int>, i: nat,
                   p: Modulus)
    requires LevelSized(ls, Pow2(|rs|)) && |eq| == Pow2(|rs|) && AllSized(dots, Pow2(|rs|)) && AllSized(bound, 1) &&
             i < |ls| + |dots|
    requires AllSized(LevelTables(ls, eq, dots), Pow2(|rs|)) &&
             BoundAt(LevelTables(ls, eq, dots), bound, Pow2(|rs|), rs, p)
    ensures |bound| == |ls| + |dots|
    ensures bound[i] == if i < |ls| then Tables([Mle(ls[i].left, rs, p)], [Mle(ls[i].right, rs, p)], [Mle(eq, rs, p)])
                        else Tables([Mle(dots[i - |ls|].A, rs, p)], [Mle(dots[i - |ls|].B, rs, p)],
                                    [Mle(dots[i - |ls|].C, rs, p)])
  {
    hide Mle, Pow2, LevelTables;
    LevelTableAt(ls, eq, dots, i);
  }

  lemma LayerFirst(ls: seq<Layer>, eq: seq<int>, dots: seq<Tables>, bound: seq<Tables>, rs: seq<int>, i: nat,
                   p: Modulus)
    requires LevelSized(ls, Pow2(|rs|)) && |eq| == Pow2(|rs|) && AllSized(dots, Pow2(|rs|)) && AllSized(bound, 1) &&
             |bound| == |ls| + |dots|
    requires AllSized(LevelTables(ls, eq, dots), Pow2(|rs|)) &&
             BoundAt(LevelTables(ls, eq, dots), bound, Pow2(|rs|), rs, p)
    requires i < |ls|
    ensures var f := Firsts(bound, 0, |ls|);
      f.left[i] == Mle(ls[i].left, rs, p) && f.right[i] == Mle(ls[i].right, rs, p)
  {
    hide Mle, Pow2, LevelTables, BoundAt, LevelSized, AllSized;
    BoundEntry(ls, eq, dots, bound, rs, i, p);
  }

  lemma DotFirst(ls: seq<Layer>, eq: seq<int>, dots: seq<Tables>, bound: seq<Tables>, rs: seq<int>, i: nat, p: Modulus)
    requires LevelSized(ls, Pow2(|rs|)) && |eq| == Pow2(|rs|) && AllSized(dots, Pow2(|rs|)) && AllSized(bound, 1) &&
             |bound| == |ls| + |dots|
    requires AllSized(LevelTables(ls, eq, dots), Pow2(|rs|)) &&
             BoundAt(LevelTables(ls, eq, dots), bound, Pow2(|rs|), rs, p)
    requires i < |dots|
    ensures var d := Firsts(bound, |ls|, |dots|);
      d.left[i] == Mle(dots[i].A, rs, p) && d.right[i] == Mle(dots[i].B, rs, p) && d.weight[i] == Mle(dots[i].C, rs, p)
  {
    hide Mle, Pow2, LevelTables, BoundAt, LevelSized, AllSized;
    BoundEntry(ls, eq, dots, bound, rs, |ls| + i, p);
  }

  lemma LayersFirst(ls: seq<Layer>, eq: seq<int>, dots: seq<Tables>, bound: seq<Tables>, rs: seq<int>,
                    polys: seq<seq<int>>, p: Modulus)
    requires LevelSized(ls, Pow2(|rs|)) && |eq| == Pow2(|rs|) && AllSized(dots, Pow2(|rs|)) && AllSized(bound, 1) &&
             |bound| == |ls| + |dots|
    requires AllSized(LevelTables(ls, eq, dots), Pow2(|rs|)) &&
             BoundAt(LevelTables(ls, eq, dots), bound, Pow2(|rs|), rs, p)
    ensures var f := Firsts(bound, 0, |ls|); LayersAt(BatchLayer(polys, f.left, f.right), ls, rs, p)
  {
    hide Mle, Pow2, LevelTables, BoundAt, AllSized, Firsts, LevelSized;
    var f := Firsts(bound, 0, |ls|);
    SizedAt(ls, Pow2(|rs|));
    forall i | 0 <= i < |ls| ensures f.left[i] == Mle(ls[i].left, rs, p) && f.right[i] == Mle(ls[i].right, rs, p) {
      LayerFirst(ls, eq, dots, bound, rs, i, p);
    }
  }

  lemma SizedAt(ls: seq<Layer>, n: nat)
    requires LevelSized(ls, n)
    ensures forall i :: 0 <= i < |ls| ==> |ls[i].left| == |ls[i].right| == n
  {
  }

  lemma DotsFirst(ls: seq<Layer>, eq: seq<int>, dots: seq<Tables>, bound: seq<Tables>, rs: seq<int>, p: Modulus)
    requires LevelSized(ls, Pow2(|rs|)) && |eq| == Pow2(|rs|) && AllSized(dots, Pow2(|rs|)) && AllSized(bound, 1) &&
             |bound| == |ls| + |dots|
    requires AllSized(LevelTables(ls, eq, dots), Pow2(|rs|)) &&
             BoundAt(LevelTables(ls, eq, dots), bound, Pow2(|rs|), rs, p)
    ensures DotsAt(Firsts(bound, |ls|, |dots|), dots, rs, p)
  {
    hide Mle, Pow2, LevelTables, BoundAt, LevelSized, Firsts, AllSized;
    var d := Firsts(bound, |ls|, |dots|);
    AllSizedAt(dots, Pow2(|rs|));
    forall i | 0 <= i < |dots|
      ensures d.left[i] == Mle(dots[i].A, rs, p) && d.right[i] == Mle(dots[i].B, rs, p) &&
              d.weight[i] == Mle(dots[i].C, rs, p)
    {
      DotFirst(ls, eq, dots, bound, rs, i, p);
    }
  }

  lemma AllSizedAt(ts: seq<Tables>, n: nat)
    requires AllSized(ts, n)
    ensures forall i :: 0 <= i < |ts| ==> |ts[i].A| == |ts[i].B| == |ts[i].C| == n
  {
  }

  lemma LevelPublishes(oracle: Oracle, log: Log, claims: seq<int>, rand: seq<int>, ls: seq<Layer>, dots: seq<Tables>,
                       p: Modulus)
    requires Prime(p) && p > 3 && LevelSized(ls, Pow2(|rand|)) && AllSized(dots, Pow2(|rand|)) && |claims| == |ls|
    ensures var run := LevelRun(oracle, log, claims, rand, ls, dots, p);
      var lv := ProveLevel(oracle, log, claims, rand, ls, dots, p);
      LayersAt(lv.layer, ls, run.rs, p) && DotsAt(lv.dots, dots, run.rs, p)
  {
    hide Mod, Dot, EqTable, Mle, LevelRun, Pow2, DrawVector, ProdMessages, DotMessages, LevelTables, LevelSized,
         AllSized, BoundAt, Firsts, LayersAt,
         DotsAt, MixAll;
    LevelFinals(oracle, log, claims, rand, ls, dots, p);
    var run := LevelRun(oracle, log, claims, rand, ls, dots, p);
    LevelTablesSized(ls, EqTable(rand, p), dots, Pow2(|rand|));
    LayersFirst(ls, EqTable(rand, p), dots, run.ts, run.rs, run.polys, p);
    DotsFirst(ls, EqTable(rand, p), dots, run.ts, run.rs, p);
  }

  /** The verifier's expected value of the last claim is the prover's last weighted sum. */
  lemma LevelExpected(oracle: Oracle, log: Log, claims: seq<int>, rand: seq<int>, ls: seq<Layer>, dots: seq<Tables>,
                      coeffs: seq<int>, p: Modulus)
    requires Prime(p) && p > 3 && LevelSized(ls, Pow2(|rand|)) && AllSized(dots, Pow2(|rand|)) && |claims| == |ls| &&
             |coeffs| == |ls| + |dots|
    ensures var run := LevelRun(oracle, log, claims, rand, ls, dots, p);
      var lv := ProveLevel(oracle, log, claims, rand, ls, dots, p);
      Cong(BatchTriple(run.ts, coeffs, 1), Dot(FinalValues(lv.layer.left, lv.layer.right, EqEval(rand, run.rs, p),
                                                           lv.dots), coeffs), p)
  {
    hide Mod, Dot, EqTable, Mle, LevelRun, Pow2, DrawVector, ProdMessages, DotMessages, EqEval, BatchTriple,
         FinalValues, LevelTables, BoundAt,
         LevelSized, AllSized, MixAll, Firsts;
    LevelFinals(oracle, log, claims, rand, ls, dots, p);
    var run := LevelRun(oracle, log, claims, rand, ls, dots, p);
    LevelTablesSized(ls, EqTable(rand, p), dots, Pow2(|rand|));
    ExpectedSum(ls, rand, dots, run.ts, run.rs, coeffs, p);
  }

  lemma ExpectedSum(ls: seq<Layer>, rand: seq<int>, dots: seq<Tables>, bound: seq<Tables>, rs: seq<int>,
                    coeffs: seq<int>, p: Modulus)
    requires |rand| == |rs| && LevelSized(ls, Pow2(|rs|)) && AllSized(dots, Pow2(|rs|)) && AllSized(bound, 1) &&
             |bound| == |ls| + |dots|
    requires var ts := LevelTables(ls, EqTable(rand, p), dots);
      AllSized(ts, Pow2(|rs|)) && BoundAt(ts, bound, Pow2(|rs|), rs, p)
    requires |coeffs| == |bound|
    ensures var f, d := Firsts(bound, 0, |ls|), Firsts(bound, |ls|, |dots|);
      Cong(BatchTriple(bound, coeffs, 1), Dot(FinalValues(f.left, f.right, EqEval(rand, rs, p), d), coeffs), p)
  {
    hide Mod, Dot, EqTable, Mle, Pow2, Triple, EqEval, BatchTriple, LevelTables, BoundAt, FinalValues, Firsts,
         LevelSized, AllSized;
    var f, d := Firsts(bound, 0, |ls|), Firsts(bound, |ls|, |dots|);
    var values := FinalValues(f.left, f.right, EqEval(rand, rs, p), d);
    AllSizedAt(bound, 1);
    forall i | 0 <= i < |bound| ensures Cong(Triple(bound[i], 1), values[i], p) {
      ExpectedAt(ls, rand, dots, bound, rs, i, p);
    }
    BatchByValues(bound, coeffs, values, 1, p);
  }

  /** The expected value of one instance. */
  lemma ExpectedAt(ls: seq<Layer>, rand: seq<int>, dots: seq<Tables>, bound: seq<Tables>, rs: seq<int>, i: nat,
                   p: Modulus)
    requires |rand| == |rs| && LevelSized(ls, Pow2(|rs|)) && AllSized(dots, Pow2(|rs|)) && AllSized(bound, 1) &&
             |bound| == |ls| + |dots|
    requires var ts := LevelTables(ls, EqTable(rand, p), dots);
      AllSized(ts, Pow2(|rs|)) && BoundAt(ts, bound, Pow2(|rs|), rs, p)
    requires i < |bound|
    ensures var f, d := Firsts(bound, 0, |ls|), Firsts(bound, |ls|, |dots|);
      Sized(bound[i], 1) && Cong(Triple(bound[i], 1), FinalValues(f.left, f.right, EqEval(rand, rs, p), d)[i], p)
  {
    hide Mod, Dot, EqTable, Mle, Pow2, Triple, EqEval, LevelTables, BoundAt, LevelSized, AllSized;
    AllSizedAt(bound, 1);
    OneEntry(bound[i]);
    if i < |ls| {
      BoundEntry(ls, EqTable(rand, p), dots, bound, rs, i, p);
      EqClaim(rand, rs, p);
      var ab := bound[i].A[0] * bound[i].B[0];
      CongScale(ab, bound[i].C[0], EqEval(rand, rs, p), p);
    }
  }

  lemma OneEntry(t: Tables)
    requires Sized(t, 1)
    ensures Triple(t, 1) == t.A[0] * t.B[0] * t.C[0]
  {
    assert Triple(t, 0) == 0;
  }

  lemma EqClaim(rand: seq<int>, rs: seq<int>, p: Modulus)
    requires |rand| == |rs|
    ensures Cong(Mle(EqTable(rand, p), rs, p), EqEval(rand, rs, p), p)
  {
    hide Mod, Dot, EqTable, EqEval, Mle;
    MleIsDot(EqTable(rand, p), rs, p);
    DotComm(EqTable(rs, p), EqTable(rand, p));
    EqTablesDot(rand, rs, p);
  }

  /** The verifier accepts the prover's level, and draws the same challenges. */
  predicate LevelPasses(oracle: Oracle, log: Log, claims: seq<int>, rand: seq<int>, ls: seq<Layer>, dots: seq<Tables>,
                        p: Modulus)
    requires Prime(p) && p > 3 && LevelSized(ls, Pow2(|rand|)) && AllSized(dots, Pow2(|rand|)) && |claims| == |ls|
  {
    var lv := ProveLevel(oracle, log, claims, rand, ls, dots, p);
    VerifyLevel(oracle, log, claims, DotValues(dots, Pow2(|rand|), p), rand, lv.layer, lv.dots, p) == Some(lv)
  }

  /** From right claims the level passes. */
  lemma LevelAccepted(oracle: Oracle, log: Log, claims: seq<int>, rand: seq<int>, ls: seq<Layer>, dots: seq<Tables>,
                      p: Modulus)
    requires Prime(p) && p > 3 && LevelSized(ls, Pow2(|rand|)) && AllSized(dots, Pow2(|rand|)) && |claims| == |ls| &&
             RightClaims(claims, rand, ls, p)
    ensures LevelPasses(oracle, log, claims, rand, ls, dots, p)
  {
    hide Mod, Dot, EqTable, Mle, LevelRun, Pow2, DrawVector, ProdMessages, DotMessages, EqEval, BatchTriple,
         RightClaims, FinalValues, MixAll,
         VerifySumcheck, DotValues;
    var n := Pow2(|rand|);
    LevelSumcheck(oracle, log, claims, rand, ls, dots, p);
    var run := LevelRun(oracle, log, claims, rand, ls, dots, p);
    var lv := ProveLevel(oracle, log, claims, rand, ls, dots, p);
    var all := LevelClaims(claims, dots, n, p);
    var coeffs := DrawVector(oracle, log, "rand_coeffs_next_layer", |all|, p).0;
    LevelExpected(oracle, log, claims, rand, ls, dots, coeffs, p);
    var values := FinalValues(lv.layer.left, lv.layer.right, EqEval(rand, run.rs, p), lv.dots);
    assert coeffs[..|values|] == coeffs;
    CanonicalMod(run.e, Dot(values, coeffs), p);
  }

  /** The claims a level leaves are right for the whole tables of its layers. */
  predicate TableClaims(claims: seq<int>, rand: seq<int>, ls: seq<Layer>, p: Modulus) {
    |rand| >= 1 && |claims| == |ls| && LevelSized(ls, Pow2(|rand| - 1)) &&
    forall i :: 0 <= i < |ls| ==> TableClaim(claims[i], rand, ls[i], p)
  }

  predicate TableClaim(claim: int, rand: seq<int>, l: Layer, p: Modulus)
    requires |rand| >= 1 && |l.left| == |l.right| == Pow2(|rand| - 1)
  {
    claim == Mle(l.left + l.right, rand, p)
  }

  predicate CanonicalLayers(ls: seq<Layer>, p: Modulus) {
    forall i :: 0 <= i < |ls| ==> CanonicalLayer(ls[i], p)
  }

  lemma LevelReduced(oracle: Oracle, log: Log, claims: seq<int>, rand: seq<int>, ls: seq<Layer>, dots: seq<Tables>,
                     p: Modulus)
    requires Prime(p) && p > 3 && LevelSized(ls, Pow2(|rand|)) && AllSized(dots, Pow2(|rand|)) && |claims| == |ls| &&
             CanonicalLayers(ls, p)
    ensures var lv := ProveLevel(oracle, log, claims, rand, ls, dots, p);
      TableClaims(lv.claims, lv.rand, ls, p) && DotsAt(lv.dots, dots, lv.rand[1..], p) &&
      |lv.dots.left| == |lv.dots.right| == |lv.dots.weight| == |dots|
  {
    hide Mod, Dot, EqTable, Mle, LevelRun, Pow2, DrawVector, ProdMessages, DotMessages, Firsts, CanonicalLayers,
         LevelSized, AllSized, Mix, DotsAt,
         LayersAt, TableClaim;
    LevelPublishes(oracle, log, claims, rand, ls, dots, p);
    var run := LevelRun(oracle, log, claims, rand, ls, dots, p);
    var lv := ProveLevel(oracle, log, claims, rand, ls, dots, p);
    assert lv.rand == [lv.rand[0]] + run.rs && lv.rand[1..] == run.rs;
    SizedAt(ls, Pow2(|rand|));
    DotCount(lv.dots, dots, run.rs, p);
    forall i | 0 <= i < |ls| ensures TableClaim(lv.claims[i], lv.rand, ls[i], p) {
      MixedClaim(lv.layer, ls, run.rs, i, lv.rand[0], p);
      TableClaimIs(lv.claims[i], lv.rand, ls[i], p);
    }
  }

  lemma TableClaimIs(claim: int, rand: seq<int>, l: Layer, p: Modulus)
    requires |rand| >= 1 && |l.left| == |l.right| == Pow2(|rand| - 1) && claim == Mle(l.left + l.right, rand, p)
    ensures TableClaim(claim, rand, l, p)
  {
  }

  lemma DotCount(d: DotClaims, dots: seq<Tables>, rs: seq<int>, p: Modulus)
    requires AllSized(dots, Pow2(|rs|)) && DotsAt(d, dots, rs, p)
    ensures |d.left| == |d.right| == |d.weight| == |dots|
  {
  }

  lemma MixedClaim(layer: BatchLayer, ls: seq<Layer>, rs: seq<int>, i: nat, r: int, p: Modulus)
    requires LevelSized(ls, Pow2(|rs|)) && LayersAt(layer, ls, rs, p) && i < |ls| && CanonicalLayers(ls, p)
    ensures |layer.left| == |layer.right| == |ls| && |ls[i].left| == |ls[i].right| == Pow2(|rs|)
    ensures Mix(layer.left[i], layer.right[i], r, p) == Mle(ls[i].left + ls[i].right, [r] + rs, p)
  {
    hide Mod, Mle, Pow2, Mix, CanonicalLayer;
    MleTop(ls[i], rs, r, p);
  }

  // ---------- all levels ----------

  const NO_DOTS := DotClaims([], [], [])

  /** The claims about a split dot-product circuit's whole tables, from its two halves. */
  function PairMix(d: DotClaims, n: nat, r: int, p: Modulus): (m: seq<int>)
    requires 2 * n <= |d.left| && 2 * n <= |d.right| && 2 * n <= |d.weight|
    ensures |m| == 3 * n
  {
    if n == 0 then [] else
    var i := n - 1;
    PairMix(d, i, r, p) + [Mix(d.left[2 * i], d.left[2 * i + 1], r, p), Mix(d.right[2 * i], d.right[2 * i + 1], r, p),
                           Mix(d.weight[2 * i], d.weight[2 * i + 1], r, p)]
  }

  /** Level j holds layer j of every circuit, the input layers first; the last has 2^m entries a half. */
  predicate LevelsSized(levels: seq<seq<Layer>>, count: nat, m: nat) {
    forall j :: 0 <= j < |levels| ==> |levels[j]| == count && LevelSized(levels[j], Pow2(m + |levels| - 1 - j))
  }

  predicate DotsSized(dots: seq<Tables>, levels: nat, m: nat) {
    levels >= 1 && AllSized(dots, Pow2(m + levels - 1))
  }

  datatype BatchRun = BatchRun(proofs: seq<BatchLayer>, dots: DotClaims, claims: seq<int>, rand: seq<int>, log: Log)

  function UpperLevels(levels: seq<seq<Layer>>, count: nat, m: nat): (up: seq<seq<Layer>>)
    requires LevelsSized(levels, count, m) && |levels| > 0
    ensures |up| == |levels| - 1 && LevelsSized(up, count, m + 1) && up == levels[..|levels| - 1]
  {
    levels[..|levels| - 1]
  }

  lemma LastLevel(levels: seq<seq<Layer>>, count: nat, m: nat)
    requires LevelsSized(levels, count, m) && |levels| > 0
    ensures |levels[|levels| - 1]| == count && LevelSized(levels[|levels| - 1], Pow2(m))
  {
    hide LevelSized, Pow2;
  }

  lemma HereSized(dots: seq<Tables>, levels: nat, m: nat)
    requires DotsSized(dots, levels, m)
    ensures levels >= 1 && AllSized(if levels == 1 then dots else [], Pow2(m))
    ensures levels > 1 ==> DotsSized(dots, levels - 1, m + 1)
  {
    hide Pow2;
  }

  /** The last of the levels; the dot products take part when it is also the first. */
  function ProveLast(oracle: Oracle, log: Log, claims: seq<int>, rand: seq<int>, levels: seq<seq<Layer>>,
                     dots: seq<Tables>, p: Modulus): (lv: Level)
    requires Prime(p) && p > 3 && LevelsSized(levels, |claims|, |rand|) && DotsSized(dots, |levels|, |rand|)
    ensures |lv.rand| == |rand| + 1 && |lv.claims| == |claims|
  {
    hide *;
    HereSized(dots, |levels|, |rand|);
    LastLevel(levels, |claims|, |rand|);
    ProveLevel(oracle, log, claims, rand, levels[|levels| - 1], if |levels| == 1 then dots else [], p)
  }

  /** The prover, from the last level to the input level, where the dot products join. */
  function ProveLevels(oracle: Oracle, log: Log, claims: seq<int>, rand: seq<int>, levels: seq<seq<Layer>>,
                       dots: seq<Tables>, p: Modulus): (run: BatchRun)
    requires Prime(p) && p > 3 && LevelsSized(levels, |claims|, |rand|) && DotsSized(dots, |levels|, |rand|)
    decreases |levels|
  {
    hide *;
    HereSized(dots, |levels|, |rand|);
    var lv := ProveLast(oracle, log, claims, rand, levels, dots, p);
    if |levels| == 1 then BatchRun([lv.layer], lv.dots, lv.claims, lv.rand, lv.log) else
    var up := UpperLevels(levels, |claims|, |rand|);
    var rest := ProveLevels(oracle, lv.log, lv.claims, lv.rand, up, dots, p);
    BatchRun([lv.layer] + rest.proofs, rest.dots, rest.claims, rest.rand, rest.log)
  }

  lemma {:induction false} LevelsShape(oracle: Oracle, log: Log, claims: seq<int>, rand: seq<int>,
                                       levels: seq<seq<Layer>>, dots: seq<Tables>, p: Modulus)
    requires Prime(p) && p > 3 && LevelsSized(levels, |claims|, |rand|) && DotsSized(dots, |levels|, |rand|)
    ensures var run := ProveLevels(oracle, log, claims, rand, levels, dots, p);
      |run.rand| == |rand| + |levels| && |run.proofs| == |levels| && |run.claims| == |claims|
    decreases |levels|
  {
    hide LevelsSized, DotsSized, ProveLast, UpperLevels;
    HereSized(dots, |levels|, |rand|);
    var lv := ProveLast(oracle, log, claims, rand, levels, dots, p);
    if |levels| == 1 {
    } else {
      LevelsShape(oracle, lv.log, lv.claims, lv.rand, UpperLevels(levels, |claims|, |rand|), dots, p);
    }
  }

  /** What the verifier returns: the claims about the input tables, about the dot products' tables, and the point. */
  datatype BatchClaims = BatchClaims(claims: seq<int>, dots: seq<int>, rand: seq<int>, log: Log)

  function VerifyLevels(oracle: Oracle, log: Log, claims: seq<int>, dotClaims: seq<int>, rand: seq<int>,
                        proofs: seq<BatchLayer>, d: DotClaims, p: Modulus)
    : Option<BatchClaims>
    requires Prime(p)
    decreases |proofs|
  {
    if |proofs| == 0 then Some(BatchClaims(claims, [], rand, log)) else
    var last := |proofs| == 1;
    match VerifyLevel(oracle, log, claims, if last then dotClaims else [], rand, proofs[0],
                      if last then d else NO_DOTS, p)
    case None => None
    case Some(lv) =>
      if !last then VerifyLevels(oracle, lv.log, lv.claims, dotClaims, lv.rand, proofs[1..], d, p) else
      var n := |dotClaims| / 2;
      if |lv.rand| == 0 || 2 * n > |d.left| || 2 * n > |d.right| || 2 * n > |d.weight| then None else
      Some(BatchClaims(lv.claims, PairMix(d, n, lv.rand[0], p), lv.rand, lv.log))
  }

  /** Every level's tables are the products of the level below it. */
  predicate LevelsChained(levels: seq<seq<Layer>>, p: Modulus) {
    forall j :: 0 <= j < |levels| - 1 ==> LevelChained(levels[j], levels[j + 1], p)
  }

  predicate LevelChained(below: seq<Layer>, above: seq<Layer>, p: Modulus) {
    |below| == |above| && forall i :: 0 <= i < |below| ==>
      |below[i].left| == |below[i].right| && above[i].left + above[i].right == Products(below[i], p)
  }

  predicate CanonicalLevels(levels: seq<seq<Layer>>, p: Modulus) {
    forall j :: 0 <= j < |levels| ==> CanonicalLayers(levels[j], p)
  }

  /** Claims about a level's tables are claims about the products of the level below. */
  lemma ClaimsPassDown(claims: seq<int>, rand: seq<int>, below: seq<Layer>, above: seq<Layer>, p: Modulus)
    requires TableClaims(claims, rand, above, p) && LevelChained(below, above, p) && LevelSized(below, Pow2(|rand|))
    ensures RightClaims(claims, rand, below, p)
  {
    hide Mle, Products, Pow2;
    forall i | 0 <= i < |below| ensures claims[i] == Mle(Products(below[i], p), rand, p) {
      assert TableClaim(claims[i], rand, above[i], p);
    }
  }

  lemma UpperParts(levels: seq<seq<Layer>>, count: nat, m: nat, p: Modulus)
    requires LevelsSized(levels, count, m) && |levels| >= 2 && LevelsChained(levels, p) && CanonicalLevels(levels, p)
    ensures var up := UpperLevels(levels, count, m); var k := |levels| - 1;
      LevelsChained(up, p) && CanonicalLevels(up, p) && up[0] == levels[0] && LevelChained(up[k - 1], levels[k], p)
  {
    hide LevelChained, CanonicalLayers, LevelSized, Pow2;
    var k := |levels| - 1;
    assert LevelChained(levels[k - 1], levels[k - 1 + 1], p);
  }

  /** The value of every dot-product circuit. */
  function DotInputs(dots: seq<Tables>, levels: nat, m: nat, p: Modulus): (v: seq<int>)
    requires DotsSized(dots, levels, m)
    ensures |v| == |dots|
  {
    DotValues(dots, Pow2(m + levels - 1), p)
  }

  lemma NoneSized(n: nat, p: Modulus)
    ensures AllSized([], n) && DotValues([], n, p) == []
  {
  }

  lemma NoDots(d: DotClaims)
    requires |d.left| == |d.right| == |d.weight| == 0
    ensures d == NO_DOTS
  {
  }

  lemma CanonicalAt(levels: seq<seq<Layer>>, j: nat, p: Modulus)
    requires CanonicalLevels(levels, p) && j < |levels|
    ensures CanonicalLayers(levels[j], p)
  {
    hide CanonicalLayers;
  }

  /** The three tables of every dot product are published at the point's lower coordinates. */
  predicate DotsPublished(d: DotClaims, dots: seq<Tables>, rand: seq<int>, p: Modulus) {
    |rand| >= 1 && |d.left| == |d.right| == |d.weight| == |dots| && AllSized(dots, Pow2(|rand| - 1)) &&
    DotsAt(d, dots, rand[1..], p)
  }

  lemma Published(d: DotClaims, dots: seq<Tables>, rand: seq<int>, p: Modulus)
    requires |rand| >= 1 && AllSized(dots, Pow2(|rand| - 1)) && DotsAt(d, dots, rand[1..], p)
    ensures DotsPublished(d, dots, rand, p)
  {
  }

  /** What the verifier returns when it follows a run. */
  function Followed(run: BatchRun, dots: seq<Tables>, p: Modulus): BatchClaims
    requires DotsPublished(run.dots, dots, run.rand, p)
  {
    BatchClaims(run.claims, PairMix(run.dots, |dots| / 2, run.rand[0], p), run.rand, run.log)
  }

  /**
   From right claims the verifier accepts, with right claims about the input tables and right published
   dot-product tables.
   */
  lemma {:induction false} LevelsAccepted(oracle: Oracle, log: Log, claims: seq<int>, rand: seq<int>,
                                          levels: seq<seq<Layer>>, dots: seq<Tables>, p: Modulus)
    requires Prime(p) && p > 3 && LevelsSized(levels, |claims|, |rand|) && DotsSized(dots, |levels|, |rand|)
    requires LevelsChained(levels, p) && CanonicalLevels(levels, p)
    requires LevelSized(levels[|levels| - 1], Pow2(|rand|)) && RightClaims(claims, rand, levels[|levels| - 1], p)
    ensures var run := ProveLevels(oracle, log, claims, rand, levels, dots, p);
      TableClaims(run.claims, run.rand, levels[0], p) && DotsPublished(run.dots, dots, run.rand, p) &&
      VerifyLevels(oracle, log, claims, DotInputs(dots, |levels|, |rand|, p), rand, run.proofs, run.dots,
                   p) == Some(Followed(run, dots, p))
    decreases |levels|
  {
    hide *;
    LevelsExist(dots, |levels|, |rand|);
    var k := |levels| - 1;
    LastLevel(levels, |claims|, |rand|);
    CanonicalAt(levels, k, p);
    HereSized(dots, |levels|, |rand|);
    LevelAccepted(oracle, log, claims, rand, levels[k], if k == 0 then dots else [], p);
    if k == 0 {
      InputLevel(oracle, log, claims, rand, levels, dots, p);
    } else {
      UpperLevel(oracle, log, claims, rand, levels, dots, p);
      var lv := ProveLevel(oracle, log, claims, rand, levels[k], [], p);
      var up := UpperLevels(levels, |claims|, |rand|);
      UpperParts(levels, |claims|, |rand|, p);
      LastLevel(up, |claims|, |rand| + 1);
      LevelsAccepted(oracle, lv.log, lv.claims, lv.rand, up, dots, p);
      DotInputsSame(dots, |levels|, |rand|, p);
      var rest := ProveLevels(oracle, lv.log, lv.claims, lv.rand, up, dots, p);
      FollowedSame(rest, [lv.layer] + rest.proofs, dots, p);
    }
  }

  lemma FollowedSame(run: BatchRun, proofs: seq<BatchLayer>, dots: seq<Tables>, p: Modulus)
    requires DotsPublished(run.dots, dots, run.rand, p)
    ensures Followed(run.(proofs := proofs), dots, p) == Followed(run, dots, p)
  {
    hide PairMix, DotsPublished;
    assert DotsPublished(run.(proofs := proofs).dots, dots, run.(proofs := proofs).rand, p);
  }

  lemma LevelsExist(dots: seq<Tables>, levels: nat, m: nat)
    requires DotsSized(dots, levels, m)
    ensures levels >= 1
  {
  }

  lemma DotInputsSame(dots: seq<Tables>, levels: nat, m: nat, p: Modulus)
    requires DotsSized(dots, levels, m) && levels > 1 && DotsSized(dots, levels - 1, m + 1)
    ensures DotInputs(dots, levels - 1, m + 1, p) == DotInputs(dots, levels, m, p)
  {
    hide DotValues, Pow2;
  }

  /** The last step, at the input level. */
  lemma InputLevel(oracle: Oracle, log: Log, claims: seq<int>, rand: seq<int>, levels: seq<seq<Layer>>,
                   dots: seq<Tables>, p: Modulus)
    requires Prime(p) && p > 3 && |levels| == 1 && LevelsSized(levels, |claims|, |rand|) && DotsSized(dots, 1, |rand|)
    requires |levels[0]| == |claims| && LevelSized(levels[0], Pow2(|rand|)) && AllSized(dots, Pow2(|rand|)) &&
             CanonicalLayers(levels[0], p) && LevelPasses(oracle, log, claims, rand, levels[0], dots, p)
    ensures var run := ProveLevels(oracle, log, claims, rand, levels, dots, p);
      TableClaims(run.claims, run.rand, levels[0], p) && DotsPublished(run.dots, dots, run.rand, p) &&
      VerifyLevels(oracle, log, claims, DotInputs(dots, 1, |rand|, p), rand, run.proofs, run.dots,
                   p) == Some(Followed(run, dots, p))
  {
    hide Mod, Mle, Pow2, ProveLevel, VerifyLevel, LevelsSized, LevelSized, AllSized, DotValues, TableClaims, DotsAt,
         PairMix, RightClaims, DotsPublished,
         CanonicalLayers;
    HereSized(dots, 1, |rand|);
    LevelReduced(oracle, log, claims, rand, levels[0], dots, p);
    var lv := ProveLevel(oracle, log, claims, rand, levels[0], dots, p);
    Published(lv.dots, dots, lv.rand, p);
    assert DotInputs(dots, 1, |rand|, p) == DotValues(dots, Pow2(|rand|), p);
    assert ProveLevels(oracle, log, claims, rand, levels, dots, p)
        == BatchRun([lv.layer], lv.dots, lv.claims, lv.rand, lv.log);
    assert |[lv.layer]| == 1 && [lv.layer][0] == lv.layer;
  }

  /** A step above the input level. */
  lemma UpperLevel(oracle: Oracle, log: Log, claims: seq<int>, rand: seq<int>, levels: seq<seq<Layer>>,
                   dots: seq<Tables>, p: Modulus)
    requires Prime(p) && p > 3 && |levels| > 1 && LevelsSized(levels, |claims|, |rand|) &&
             DotsSized(dots, |levels|, |rand|)
    requires LevelsChained(levels, p) && CanonicalLevels(levels, p)
    requires var k := |levels| - 1;
      |levels[k]| == |claims| && LevelSized(levels[k], Pow2(|rand|)) && AllSized([], Pow2(|rand|)) &&
      CanonicalLayers(levels[k], p) && LevelPasses(oracle, log, claims, rand, levels[k], [], p)
    ensures DotsSized(dots, |levels| - 1, |rand| + 1)
    ensures var k := |levels| - 1;
      var lv := ProveLevel(oracle, log, claims, rand, levels[k], [], p);
      var up := UpperLevels(levels, |claims|, |rand|);
      var rest := ProveLevels(oracle, lv.log, lv.claims, lv.rand, up, dots, p);
      LevelSized(up[k - 1], Pow2(|lv.rand|)) && RightClaims(lv.claims, lv.rand, up[k - 1], p) &&
      ProveLevels(oracle, log, claims, rand, levels, dots, p) == rest.(proofs := [lv.layer] + rest.proofs) &&
      VerifyLevels(oracle, log, claims, DotInputs(dots, |levels|, |rand|, p), rand, [lv.layer] + rest.proofs,
                   rest.dots, p)
        == VerifyLevels(oracle, lv.log, lv.claims, DotInputs(dots, |levels|, |rand|, p), lv.rand, rest.proofs,
                        rest.dots, p)
  {
    hide Mod, Mle, Pow2, ProveLevel, VerifyLevel, LevelsSized, LevelSized, AllSized, DotValues, TableClaims, DotsAt,
         PairMix, RightClaims,
         CanonicalLayers, LevelsChained, LevelChained, CanonicalLevels, DotsSized, DotInputs;
    var k := |levels| - 1;
    HereSized(dots, |levels|, |rand|);
    LevelReduced(oracle, log, claims, rand, levels[k], [], p);
    NoneSized(Pow2(|rand|), p);
    var lv := ProveLevel(oracle, log, claims, rand, levels[k], [], p);
    var up := UpperLevels(levels, |claims|, |rand|);
    UpperParts(levels, |claims|, |rand|, p);
    LastLevel(up, |claims|, |rand| + 1);
    ClaimsPassDown(lv.claims, lv.rand, up[k - 1], levels[k], p);
    NoDots(lv.dots);
    UpperStep(oracle, log, claims, rand, levels, dots, p);
    var rest := ProveLevels(oracle, lv.log, lv.claims, lv.rand, up, dots, p);
    VerifyUpper(oracle, log, claims, DotInputs(dots, |levels|, |rand|, p), rand, rest.proofs, rest.dots, lv, p);
  }

  lemma UpperStep(oracle: Oracle, log: Log, claims: seq<int>, rand: seq<int>, levels: seq<seq<Layer>>,
                  dots: seq<Tables>, p: Modulus)
    requires Prime(p) && p > 3 && |levels| > 1 && LevelsSized(levels, |claims|, |rand|) &&
             DotsSized(dots, |levels|, |rand|)
    requires DotsSized(dots, |levels| - 1, |rand| + 1) && |levels[|levels| - 1]| == |claims|
    requires LevelSized(levels[|levels| - 1], Pow2(|rand|)) && AllSized([], Pow2(|rand|))
    ensures var lv := ProveLevel(oracle, log, claims, rand, levels[|levels| - 1], [], p);
      var rest := ProveLevels(oracle, lv.log, lv.claims, lv.rand, UpperLevels(levels, |claims|, |rand|), dots, p);
      ProveLevels(oracle, log, claims, rand, levels, dots, p) == rest.(proofs := [lv.layer] + rest.proofs)
  {
    hide Pow2, ProveLevel, LevelsSized, LevelSized, AllSized, DotsSized;
  }

  lemma VerifyUpper(oracle: Oracle, log: Log, claims: seq<int>, dotClaims: seq<int>, rand: seq<int>,
                    proofs: seq<BatchLayer>, d: DotClaims, lv: Level,
                    p: Modulus)
    requires Prime(p) && |proofs| >= 1 && VerifyLevel(oracle, log, claims, [], rand, lv.layer, NO_DOTS, p) == Some(lv)
    ensures VerifyLevels(oracle, log, claims, dotClaims, rand, [lv.layer] + proofs, d, p)
         == VerifyLevels(oracle, lv.log, lv.claims, dotClaims, lv.rand, proofs, d, p)
  {
    hide VerifyLevel, PairMix;
    assert ([lv.layer] + proofs)[1..] == proofs;
  }

  // ---------- whole proofs ----------

  predicate InputTables(Ts: seq<seq<int>>, k: nat, p: Modulus) {
    forall i :: 0 <= i < |Ts| ==> |Ts[i]| == Pow2(k) && CanonicalV(Ts[i], p)
  }

  function LevelOf(Ts: seq<seq<int>>, k: nat, j: nat, p: Modulus): (ls: seq<Layer>)
    requires k >= 1 && j < k && InputTables(Ts, k, p)
    ensures |ls| == |Ts|
  {
    seq(|Ts|, i requires 0 <= i < |Ts| => Layers(Ts[i], k, p)[j])
  }

  /** The layers of all circuits, level by level. */
  function LevelsOf(Ts: seq<seq<int>>, k: nat, p: Modulus): (levels: seq<seq<Layer>>)
    requires k >= 1 && InputTables(Ts, k, p)
    ensures |levels| == k
  {
    seq(k, j requires 0 <= j < k => LevelOf(Ts, k, j, p))
  }

  lemma LevelOfSized(Ts: seq<seq<int>>, k: nat, j: nat, p: Modulus)
    requires k >= 1 && j < k && InputTables(Ts, k, p)
    ensures LevelSized(LevelOf(Ts, k, j, p), Pow2(k - 1 - j)) && CanonicalLayers(LevelOf(Ts, k, j, p), p)
  {
    hide Mod, Layers, CanonicalLayer, Pow2, CanonicalV, Chained;
    var ls := LevelOf(Ts, k, j, p);
    forall i | 0 <= i < |Ts| ensures |ls[i].left| == |ls[i].right| == Pow2(k - 1 - j) && CanonicalLayer(ls[i], p) {
      LayersChained(Ts[i], k, p);
      LayerAt(Layers(Ts[i], k, p), j);
    }
  }

  lemma LayerAt(ls: seq<Layer>, j: nat)
    requires LayersSized(ls, 0) && j < |ls|
    ensures |ls[j].left| == |ls[j].right| == Pow2(|ls| - 1 - j)
  {
    hide Pow2;
  }

  lemma LevelOfChained(Ts: seq<seq<int>>, k: nat, j: nat, p: Modulus)
    requires k >= 1 && j + 1 < k && InputTables(Ts, k, p)
    ensures LevelChained(LevelOf(Ts, k, j, p), LevelOf(Ts, k, j + 1, p), p)
  {
    hide Mod, Layers, CanonicalLayer, Pow2, CanonicalV, Products;
    var below, above := LevelOf(Ts, k, j, p), LevelOf(Ts, k, j + 1, p);
    forall i | 0 <= i < |Ts|
      ensures |below[i].left| == |below[i].right| && above[i].left + above[i].right == Products(below[i], p)
    {
      LayersChained(Ts[i], k, p);
      LayerAt(Layers(Ts[i], k, p), j);
      ChainedAt(Layers(Ts[i], k, p), j, p);
    }
  }

  lemma ChainedAt(ls: seq<Layer>, j: nat, p: Modulus)
    requires (forall i :: 0 <= i < |ls| ==> |ls[i].left| == |ls[i].right|) && Chained(ls, p) && j + 1 < |ls|
    ensures ls[j + 1].left + ls[j + 1].right == Products(ls[j], p)
  {
    hide Products;
  }

  lemma LevelsOfShape(Ts: seq<seq<int>>, k: nat, p: Modulus)
    requires k >= 1 && InputTables(Ts, k, p)
    ensures var levels := LevelsOf(Ts, k, p);
      LevelsSized(levels, |Ts|, 0) && LevelsChained(levels, p) && CanonicalLevels(levels, p)
  {
    hide LevelOf, LevelSized, CanonicalLayers, LevelChained, Pow2, InputTables;
    var levels := LevelsOf(Ts, k, p);
    forall j | 0 <= j < k ensures LevelSized(levels[j], Pow2(0 + k - 1 - j)) && CanonicalLayers(levels[j], p) {
      LevelOfSized(Ts, k, j, p);
    }
    forall j | 0 <= j < k - 1 ensures LevelChained(levels[j], levels[j + 1], p) {
      LevelOfChained(Ts, k, j, p);
    }
  }

  /** The product of every table. */
  function Roots(Ts: seq<seq<int>>, p: Modulus): (v: seq<int>)
    ensures |v| == |Ts|
  {
    seq(|Ts|, i requires 0 <= i < |Ts| => Mod(Prod(Ts[i]), p))
  }

  lemma RootsRight(Ts: seq<seq<int>>, k: nat, p: Modulus)
    requires k >= 1 && InputTables(Ts, k, p)
    ensures var ls := LevelOf(Ts, k, k - 1, p); LevelSized(ls, Pow2(0)) && RightClaims(Roots(Ts, p), [], ls, p)
  {
    hide Mod, Layers, CanonicalLayer, CanonicalV, Products, Mle, Prod, CanonicalLayers, Pow2;
    var ls := LevelOf(Ts, k, k - 1, p);
    LevelOfSized(Ts, k, k - 1, p);
    forall i | 0 <= i < |Ts| ensures Roots(Ts, p)[i] == Mle(Products(ls[i], p), [], p) {
      RootRight(Ts[i], k, p);
    }
  }

  lemma RootRight(T: seq<int>, k: nat, p: Modulus)
    requires k >= 1 && |T| == Pow2(k)
    ensures var l := Layers(T, k, p)[k - 1]; |l.left| == |l.right| == 1 && Mod(Prod(T), p) == Mle(Products(l, p), [], p)
  {
    hide Mod, Prod, Products, Mle, Layers;
    RootIsProduct(T, k, p);
    LayerAt(Layers(T, k, p), k - 1);
    RootClaim(Layers(T, k, p)[k - 1], p);
  }

  function ProveBatch(oracle: Oracle, log: Log, Ts: seq<seq<int>>, k: nat, dots: seq<Tables>,
                      p: Modulus): (run: BatchRun)
    requires Prime(p) && p > 3 && k >= 1 && |Ts| >= 1 && InputTables(Ts, k, p) && AllSized(dots, Pow2(k - 1))
  {
    LevelsOfShape(Ts, k, p);
    ProveLevels(oracle, log, Roots(Ts, p), [], LevelsOf(Ts, k, p), dots, p)
  }

  function VerifyBatch(oracle: Oracle, log: Log, claims: seq<int>, dotClaims: seq<int>, k: nat,
                       proofs: seq<BatchLayer>, d: DotClaims, p: Modulus)
    : Option<BatchClaims>
    requires Prime(p)
  {
    if |proofs| != k then None else VerifyLevels(oracle, log, claims, dotClaims, [], proofs, d, p)
  }

  /**
   The batched proof: for the true products and dot products the verifier accepts, and returns for every
   circuit the multilinear extension of its input table at the returned point.
   */
  lemma BatchVerdict(oracle: Oracle, log: Log, Ts: seq<seq<int>>, k: nat, dots: seq<Tables>, p: Modulus)
    requires Prime(p) && p > 3 && k >= 1 && |Ts| >= 1 && InputTables(Ts, k, p) && AllSized(dots, Pow2(k - 1))
    ensures var run := ProveBatch(oracle, log, Ts, k, dots, p);
      |run.rand| == k && DotsPublished(run.dots, dots, run.rand, p) &&
      VerifyBatch(oracle, log, Roots(Ts, p), DotValues(dots, Pow2(k - 1), p), k, run.proofs, run.dots,
                  p) == Some(Followed(run, dots, p)) &&
      |run.claims| == |Ts| && forall i :: 0 <= i < |Ts| ==> run.claims[i] == Mle(Ts[i], run.rand, p)
  {
    hide Mod, Mle, ProveLevels, VerifyLevels, LevelOf, LevelsSized, LevelsChained, CanonicalLevels, DotsPublished,
         Followed, AllSized, DotValues, Pow2,
         RightClaims, LevelSized, Roots, CanonicalV, TableClaims;
    LevelsOfShape(Ts, k, p);
    RootsRight(Ts, k, p);
    LevelsAccepted(oracle, log, Roots(Ts, p), [], LevelsOf(Ts, k, p), dots, p);
    var run := ProveBatch(oracle, log, Ts, k, dots, p);
    LevelsShape(oracle, log, Roots(Ts, p), [], LevelsOf(Ts, k, p), dots, p);
    InputClaims(Ts, k, run.claims, run.rand, p);
  }

  lemma InputClaims(Ts: seq<seq<int>>, k: nat, claims: seq<int>, rand: seq<int>, p: Modulus)
    requires k >= 1 && InputTables(Ts, k, p) && |rand| == k && TableClaims(claims, rand, LevelOf(Ts, k, 0, p), p)
    ensures |claims| == |Ts| && forall i :: 0 <= i < |Ts| ==> claims[i] == Mle(Ts[i], rand, p)
  {
    hide Mod, Mle, Layers, CanonicalLayer, Pow2, CanonicalV, Chained;
    var ls := LevelOf(Ts, k, 0, p);
    forall i | 0 <= i < |Ts| ensures claims[i] == Mle(Ts[i], rand, p) {
      LayersChained(Ts[i], k, p);
      assert TableClaim(claims[i], rand, ls[i], p);
      assert ls[i].left + ls[i].right == Ts[i];
    }
  }

  /** The returned dot-product claims are the extensions of the unsplit tables, two halves at a time. */
  lemma {:induction false} PairsAreWhole(d: DotClaims, dots: seq<Tables>, rand: seq<int>, n: nat, j: nat, p: Modulus)
    requires DotsPublished(d, dots, rand, p) && 2 * n <= |dots| && j < n
    requires forall i :: 0 <= i < |dots|
               ==> CanonicalV(dots[i].A, p) && CanonicalV(dots[i].B, p) && CanonicalV(dots[i].C, p)
    ensures var m := PairMix(d, n, rand[0], p); var x, y := dots[2 * j], dots[2 * j + 1];
      Sized(x, Pow2(|rand| - 1)) && Sized(y, Pow2(|rand| - 1)) && Pow2(|rand|) == 2 * Pow2(|rand| - 1) &&
      m[3 * j] == Mle(x.A + y.A, rand, p) && m[3 * j + 1] == Mle(x.B + y.B, rand, p) &&
      m[3 * j + 2] == Mle(x.C + y.C, rand, p)
    decreases n
  {
    hide Mod, Mle, Pow2, Mix, CanonicalV;
    Pow2Next(|rand| - 1);
    if j < n - 1 {
      PairsAreWhole(d, dots, rand, n - 1, j, p);
    } else {
      var x, y := dots[2 * j], dots[2 * j + 1];
      assert rand == [rand[0]] + rand[1..];
      MleTop(Layer(x.A, y.A), rand[1..], rand[0], p);
      MleTop(Layer(x.B, y.B), rand[1..], rand[0], p);
      MleTop(Layer(x.C, y.C), rand[1..], rand[0], p);
    }
  }
}
