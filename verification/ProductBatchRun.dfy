/** The loops of the batched layered product proof, over one transcript. */
module ProductBatchRun {
  import opened PowersOfTwo
  import opened PrimeField
  import opened Vectors
  import opened Transcript
  import opened Multilinear
  import opened SumcheckSpec
  import opened ProductTree
  import opened ProductBatch
  import opened PolyPool
  import Sumcheck

  method ChallengeVector(tape: Tape, tag: string, n: nat, p: Modulus) returns (cs: seq<int>)
    modifies tape
    ensures (cs, tape.log) == DrawVector(tape.oracle, old(tape.log), tag, n, p)
  {
    hide Mod;
    cs := [];
    for i := 0 to n
      invariant (cs, tape.log) == DrawVector(tape.oracle, old(tape.log), tag, i, p)
    {
      var c := tape.ChallengeScalar(tag, p);
      cs := cs + [c];
    }
  }

  method AppendClaims(tape: Tape, left: seq<int>, right: seq<int>, n: nat)
    requires n <= |left| && n <= |right|
    modifies tape
    ensures tape.log == old(tape.log) + ProdMessages(left, right, n)
  {
    for i := 0 to n
      invariant tape.log == old(tape.log) + ProdMessages(left, right, i)
    {
      tape.Append(Scalar("claim_prod_left", left[i]));
      tape.Append(Scalar("claim_prod_right", right[i]));
    }
  }

  method AppendDots(tape: Tape, d: DotClaims, n: nat)
    requires n <= |d.left| && n <= |d.right| && n <= |d.weight|
    modifies tape
    ensures tape.log == old(tape.log) + DotMessages(d, n)
  {
    for i := 0 to n
      invariant tape.log == old(tape.log) + DotMessages(d, i)
    {
      tape.Append(Scalar("claim_dotp_left", d.left[i]));
      tape.Append(Scalar("claim_dotp_right", d.right[i]));
      tape.Append(Scalar("claim_dotp_weight", d.weight[i]));
    }
  }

  // ---------- the prover ----------

  /** The dot-product circuits' polynomials. */
  datatype DotPolys = DotPolys(left: seq<DensePolynomial>, right: seq<DensePolynomial>, weight: seq<DensePolynomial>)

  const NO_POLYS := DotPolys([], [], [])

  /** The polynomials of one level: all left halves, all right halves, and the dot products' three lists. */
  function LevelPool(lefts: seq<DensePolynomial>, rights: seq<DensePolynomial>, dps: DotPolys): seq<DensePolynomial> {
    Sumcheck.Pool(lefts, rights, dps.left, dps.right, dps.weight)
  }

  /** The tables of one level in the same order. */
  ghost function LevelContents(ls: seq<Layer>, dots: seq<Tables>): (vs: seq<seq<int>>)
    ensures |vs| == 2 * |ls| + 3 * |dots|
  {
    seq(|ls|, i requires 0 <= i < |ls| => ls[i].left) + seq(|ls|, i requires 0 <= i < |ls| => ls[i].right) +
    seq(|dots|, i requires 0 <= i < |dots| => dots[i].A) + seq(|dots|, i requires 0 <= i < |dots| => dots[i].B) +
    seq(|dots|, i requires 0 <= i < |dots| => dots[i].C)
  }

  /** The polynomials hold the level's tables. */
  ghost predicate HoldsLevel(pool: seq<DensePolynomial>, ls: seq<Layer>, dots: seq<Tables>, k: nat)
    reads pool, Buffers(pool)
  {
    Ready(pool, k) && Contents(pool, k) == LevelContents(ls, dots)
  }

  lemma {:induction false} ContentsAt(ls: seq<Layer>, dots: seq<Tables>, i: nat)
    requires i < |ls| + |dots|
    ensures var m, n, us := |ls|, |dots|, LevelContents(ls, dots);
      if i < m then us[i] == ls[i].left && us[m + i] == ls[i].right
      else us[m + i] == dots[i - m].A && us[m + n + i] == dots[i - m].B && us[m + 2 * n + i] == dots[i - m].C
  {
  }

  /** The level's tables behind the shared equality table are its instances. */
  lemma ArrangedLevel(eq: seq<int>, ls: seq<Layer>, dots: seq<Tables>)
    ensures Sumcheck.Arrange([eq] + LevelContents(ls, dots), |ls|, |dots|) == LevelTables(ls, eq, dots)
  {
    hide LevelContents, Sumcheck.Arrange, LevelTables;
    var m, n, us := |ls|, |dots|, LevelContents(ls, dots);
    var ts, level := Sumcheck.Arrange([eq] + us, m, n), LevelTables(ls, eq, dots);
    forall i | 0 <= i < m + n ensures ts[i] == level[i] {
      ArrangedAt(eq, ls, dots, i);
    }
  }

  lemma ArrangedAt(eq: seq<int>, ls: seq<Layer>, dots: seq<Tables>, i: nat)
    requires i < |ls| + |dots|
    ensures Sumcheck.Arrange([eq] + LevelContents(ls, dots), |ls|, |dots|)[i] == LevelTables(ls, eq, dots)[i]
  {
    hide LevelContents, Sumcheck.Arrange;
    var m, n, us := |ls|, |dots|, LevelContents(ls, dots);
    var vs := [eq] + us;
    Sumcheck.ArrangeAt(vs, m, n, i);
    ContentsAt(ls, dots, i);
    if i < m {
      assert vs[0] == eq && vs[1 + i] == us[i] && vs[1 + m + i] == us[m + i];
    } else {
      assert vs[1 + m + i] == us[m + i] && vs[1 + m + n + i] == us[m + n + i] &&
             vs[1 + m + 2 * n + i] == us[m + 2 * n + i];
    }
  }

  /** The equality table that all circuits share on one level, and the level's instances. */
  method ShareEquality(rand: seq<int>, pool: seq<DensePolynomial>, m: nat, n: nat, ghost ls: seq<Layer>,
                       ghost dots: seq<Tables>,
                       p: Modulus)
    returns (eq: DensePolynomial, tables: seq<Tables>)
    requires Apart(pool) && |ls| == m && |dots| == n && HoldsLevel(pool, ls, dots, |rand|)
    ensures fresh(eq) && fresh(eq.z) && eq.len == Pow2(|rand|) && Apart([eq] + pool) && Ready([eq] + pool, |rand|)
    ensures |pool| == 2 * m + 3 * n && Sumcheck.Arrange(Contents([eq] + pool, |rand|), m, n) == tables
    ensures tables == LevelTables(ls, EqTable(rand, p), dots)
  {
    hide Mod, EqTable, LevelTables, Pow2, LevelContents, Contents, Sumcheck.Arrange, Apart, Ready;
    assert forall o :: o in Buffers(pool) ==> allocated(o);
    var evals := Evals(rand, p);
    eq := new DensePolynomial(evals[..], |rand|);
    assert Disjoint([eq], pool);
    ApartCons(eq, pool);
    ContentsCons(eq, pool, |rand|);
    assert eq.Table() == EqTable(rand, p);
    assert Contents(pool, |rand|) == LevelContents(ls, dots);
    ArrangedLevel(EqTable(rand, p), ls, dots);
    tables := Sumcheck.Arrange(Contents([eq] + pool, |rand|), m, n);
  }

  /** One level: a batched sum-check over the level's polynomials and a fresh equality table. */
  method ProveOneLevel(tape: Tape, claims: seq<int>, rand: seq<int>, lefts: seq<DensePolynomial>,
                       rights: seq<DensePolynomial>,
                       dps: DotPolys, ghost ls: seq<Layer>, ghost dots: seq<Tables>, p: Modulus)
    returns (layer: BatchLayer, d: DotClaims, claims': seq<int>, rand': seq<int>)
    requires Prime(p) && p > 3 && LevelSized(ls, Pow2(|rand|)) && AllSized(dots, Pow2(|rand|)) && |claims| == |ls|
    requires |lefts| == |rights| == |ls| && |dps.left| == |dps.right| == |dps.weight| == |dots|
    requires Apart(LevelPool(lefts, rights, dps)) && HoldsLevel(LevelPool(lefts, rights, dps), ls, dots, |rand|)
    modifies tape, LevelPool(lefts, rights, dps), Buffers(LevelPool(lefts, rights, dps))
    ensures Level(layer, d, claims', rand', tape.log) == ProveLevel(tape.oracle, old(tape.log), claims, rand, ls,
                                                                    dots, p)
  {
    hide Mod, Dot, EqTable, ProveRounds, DrawVector, ProdMessages, DotMessages, Triple, LevelTables, Pow2,
         LevelContents, Contents,
         Sumcheck.Arrange, Apart, Ready, HoldsLevel;
    var m, n := |lefts|, |dps.left|;
    var eq, tables := ShareEquality(rand, LevelPool(lefts, rights, dps), m, n, ls, dots, p);
    ghost var ds := [eq] + LevelPool(lefts, rights, dps);
    assert forall o :: o in Buffers(ds) ==> allocated(o);
    DotsOf(ls, EqTable(rand, p), dots);
    LevelTablesSized(ls, EqTable(rand, p), dots, Pow2(|rand|));
    var all := claims + DotValues(tables[m..], eq.len, p);
    var coeffs := ChallengeVector(tape, "rand_coeffs_next_layer", |all|, p);
    var claim := InnerProduct(all, coeffs, p);
    assert Sumcheck.Arrange(Contents(ds, |rand|), m, n) == tables;
    var polys, rs, ts := Sumcheck.ProveCubicBatched(tape, claim, |rand|, lefts, rights, eq, dps.left, dps.right,
                                                    dps.weight, coeffs, p);
    var f := Firsts(ts, 0, m);
    d := Firsts(ts, m, n);
    AppendClaims(tape, f.left, f.right, m);
    AppendDots(tape, d, n);
    var r := tape.ChallengeScalar("challenge_r_layer", p);
    layer, claims', rand' := BatchLayer(polys, f.left, f.right), MixAll(f.left, f.right, r, p), [r] + rs;
  }

  lemma DotsOf(ls: seq<Layer>, eq: seq<int>, dots: seq<Tables>)
    ensures LevelTables(ls, eq, dots)[|ls|..] == dots
  {
  }

  /** A run continued from its first levels. */
  ghost function ContinueBatch(proofs: seq<BatchLayer>, run: BatchRun): BatchRun {
    run.(proofs := proofs + run.proofs)
  }

  /** Polynomial i of every circuit. */
  function At(ll: seq<seq<DensePolynomial>>, i: nat): (ds: seq<DensePolynomial>)
    requires forall c :: 0 <= c < |ll| ==> i < |ll[c]|
    ensures |ds| == |ll|
  {
    seq(|ll|, c requires 0 <= c < |ll| => ll[c][i])
  }

  /** Every circuit has a left and a right half on each of the n layers. */
  predicate Rectangular(ll: seq<seq<DensePolynomial>>, rr: seq<seq<DensePolynomial>>, n: nat) {
    |ll| == |rr| && forall c :: 0 <= c < |ll| ==> |ll[c]| == |rr[c]| == n
  }

  /** The polynomials of every layer; the dot products belong to layer 0. */
  function Pools(ll: seq<seq<DensePolynomial>>, rr: seq<seq<DensePolynomial>>, dps: DotPolys,
                 n: nat): (pools: seq<seq<DensePolynomial>>)
    requires Rectangular(ll, rr, n)
    ensures |pools| == n
  {
    seq(n, i requires 0 <= i < n => LevelPool(At(ll, i), At(rr, i), if i == 0 then dps else NO_POLYS))
  }

  ghost predicate PoolsApart(pools: seq<seq<DensePolynomial>>) {
    (forall i :: 0 <= i < |pools| ==> Apart(pools[i])) &&
    (forall i, j :: 0 <= i < j < |pools| ==> Disjoint(pools[i], pools[j]))
  }

  ghost function PoolObjects(pools: seq<seq<DensePolynomial>>): set<object> {
    set i, j | 0 <= i < |pools| && 0 <= j < |pools[i]| :: pools[i][j]
  }

  ghost function PoolBuffers(pools: seq<seq<DensePolynomial>>): set<object> {
    set i, j | 0 <= i < |pools| && 0 <= j < |pools[i]| :: pools[i][j].z
  }

  /** The first n layers still hold their tables. */
  ghost predicate LevelsHold(pools: seq<seq<DensePolynomial>>, levels: seq<seq<Layer>>, dots: seq<Tables>, n: nat)
    reads PoolObjects(pools), PoolBuffers(pools)
  {
    n <= |pools| == |levels| && forall i :: 0 <= i < n ==> HoldsLevel(pools[i], levels[i], DotsAt(dots, i),
                                                                      |levels| - 1 - i)
  }

  function DotsAt(dots: seq<Tables>, i: nat): seq<Tables> {
    if i == 0 then dots else []
  }

  /** Layer i of all circuits; the layers before it keep their tables. */
  method ProveLevelAt(tape: Tape, claims: seq<int>, rand: seq<int>, ll: seq<seq<DensePolynomial>>,
                      rr: seq<seq<DensePolynomial>>,
                      dps: DotPolys, i: nat, ghost pools: seq<seq<DensePolynomial>>, ghost levels: seq<seq<Layer>>,
                      ghost dots: seq<Tables>, p: Modulus)
    returns (layer: BatchLayer, d: DotClaims, claims': seq<int>, rand': seq<int>)
    requires Prime(p) && p > 3 && i < |levels| && |rand| == |levels| - 1 - i
    requires Rectangular(ll, rr, |levels|) && pools == Pools(ll, rr, dps, |levels|) && PoolsApart(pools)
    requires LevelSized(levels[i], Pow2(|rand|)) && AllSized(DotsAt(dots, i), Pow2(|rand|))
    requires |claims| == |ll| == |levels[i]| && |dps.left| == |dps.right| == |dps.weight| == |dots|
    requires LevelsHold(pools, levels, dots, i + 1)
    modifies tape, pools[i], Buffers(pools[i])
    ensures Level(layer, d, claims', rand', tape.log)
         == ProveLevel(tape.oracle, old(tape.log), claims, rand, levels[i], DotsAt(dots, i), p)
    ensures LevelsHold(pools, levels, dots, i)
  {
    hide Mod, ProveLevel, Pow2, LevelSized, AllSized, Contents, LevelContents, LevelPool, Ready;
    var here := if i == 0 then dps else NO_POLYS;
    assert pools[i] == LevelPool(At(ll, i), At(rr, i), here);
    label before:
    layer, d, claims', rand' := ProveOneLevel(tape, claims, rand, At(ll, i), At(rr, i), here, levels[i],
                                              DotsAt(dots, i), p);
    forall j | 0 <= j < i ensures HoldsLevel(pools[j], levels[j], DotsAt(dots, j), |levels| - 1 - j) {
      assert old(HoldsLevel(pools[j], levels[j], DotsAt(dots, j), |levels| - 1 - j));
      DisjointBuffers(pools[j], pools[i]);
      assert old(forall o :: o in Buffers(pools[j]) ==> allocated(o));
      assert unchanged@before(pools[j]) && unchanged@before(Buffers(pools[j]));
    }
  }

  /**
   The levels from the root down, binding every circuit's polynomials in place; the dot products join
   at the input level.
   */
  method ProveBatched(tape: Tape, claims0: seq<int>, ll: seq<seq<DensePolynomial>>, rr: seq<seq<DensePolynomial>>,
                      dps: DotPolys,
                      ghost levels: seq<seq<Layer>>, ghost dots: seq<Tables>, p: Modulus)
    returns (proofs: seq<BatchLayer>, d: DotClaims, claims: seq<int>, rand: seq<int>)
    requires Prime(p) && p > 3 && LevelsSized(levels, |claims0|, 0) && DotsSized(dots, |levels|, 0)
    requires |ll| == |claims0| > 0 && Rectangular(ll, rr, |levels|) &&
             |dps.left| == |dps.right| == |dps.weight| == |dots|
    requires PoolsApart(Pools(ll, rr, dps, |levels|)) &&
             LevelsHold(Pools(ll, rr, dps, |levels|), levels, dots, |levels|)
    modifies tape, PoolObjects(Pools(ll, rr, dps, |levels|)), PoolBuffers(Pools(ll, rr, dps, |levels|))
    ensures BatchRun(proofs, d, claims, rand, tape.log) == ProveLevels(tape.oracle, old(tape.log), claims0, [],
                                                                       levels, dots, p)
  {
    hide Mod, ProveLevel, ProveLevels, LevelsSized, LevelSized, AllSized, Pow2, DotsSized, Pools, PoolsApart,
         LevelsHold, PoolObjects,
         PoolBuffers;
    proofs, d, claims, rand := [], NO_DOTS, claims0, [];
    var i := |ll[0]|;
    ghost var pools := Pools(ll, rr, dps, |levels|);
    ghost var all := ProveLevels(tape.oracle, tape.log, claims0, [], levels, dots, p);
    assert levels[..i] == levels;
    LevelsExist(dots, |levels|, 0);
    assert [] + all.proofs == all.proofs;
    while i > 0
      invariant 0 <= i <= |levels| && |rand| == |levels| - i && |claims| == |claims0|
      invariant LevelsHold(pools, levels, dots, i)
      invariant i > 0 ==> LevelsSized(levels[..i], |claims|, |rand|) && DotsSized(dots, i, |rand|)
      invariant i > 0 ==> all == ContinueBatch(proofs,
                                               ProveLevels(tape.oracle, tape.log, claims, rand, levels[..i], dots, p))
      invariant i == 0 ==> all == BatchRun(proofs, d, claims, rand, tape.log)
    {
      LastLevel(levels[..i], |claims|, |rand|);
      HereSized(dots, i, |rand|);
      i := i - 1;
      PoolWithin(pools, i);
      ghost var log, claims1, rand1 := tape.log, claims, rand;
      var layer;
      layer, d, claims, rand := ProveLevelAt(tape, claims, rand, ll, rr, dps, i, pools, levels, dots, p);
      LevelsContinue(tape.oracle, log, claims1, rand1, levels[..i + 1], dots, proofs,
                     Level(layer, d, claims, rand, tape.log), p);
      assert levels[..i + 1][..i] == levels[..i];
      proofs := proofs + [layer];
    }
  }

  lemma PoolWithin(pools: seq<seq<DensePolynomial>>, i: nat)
    requires i < |pools|
    ensures (forall d :: d in pools[i] ==> d in PoolObjects(pools)) && Buffers(pools[i]) <= PoolBuffers(pools)
  {
  }

  lemma LevelsContinue(oracle: Oracle, log: Log, claims: seq<int>, rand: seq<int>, levels: seq<seq<Layer>>,
                       dots: seq<Tables>, proofs: seq<BatchLayer>,
                       lv: Level, p: Modulus)
    requires Prime(p) && p > 3 && LevelsSized(levels, |claims|, |rand|) && DotsSized(dots, |levels|, |rand|) &&
             |levels| > 0
    requires |levels[|levels| - 1]| == |claims| && LevelSized(levels[|levels| - 1], Pow2(|rand|))
    requires AllSized(if |levels| == 1 then dots else [], Pow2(|rand|))
    requires lv == ProveLevel(oracle, log, claims, rand, levels[|levels| - 1], if |levels| == 1 then dots else [], p)
    ensures |levels| == 1 ==>
      ContinueBatch(proofs, ProveLevels(oracle, log, claims, rand, levels, dots, p))
        == BatchRun(proofs + [lv.layer], lv.dots, lv.claims, lv.rand, lv.log)
    ensures |levels| > 1 ==> DotsSized(dots, |levels| - 1, |lv.rand|) &&
                             LevelsSized(levels[..|levels| - 1], |lv.claims|, |lv.rand|)
    ensures |levels| > 1 ==>
      ContinueBatch(proofs, ProveLevels(oracle, log, claims, rand, levels, dots, p))
        == ContinueBatch(proofs + [lv.layer], ProveLevels(oracle, lv.log, lv.claims, lv.rand, levels[..|levels| - 1],
                                                          dots, p))
  {
    hide Mod, ProveLevel, LevelsSized, LevelSized, AllSized, Pow2, DotsSized;
    HereSized(dots, |levels|, |rand|);
    if |levels| > 1 {
      var up := UpperLevels(levels, |claims|, |rand|);
      var rest := ProveLevels(oracle, lv.log, lv.claims, lv.rand, up, dots, p);
      assert proofs + ([lv.layer] + rest.proofs) == (proofs + [lv.layer]) + rest.proofs;
    }
  }

  // ---------- the verifier ----------

  method VerifyOneLevel(tape: Tape, claims: seq<int>, dotClaims: seq<int>, rand: seq<int>, layer: BatchLayer,
                        d: DotClaims, p: Modulus)
    returns (v: Option<(seq<int>, seq<int>)>)
    requires Prime(p) && forall j :: 0 <= j < |layer.polys| ==> CanonicalV(layer.polys[j], p)
    modifies tape
    ensures match VerifyLevel(tape.oracle, old(tape.log), claims, dotClaims, rand, layer, d, p)
      case None => v == None
      case Some(lv) => v == Some((lv.claims, lv.rand)) && tape.log == lv.log
  {
    hide Mod, Dot, EqEval, VerifySumcheck, DrawVector, ProdMessages, DotMessages, MixAll, FinalValues;
    var all := claims + dotClaims;
    var coeffs := ChallengeVector(tape, "rand_coeffs_next_layer", |all|, p);
    var claim := InnerProduct(all, coeffs, p);
    ModCong(Dot(all, coeffs), p);
    var res := Sumcheck.VerifyRun(tape, claim, layer.polys, |rand|, 3, p);
    if res.None? {
      return None;
    }
    var (last, rs) := res.value;
    if |layer.left| != |claims| || |layer.right| != |claims| || |rs| != |rand| {
      return None;
    }
    AppendClaims(tape, layer.left, layer.right, |claims|);
    if |d.right| < |d.left| || |d.weight| < |d.left| || |dotClaims| < |d.left| {
      return None;
    }
    AppendDots(tape, d, |d.left|);
    var values := FinalValues(layer.left, layer.right, EqEval(rand, rs, p), d);
    var expected := InnerProduct(values, coeffs[..|values|], p);
    if expected != last {
      return None;
    }
    var r := tape.ChallengeScalar("challenge_r_layer", p);
    v := Some((MixAll(layer.left, layer.right, r, p), [r] + rs));
  }

  method VerifyBatched(tape: Tape, claims0: seq<int>, dotClaims: seq<int>, k: nat, proofs: seq<BatchLayer>,
                       d: DotClaims, p: Modulus)
    returns (v: Option<(seq<int>, seq<int>, seq<int>)>)
    requires Prime(p)
    requires forall i, j :: 0 <= i < |proofs| && 0 <= j < |proofs[i].polys| ==> CanonicalV(proofs[i].polys[j], p)
    modifies tape
    ensures match VerifyBatch(tape.oracle, old(tape.log), claims0, dotClaims, k, proofs, d, p)
      case None => v == None
      case Some(b) => v == Some((b.claims, b.dots, b.rand)) && tape.log == b.log
  {
    hide Mod, VerifyLevel, VerifyLevels, PairMix, CanonicalV;
    if |proofs| != k {
      return None;
    }
    var claims, dotsOut, rand := claims0, [], [];
    ghost var all := VerifyLevels(tape.oracle, tape.log, claims0, dotClaims, [], proofs, d, p);
    assert proofs[0..] == proofs;
    VerifyNoLevels(tape.oracle, tape.log, claims0, dotClaims, [], proofs, d, p);
    for i := 0 to |proofs|
      invariant i < |proofs| ==> dotsOut == [] && all == VerifyLevels(tape.oracle, tape.log, claims, dotClaims, rand,
                                                                      proofs[i..], d, p)
      invariant i == |proofs| ==> all == Some(BatchClaims(claims, dotsOut, rand, tape.log))
    {
      VerifyLevelsUnfold(tape.oracle, tape.log, claims, dotClaims, rand, proofs[i..], d, p);
      assert proofs[i..][1..] == proofs[i + 1..];
      var last := i == |proofs| - 1;
      var res := VerifyOneLevel(tape, claims, if last then dotClaims else [], rand, proofs[i],
                                if last then d else NO_DOTS, p);
      if res.None? {
        return None;
      }
      claims, rand := res.value.0, res.value.1;
      if last {
        var n := |dotClaims| / 2;
        if |rand| == 0 || 2 * n > |d.left| || 2 * n > |d.right| || 2 * n > |d.weight| {
          return None;
        }
        dotsOut := PairMix(d, n, rand[0], p);
      }
    }
    v := Some((claims, dotsOut, rand));
  }

  lemma VerifyNoLevels(oracle: Oracle, log: Log, claims: seq<int>, dotClaims: seq<int>, rand: seq<int>,
                       proofs: seq<BatchLayer>, d: DotClaims, p: Modulus)
    requires Prime(p)
    ensures |proofs| == 0 ==> VerifyLevels(oracle, log, claims, dotClaims, rand, proofs, d,
                                           p) == Some(BatchClaims(claims, [], rand, log))
  {
  }

  lemma VerifyLevelsUnfold(oracle: Oracle, log: Log, claims: seq<int>, dotClaims: seq<int>, rand: seq<int>,
                           proofs: seq<BatchLayer>, d: DotClaims, p: Modulus)
    requires Prime(p) && |proofs| > 0
    ensures VerifyLevels(oracle, log, claims, dotClaims, rand, proofs, d, p) ==
      var last := |proofs| == 1;
      match VerifyLevel(oracle, log, claims, if last then dotClaims else [], rand, proofs[0],
                        if last then d else NO_DOTS, p)
      case None => None
      case Some(lv) =>
        if !last then VerifyLevels(oracle, lv.log, lv.claims, dotClaims, lv.rand, proofs[1..], d, p) else
        var n := |dotClaims| / 2;
        if |lv.rand| == 0 || 2 * n > |d.left| || 2 * n > |d.right| || 2 * n > |d.weight| then None else
        Some(BatchClaims(lv.claims, PairMix(d, n, lv.rand[0], p), lv.rand, lv.log))
  {
    hide Mod, VerifyLevel, PairMix;
  }
}
