/**
 Soundness of the layered product proof against any prover: if the claim it ends with is true of the input
 table, the claimed product is the product, or some challenge was a meeting point of two different polynomials.
 */
module ProductSound {
  import opened PowersOfTwo
  import opened PrimeField
  import opened Vectors
  import opened Tensor
  import opened Roots
  import opened Transcript
  import opened Multilinear
  import opened UniPoly
  import opened SumcheckSpec
  import opened SumcheckRun
  import opened SumcheckTrace
  import opened SumcheckSound
  import opened ProductTree
  import opened ProductTrace

  /** The line through a at 0 and b at 1. */
  function LineThrough(a: int, b: int): (f: Poly)
    ensures |f| == 2
  {
    [a, b - a]
  }

  lemma EvalLine(a: int, b: int, r: int)
    ensures Eval(LineThrough(a, b), r) == (1 - r) * a + r * b
  {
    var f := LineThrough(a, b);
    assert f[1..] == [b - a] && f[1..][1..] == [];
    assert Eval([b - a], r) == (b - a) + r * Eval([], r) && r * Eval([], r) == 0;
    assert (1 - r) * a + r * b == a + r * (b - a);
  }

  /** Two different lines that join to the same claim meet at the joining challenge. */
  lemma LinesMeet(a: int, b: int, a': int, b': int, r: int, p: Modulus)
    requires !(Cong(a, a', p) && Cong(b, b', p)) && Cong((1 - r) * a + r * b, (1 - r) * a' + r * b', p)
    ensures Coincide(LineThrough(a, b), LineThrough(a', b'), r, p)
  {
    hide Mod, Eval;
    EvalLine(a, b, r);
    EvalLine(a', b', r);
    var f, g := LineThrough(a, b), LineThrough(a', b');
    if CongV(f, g, p) {
      assert f[0] == a && f[1] == b - a && g[0] == a' && g[1] == b' - a';
      CongSum(b, b', f[0], g[0], f[1], g[1], p);
    }
  }

  // ---------- one layer ----------

  function LayerTables(l: Layer, rand: seq<int>, p: Modulus): (t: Tables)
    requires |l.left| == |l.right| == Pow2(|rand|)
    ensures Sized(t, Pow2(|rand|))
  {
    Tables(l.left, l.right, EqTable(rand, p))
  }

  /** What the verifier draws after a layer's claims. */
  function JoiningDraw(oracle: Oracle, log: Log, fs: seq<Poly>, a: int, b: int, p: Modulus): (r: int) {
    Mod(oracle(log + LayerMessages(fs, a, b)), p)
  }

  /** A challenge of this layer is a meeting point: of a round's polynomial, or of the lines through the claims. */
  ghost predicate LuckyLayer(oracle: Oracle, log: Log, claim: int, rand: seq<int>, l: Layer, pf: LayerProof, p: Modulus)
    requires |l.left| == |l.right| == Pow2(|rand|)
  {
    var t := TraceOf(oracle, log, claim, pf.polys, p);
    |t.fs| == |rand| && |pf.claims| >= 2 &&
    (LuckyRun([LayerTables(l, rand, p)], [1], |rand|, t, p) ||
     Coincide(LineThrough(pf.claims[0], pf.claims[1]), LineThrough(Mle(l.left, t.rs, p), Mle(l.right, t.rs, p)),
              JoiningDraw(oracle, log, t.fs, pf.claims[0], pf.claims[1], p), p))
  }

  /** The value a layer's sum-check should end with. */
  lemma BoundLayer(l: Layer, rand: seq<int>, rs: seq<int>, p: Modulus)
    requires |l.left| == |l.right| == Pow2(|rand|) && |rs| == |rand|
    ensures var bound := BoundTo([LayerTables(l, rand, p)], |rand|, rs, p);
      AllSized(bound, 1) &&
      Cong(BatchTriple(bound, [1], 1), Mle(l.left, rs, p) * Mle(l.right, rs, p) * EqEval(rand, rs, p), p)
  {
    hide Mod, Dot, EqTable, Mle, EqEval, BoundTo, BatchTriple;
    var ts := [LayerTables(l, rand, p)];
    var bound := BoundTo(ts, |rand|, rs, p);
    BoundFirst(ts, |rand|, rs, p);
    BoundEntries(ts, |rand|, rs, 0, p);
    var a, b, c := Mle(l.left, rs, p), Mle(l.right, rs, p), Mle(EqTable(rand, p), rs, p);
    assert bound == [bound[0]];
    FinalTriple(bound[0], a, b, c);
    MleIsDot(EqTable(rand, p), rs, p);
    DotComm(EqTable(rs, p), EqTable(rand, p));
    EqTablesDot(rand, rs, p);
    CongScale(a * b, c, EqEval(rand, rs, p), p);
  }

  /** From a wrong claim a layer without luck publishes a wrong claim about one of its halves. */
  lemma LayerSumSound(oracle: Oracle, log: Log, claim: int, rand: seq<int>, l: Layer, polys: seq<seq<int>>, a: int,
                      b: int, t: Rounds, p: Modulus)
    requires Prime(p) && p > 3 && |l.left| == |l.right| == Pow2(|rand|) && Canonical(claim, p)
    requires claim != Mle(Products(l, p), rand, p) && |polys| == |rand| && Shaped(polys, 3)
    requires t == TraceOf(oracle, log, claim, polys, p) && |t.fs| == |rand|
    requires Cong(a * b * EqEval(rand, t.rs, p), t.es[|rand|], p)
    requires !LuckyRun([LayerTables(l, rand, p)], [1], |rand|, t, p)
    ensures !(Cong(a, Mle(l.left, t.rs, p), p) && Cong(b, Mle(l.right, t.rs, p), p))
  {
    hide Mod, Dot, EqTable, Mle, EqEval, BoundTo, BatchTriple, VerifyRounds, RoundsHold, LuckyRun, TraceOf, Products,
         Shaped, RunMessages, Pow2;
    var ts, k := [LayerTables(l, rand, p)], |rand|;
    AcceptedByShape(oracle, log, claim, polys, k, 3, p);
    var t' := SumcheckSoundness(oracle, log, claim, polys, ts, [1], k, p);
    BoundLayer(l, rand, t.rs, p);
    LayerSum(l, rand, p);
    MleCanonical(Products(l, p), rand, p);
    DifferentClass(claim, Mle(Products(l, p), rand, p), p);
    if Cong(a, Mle(l.left, t.rs, p), p) && Cong(b, Mle(l.right, t.rs, p), p) {
      CongMul(a, Mle(l.left, t.rs, p), b, Mle(l.right, t.rs, p), p);
      var e := EqEval(rand, t.rs, p);
      CongMul(a * b, Mle(l.left, t.rs, p) * Mle(l.right, t.rs, p), e, e, p);
    }
  }

  lemma DifferentClass(x: int, y: int, p: Modulus)
    requires Canonical(x, p) && Canonical(y, p) && x != y
    ensures !Cong(x, y, p)
  {
  }

  /** From a wrong claim a layer without luck goes on with a wrong claim about its table. */
  lemma LayerSound(oracle: Oracle, log: Log, claim: int, rand: seq<int>, l: Layer, proofs: seq<LayerProof>, p: Modulus)
    returns (t: Rounds)
    requires Prime(p) && p > 3 && |l.left| == |l.right| == Pow2(|rand|) && CanonicalLayer(l, p) && Canonical(claim, p)
    requires |proofs| > 0 && VerifyLayers(oracle, log, claim, rand, proofs, p).Some?
    requires claim != Mle(Products(l, p), rand, p) && !LuckyLayer(oracle, log, claim, rand, l, proofs[0], p)
    ensures t == TraceOf(oracle, log, claim, proofs[0].polys, p) && |t.rs| == |rand| && |proofs[0].claims| >= 2
    ensures var a, b := proofs[0].claims[0], proofs[0].claims[1];
      var r := JoiningDraw(oracle, log, t.fs, a, b, p);
      var next := Mod((1 - r) * a + r * b, p);
      next != Mle(l.left + l.right, [r] + t.rs, p) &&
      VerifyLayers(oracle, log, claim, rand, proofs, p)
        == VerifyLayers(oracle, log + LayerMessages(t.fs, a, b), next, [r] + t.rs, proofs[1..], p)
  {
    hide Mod, Mle, EqEval, RoundsHold, LuckyRun, TraceOf, Products, Shaped, LayerMessages, Pow2, VerifyLayers, Mix,
         EvenlySized, CanonicalLayer, Coincide, LayerTables;
    t := AnyLayer(oracle, log, claim, rand, proofs, p);
    var pf := proofs[0];
    var a, b := pf.claims[0], pf.claims[1];
    RoundsCounted(oracle, log, t, 3, p);
    var r := JoiningDraw(oracle, log, t.fs, a, b, p);
    LayerSumSound(oracle, log, claim, rand, l, pf.polys, a, b, t, p);
    MleTop(l, t.rs, r, p);
    var a', b' := Mle(l.left, t.rs, p), Mle(l.right, t.rs, p);
    MixIsWeighted(a', b', r, p);
    if Mod((1 - r) * a + r * b, p) == Mix(a', b', r, p) {
      LinesMeet(a, b, a', b', r, p);
    }
  }

  // ---------- all layers ----------

  /** Some layer was lucky. */
  ghost predicate LuckyTree(oracle: Oracle, log: Log, claim: int, rand: seq<int>, ls: seq<Layer>,
                            proofs: seq<LayerProof>, p: Modulus)
    requires LayersSized(ls, |rand|)
    decreases |ls|
  {
    if |ls| == 0 || |proofs| == 0 then false else
    LastLayer(ls, |rand|, p);
    LuckyLayer(oracle, log, claim, rand, ls[|ls| - 1], proofs[0], p) ||
    LuckyRest(oracle, log, claim, rand, ls, proofs, p)
  }

  /** Some layer after the first one was lucky. */
  ghost predicate LuckyRest(oracle: Oracle, log: Log, claim: int, rand: seq<int>, ls: seq<Layer>,
                            proofs: seq<LayerProof>, p: Modulus)
    requires LayersSized(ls, |rand|) && |ls| > 0 && |proofs| > 0
    decreases |ls|, 0
  {
    var t := TraceOf(oracle, log, claim, proofs[0].polys, p);
    |t.rs| == |rand| && |proofs[0].claims| >= 2 &&
    var a, b := proofs[0].claims[0], proofs[0].claims[1];
    var r := JoiningDraw(oracle, log, t.fs, a, b, p);
    LuckyTree(oracle, log + LayerMessages(t.fs, a, b), Mod((1 - r) * a + r * b, p), [r] + t.rs,
              Earlier(ls, |rand|), proofs[1..], p)
  }

  /** Back from the input: a true last claim makes the first claim true, unless some layer was lucky. */
  lemma {:induction false} LayersSound(oracle: Oracle, log: Log, claim: int, rand: seq<int>, ls: seq<Layer>,
                                       proofs: seq<LayerProof>, p: Modulus)
    requires Prime(p) && p > 3 && LayersSized(ls, |rand|) && |ls| >= 1 && Chained(ls, p) && Canonical(claim, p)
    requires forall i :: 0 <= i < |ls| ==> CanonicalLayer(ls[i], p)
    requires |proofs| == |ls| && VerifyLayers(oracle, log, claim, rand, proofs, p).Some?
    requires var (c, point, _) := VerifyLayers(oracle, log, claim, rand, proofs, p).value;
      InputClaim(c, ls, |rand|, point, p)
    ensures claim == Mle(Products(ls[|ls| - 1], p), rand, p) || LuckyTree(oracle, log, claim, rand, ls, proofs, p)
    decreases |ls|
  {
    hide Mod, Mle, Products, Chained, LayersSized, VerifyLayers, CanonicalLayer, Pow2, InputTable, Earlier,
         LuckyLayer, LayerMessages, JoiningDraw, TraceOf;
    var l := ls[|ls| - 1];
    LastLayer(ls, |rand|, p);
    if claim != Mle(Products(l, p), rand, p) && !LuckyLayer(oracle, log, claim, rand, l, proofs[0], p) {
      var t := LayerSound(oracle, log, claim, rand, l, proofs, p);
      var a, b := proofs[0].claims[0], proofs[0].claims[1];
      var r := JoiningDraw(oracle, log, t.fs, a, b, p);
      var log', next := log + LayerMessages(t.fs, a, b), Mod((1 - r) * a + r * b, p);
      if |ls| == 1 {
        VerifyNoLayers(oracle, log', next, [r] + t.rs, p);
        assert proofs[1..] == [];
        OnlyLayer(ls, |rand|);
      } else {
        EarlierLayers(ls, |rand|, p);
        LayersSound(oracle, log', next, [r] + t.rs, Earlier(ls, |rand|), proofs[1..], p);
      }
    }
  }

  /**
   The product proof is sound: whatever layer proofs are accepted for a claimed product, if the claim they end
   with is the extension of the input table at the returned point, then the claimed product is the product of
   the table's entries, or some challenge was a meeting point of different polynomials.
   */
  lemma TreeSound(oracle: Oracle, log: Log, eval: int, T: seq<int>, k: nat, proofs: seq<LayerProof>, p: Modulus)
    requires Prime(p) && p > 3 && k >= 1 && |T| == Pow2(k) && CanonicalV(T, p) && Canonical(eval, p)
    requires VerifyTree(oracle, log, eval, k, proofs, p).Some?
    requires var (c, point, _) := VerifyTree(oracle, log, eval, k, proofs, p).value;
      |point| == k && c == Mle(T, point, p)
    ensures eval == Mod(Prod(T), p) || LuckyTree(oracle, log, eval, [], Layers(T, k, p), proofs, p)
  {
    hide Mod, VerifyLayers, Products, Prod, LuckyTree, Mle;
    var ls := Layers(T, k, p);
    RootIsProduct(T, k, p);
    LayersChained(T, k, p);
    RootClaim(ls[k - 1], p);
    LayersSound(oracle, log, eval, [], ls, proofs, p);
  }
}
