/**
 The layered product circuit and its proof: one sum-check per layer, from the root down, turns a
 claim about the product of all entries into a claim about the multilinear extension of the input.
 */
module ProductTree {
  import opened PowersOfTwo
  import opened PrimeField
  import opened Vectors
  import opened Tensor
  import opened Transcript
  import opened Multilinear
  import opened SumcheckSpec
  import opened SumcheckRun

  /** The two halves of a layer's table. */
  datatype Layer = Layer(left: seq<int>, right: seq<int>)

  datatype LayerProof = LayerProof(polys: seq<seq<int>>, claims: seq<int>)

  /** Entrywise products of the two halves: the table of the next layer. */
  function Products(l: Layer, p: Modulus): (t: seq<int>)
    requires |l.left| == |l.right|
    ensures |t| == |l.left| && CanonicalV(t, p)
  {
    ModV(Had(l.left, l.right), p)
  }

  function SplitTable(T: seq<int>): (l: Layer)
    requires |T| % 2 == 0
    ensures |l.left| == |l.right| == |T| / 2 && l.left + l.right == T
  {
    Layer(T[..|T| / 2], T[|T| / 2..])
  }

  /** The layers over a table of 2^k entries, input layer first. */
  function Layers(T: seq<int>, k: nat, p: Modulus): (ls: seq<Layer>)
    requires k >= 1 && |T| == Pow2(k)
    ensures |ls| == k && LayersSized(ls, 0)
    decreases k
  {
    var l := SplitTable(T);
    if k == 1 then [l] else [l] + Layers(Products(l, p), k - 1, p)
  }

  /** The last layer has 2^m entries a half, and every layer before it twice as many. */
  predicate LayersSized(ls: seq<Layer>, m: nat) {
    forall i :: 0 <= i < |ls| ==> |ls[i].left| == |ls[i].right| == Pow2(m + |ls| - 1 - i)
  }

  /** Each layer's table is the products of the layer before. */
  predicate Chained(ls: seq<Layer>, p: Modulus)
    requires forall i :: 0 <= i < |ls| ==> |ls[i].left| == |ls[i].right|
  {
    forall i :: 0 <= i < |ls| - 1 ==> ls[i + 1].left + ls[i + 1].right == Products(ls[i], p)
  }

  /** The table of the first layer. */
  function InputTable(ls: seq<Layer>, m: nat): (t: seq<int>)
    requires LayersSized(ls, m) && |ls| >= 1
    ensures |t| == Pow2(m + |ls|)
  {
    ls[0].left + ls[0].right
  }

  predicate CanonicalLayer(l: Layer, p: Modulus) {
    CanonicalV(l.left, p) && CanonicalV(l.right, p)
  }

  /** The product at the root. */
  function EvaluateRoot(ls: seq<Layer>, p: Modulus): (v: int)
    requires |ls| >= 1 && LayersSized(ls, 0)
    ensures Canonical(v, p)
  {
    Mod(ls[|ls| - 1].left[0] * ls[|ls| - 1].right[0], p)
  }

  // ---------- the circuit multiplies ----------

  lemma {:induction false} ProdConcat(a: seq<int>, b: seq<int>)
    ensures Prod(a + b) == Prod(a) * Prod(b)
  {
    if |b| == 0 {
      assert a + b == a;
    } else {
      ProdConcat(a, b[..|b| - 1]);
      assert (a + b)[..|a + b| - 1] == a + b[..|b| - 1];
      assert (Prod(a) * Prod(b[..|b| - 1])) * b[|b| - 1] == Prod(a) * (Prod(b[..|b| - 1]) * b[|b| - 1]);
    }
  }

  lemma {:induction false} ProdHad(a: seq<int>, b: seq<int>, p: Modulus)
    requires |a| == |b|
    ensures Cong(Prod(ModV(Had(a, b), p)), Prod(a) * Prod(b), p)
  {
    if |a| == 0 {
    } else {
      hide Mod;
      var n := |a| - 1;
      ProdHad(a[..n], b[..n], p);
      assert ModV(Had(a, b), p)[..n] == ModV(Had(a[..n], b[..n]), p);
      ModCong(a[n] * b[n], p);
      PairUp(Prod(a[..n]), a[n], Prod(b[..n]), b[n]);
      CongMul(Prod(ModV(Had(a[..n], b[..n]), p)), Prod(a[..n]) * Prod(b[..n]), Mod(a[n] * b[n], p), a[n] * b[n], p);
    }
  }

  lemma PairUp(x: int, a: int, y: int, b: int)
    ensures (x * y) * (a * b) == (x * a) * (y * b)
  {
  }

  /** The root of the circuit over T is the product of all entries of T. */
  lemma {:induction false} RootIsProduct(T: seq<int>, k: nat, p: Modulus)
    requires k >= 1 && |T| == Pow2(k)
    ensures EvaluateRoot(Layers(T, k, p), p) == Mod(Prod(T), p)
    decreases k
  {
    hide Mod;
    var l := SplitTable(T);
    ProdConcat(l.left, l.right);
    if k == 1 {
      SingleProd(l.left);
      SingleProd(l.right);
    } else {
      RootIsProduct(Products(l, p), k - 1, p);
      ProdHad(l.left, l.right, p);
    }
  }

  lemma SingleProd(a: seq<int>)
    requires |a| == 1
    ensures Prod(a) == a[0]
  {
    assert a[..0] == [];
  }

  lemma {:induction false} LayersChained(T: seq<int>, k: nat, p: Modulus)
    requires k >= 1 && |T| == Pow2(k) && CanonicalV(T, p)
    ensures var ls := Layers(T, k, p);
      Chained(ls, p) && InputTable(ls, 0) == T && forall i :: 0 <= i < k ==> CanonicalLayer(ls[i], p)
    decreases k
  {
    hide Mod, Products;
    if k <= 1 {
    } else {
      LayersChained(Products(SplitTable(T), p), k - 1, p);
    }
  }

  // ---------- prover and verifier ----------

  function ClaimLog(log: Log, l: int, r: int): Log {
    log + [Scalar("claim_prod_left", l), Scalar("claim_prod_right", r)]
  }

  datatype TreeRun = TreeRun(proofs: seq<LayerProof>, claim: int, rand: seq<int>, log: Log)

  /** The sum-check of one layer. */
  function LayerRun(oracle: Oracle, log: Log, claim: int, rand: seq<int>, l: Layer, p: Modulus): (run: Run)
    requires Prime(p) && p > 3 && |l.left| == |l.right| == Pow2(|rand|)
    ensures |run.polys| == |run.rs| == |rand| && |run.ts| == 1 && AllSized(run.ts, 1)
  {
    ProveRounds(oracle, log, claim, |rand|, [Tables(l.left, l.right, EqTable(rand, p))], [1], p)
  }

  /** All layers but the last. */
  function Earlier(ls: seq<Layer>, m: nat): (ls': seq<Layer>)
    requires LayersSized(ls, m) && |ls| > 0
    ensures |ls'| == |ls| - 1 && LayersSized(ls', m + 1) && ls' == ls[..|ls| - 1]
  {
    ls[..|ls| - 1]
  }

  /** What one layer leaves: its proof, the reduced claim, the point and the transcript. */
  datatype Reduced = Reduced(pf: LayerProof, claim: int, rand: seq<int>, log: Log)

  function ProveLayer(oracle: Oracle, log: Log, claim: int, rand: seq<int>, l: Layer, p: Modulus): (red: Reduced)
    requires Prime(p) && p > 3 && |l.left| == |l.right| == Pow2(|rand|)
    ensures |red.rand| == |rand| + 1
  {
    var run := LayerRun(oracle, log, claim, rand, l, p);
    var a, b := run.ts[0].A[0], run.ts[0].B[0];
    var log' := ClaimLog(run.log, a, b);
    var r := Challenge(oracle, log', "challenge_r_layer", p);
    Reduced(LayerProof(run.polys, [a, b]), Mix(a, b, r, p), [r] + run.rs, log' + [Draw("challenge_r_layer")])
  }

  /** The prover, from the last layer to the first. */
  function ProveLayers(oracle: Oracle, log: Log, claim: int, rand: seq<int>, ls: seq<Layer>, p: Modulus): (run: TreeRun)
    requires Prime(p) && p > 3 && LayersSized(ls, |rand|)
    ensures |run.rand| == |rand| + |ls| && |run.proofs| == |ls|
    decreases |ls|
  {
    if |ls| == 0 then TreeRun([], claim, rand, log) else
    var red := ProveLayer(oracle, log, claim, rand, ls[|ls| - 1], p);
    var rest := ProveLayers(oracle, red.log, red.claim, red.rand, Earlier(ls, |rand|), p);
    TreeRun([red.pf] + rest.proofs, rest.claim, rest.rand, rest.log)
  }

  /** The verifier; None when an assertion fails. */
  function VerifyLayers(oracle: Oracle, log: Log, claim: int, rand: seq<int>, proofs: seq<LayerProof>,
                        p: Modulus): Option<(int, seq<int>, Log)>
    requires Prime(p)
    decreases |proofs|
  {
    if |proofs| == 0 then Some((claim, rand, log)) else
    match VerifySumcheck(oracle, log, claim, proofs[0].polys, |rand|, 3, p)
    case None => None
    case Some((last, rs, log1)) =>
      if |proofs[0].claims| < 2 || |rs| != |rand| then None else
      var a, b := proofs[0].claims[0], proofs[0].claims[1];
      if Mod(a * b * EqEval(rand, rs, p), p) != last then None else
      var log' := ClaimLog(log1, a, b);
      var r := Challenge(oracle, log', "challenge_r_layer", p);
      VerifyLayers(oracle, log' + [Draw("challenge_r_layer")], Mod((1 - r) * a + r * b, p), [r] + rs, proofs[1..], p)
  }

  // ---------- one layer ----------

  /** The extension of a table is linear in its top variable. */
  lemma MleTop(l: Layer, rs: seq<int>, r: int, p: Modulus)
    requires |l.left| == |l.right| == Pow2(|rs|) && CanonicalLayer(l, p)
    ensures Mle(l.left + l.right, [r] + rs, p) == Mix(Mle(l.left, rs, p), Mle(l.right, rs, p), r, p)
  {
    hide Mod, Mle, Line, Bind, Pow2;
    var T := l.left + l.right;
    assert ([r] + rs)[1..] == rs && ([r] + rs)[0] == r;
    Pow2Next(|rs|);
    MleUnfold(T, [r] + rs, p);
    var x, y := Mle(l.left, rs, p), Mle(l.right, rs, p);
    MleOfBound(l, T, rs, r, x, y, p);
    BindCanonical(T, r, p);
    MleCanonical(Bind(T, r, p), rs, p);
    CanonicalMod(Mle(Bind(T, r, p), rs, p), Line(x, y, r), p);
  }

  lemma MleOfBound(l: Layer, T: seq<int>, rs: seq<int>, r: int, x: int, y: int, p: Modulus)
    requires |l.left| == |l.right| == Pow2(|rs|) && |T| == 2 * Pow2(|rs|) && T == l.left + l.right
    requires x == Mle(l.left, rs, p) && y == Mle(l.right, rs, p)
    ensures Cong(Mle(Bind(T, r, p), rs, p), Line(x, y, r), p)
  {
    hide Mod, Mle, Dot, Line, Bind, EqTable, Pow2;
    var e := EqTable(rs, p);
    var x', y' := Dot(e, l.left), Dot(e, l.right);
    MleOfHalves(l, rs, e, x, y, x', y', p);
    MleIsDot(Bind(T, r, p), rs, p);
    DotBind(T, l, e, r, Line(x', y', r), p);
    LineCong(x, x', y, y', r, p);
  }

  lemma MleOfHalves(l: Layer, rs: seq<int>, e: seq<int>, x: int, y: int, x': int, y': int, p: Modulus)
    requires |l.left| == |l.right| == Pow2(|rs|) && e == EqTable(rs, p)
    requires x == Mle(l.left, rs, p) && y == Mle(l.right, rs, p) && x' == Dot(e, l.left) && y' == Dot(e, l.right)
    ensures Cong(x, x', p) && Cong(y, y', p)
  {
    hide Mod, Mle, Dot, EqTable, Pow2;
    MleIsDot(l.left, rs, p);
    MleIsDot(l.right, rs, p);
  }

  lemma BindCanonical(T: seq<int>, r: int, p: Modulus)
    requires |T| % 2 == 0
    ensures CanonicalV(Bind(T, r, p), p)
  {
  }

  lemma {:induction false} MleCanonical(T: seq<int>, rs: seq<int>, p: Modulus)
    requires |T| == Pow2(|rs|) && CanonicalV(T, p)
    ensures Canonical(Mle(T, rs, p), p)
    decreases |rs|
  {
    if |rs| == 0 {
    } else {
      MleCanonical(Bind(T, rs[0], p), rs[1..], p);
    }
  }

  lemma DotBind(T: seq<int>, l: Layer, e: seq<int>, r: int, t: int, p: Modulus)
    requires |l.left| == |l.right| == |e| && T == l.left + l.right && t == Line(Dot(e, l.left), Dot(e, l.right), r)
    ensures Cong(Dot(e, Bind(T, r, p)), t, p)
  {
    hide Mod, Dot, Line, Lin, ModV;
    assert T[..|T| / 2] == l.left && T[|T| / 2..] == l.right;
    DotModV(e, Lin(1 - r, l.left, r, l.right), p);
    DotLin(1 - r, l.left, r, l.right, e);
    BindEntry(Dot(e, l.left), Dot(e, l.right), r);
    assert t == Dot(e, Lin(1 - r, l.left, r, l.right));
  }

  /** The sum over a layer with the equality table is the extension of the layer's products. */
  lemma LayerSum(l: Layer, rand: seq<int>, p: Modulus)
    requires |l.left| == |l.right| == Pow2(|rand|)
    ensures Cong(BatchTriple([Tables(l.left, l.right, EqTable(rand, p))], [1], Pow2(|rand|)),
                 Mle(Products(l, p), rand, p), p)
  {
    hide Mod, Dot, EqTable, Triple, Mle, Pow2;
    var t := Tables(l.left, l.right, EqTable(rand, p));
    OneTriple(t, Pow2(|rand|));
    TripleIsDot(t, Pow2(|rand|));
    MleIsDot(Products(l, p), rand, p);
    DotModV(EqTable(rand, p), Had(l.left, l.right), p);
    DotComm(EqTable(rand, p), Had(l.left, l.right));
    assert Had(l.left, l.right)[..Pow2(|rand|)] == Had(l.left, l.right) && t.C[..Pow2(|rand|)] == t.C;
  }

  lemma {:induction false} TripleIsDot(t: Tables, i: nat)
    requires i <= |t.A| == |t.B| == |t.C|
    ensures Triple(t, i) == Dot(Had(t.A, t.B)[..i], t.C[..i])
  {
    hide Dot;
    if i == 0 {
      DotNone();
    } else {
      TripleIsDot(t, i - 1);
      assert Had(t.A, t.B)[..i] == Had(t.A, t.B)[..i - 1] + [t.A[i - 1] * t.B[i - 1]] &&
             t.C[..i] == t.C[..i - 1] + [t.C[i - 1]];
      DotSnoc(Had(t.A, t.B)[..i - 1], t.C[..i - 1], t.A[i - 1] * t.B[i - 1], t.C[i - 1]);
    }
  }

  /** What one layer's sum-check leaves, for a right claim. */
  lemma LayerVerdict(oracle: Oracle, log: Log, claim: int, rand: seq<int>, l: Layer, p: Modulus)
    requires Prime(p) && p > 3 && |l.left| == |l.right| == Pow2(|rand|) && CanonicalLayer(l, p)
    requires claim == Mle(Products(l, p), rand, p)
    ensures var run := LayerRun(oracle, log, claim, rand, l, p);
      var a, b := Mle(l.left, run.rs, p), Mle(l.right, run.rs, p);
      run.ts[0].A[0] == a && run.ts[0].B[0] == b && Canonical(a, p) && Canonical(b, p) &&
      VerifySumcheck(oracle, log, claim, run.polys, |rand|, 3, p) == Some((run.e, run.rs, run.log)) &&
      Mod(a * b * EqEval(rand, run.rs, p), p) == run.e
  {
    hide Mod, Dot, EqTable, Triple, Mle, EqEval, ProveRounds, VerifySumcheck, BatchTriple;
    var t := Tables(l.left, l.right, EqTable(rand, p));
    var run := LayerRun(oracle, log, claim, rand, l, p);
    MleCanonical(Products(l, p), rand, p);
    LayerSum(l, rand, p);
    OneTriple(t, Pow2(|rand|));
    CubicVerdict(oracle, log, claim, |rand|, t, p);
    MleCanonical(l.left, run.rs, p);
    MleCanonical(l.right, run.rs, p);
    var c := Mle(t.C, run.rs, p);
    MleIsDot(t.C, run.rs, p);
    DotComm(EqTable(run.rs, p), EqTable(rand, p));
    EqTablesDot(rand, run.rs, p);
    var ab := Mle(l.left, run.rs, p) * Mle(l.right, run.rs, p);
    CongScale(ab, c, EqEval(rand, run.rs, p), p);
    CanonicalMod(run.e, ab * EqEval(rand, run.rs, p), p);
  }

  lemma MixIsWeighted(a: int, b: int, r: int, p: Modulus)
    ensures Mix(a, b, r, p) == Mod((1 - r) * a + r * b, p)
  {
    hide Mod;
    BindEntry(a, b, r);
  }

  // ---------- all layers ----------

  /** A claim about the input table at a point of all its variables. */
  predicate InputClaim(claim: int, ls: seq<Layer>, m: nat, rand: seq<int>, p: Modulus)
    requires LayersSized(ls, m) && |ls| >= 1
  {
    |rand| == m + |ls| && claim == Mle(InputTable(ls, m), rand, p)
  }

  /**
   The layered proof: every assertion of the verifier passes on the prover's output, both sides end
   with the same claim and point, and the claim is the multilinear extension of the input table there.
   */
  lemma {:induction false} LayersVerdict(oracle: Oracle, log: Log, claim: int, rand: seq<int>, ls: seq<Layer>,
                                         p: Modulus)
    requires Prime(p) && p > 3 && LayersSized(ls, |rand|) && |ls| >= 1 && Chained(ls, p)
    requires forall i :: 0 <= i < |ls| ==> CanonicalLayer(ls[i], p)
    requires claim == Mle(Products(ls[|ls| - 1], p), rand, p)
    ensures var run := ProveLayers(oracle, log, claim, rand, ls, p);
      VerifyLayers(oracle, log, claim, rand, run.proofs, p) == Some((run.claim, run.rand, run.log)) &&
      InputClaim(run.claim, ls, |rand|, run.rand, p)
    decreases |ls|
  {
    hide Mod, Mle, ProveLayer, ProveLayers, Products, Chained, LayersSized, VerifyLayers, CanonicalLayer, Pow2,
         InputTable, Earlier;
    var l := ls[|ls| - 1];
    LastLayer(ls, |rand|, p);
    ProveLayersStep(oracle, log, claim, rand, ls, p);
    var red := ProveLayer(oracle, log, claim, rand, l, p);
    var rest := ProveLayers(oracle, red.log, red.claim, red.rand, Earlier(ls, |rand|), p);
    LayerReduced(oracle, log, claim, rand, l, rest.proofs, p);
    if |ls| == 1 {
      ProveNoLayers(oracle, red.log, red.claim, red.rand, Earlier(ls, |rand|), p);
      VerifyNoLayers(oracle, red.log, red.claim, red.rand, p);
      OnlyLayer(ls, |rand|);
    } else {
      EarlierLayers(ls, |rand|, p);
      LayersVerdict(oracle, red.log, red.claim, red.rand, Earlier(ls, |rand|), p);
    }
  }

  /** One layer turns a right claim about its products into a right claim about its table, and the verifier follows. */
  lemma LayerReduced(oracle: Oracle, log: Log, claim: int, rand: seq<int>, l: Layer, proofs: seq<LayerProof>,
                     p: Modulus)
    requires Prime(p) && p > 3 && |l.left| == |l.right| == Pow2(|rand|) && CanonicalLayer(l, p)
    requires claim == Mle(Products(l, p), rand, p)
    ensures var red := ProveLayer(oracle, log, claim, rand, l, p);
      red.claim == Mle(l.left + l.right, red.rand, p) &&
      VerifyLayers(oracle, log, claim, rand, [red.pf] + proofs, p)
        == VerifyLayers(oracle, red.log, red.claim, red.rand, proofs, p)
  {
    hide Mod, Mle, EqEval, LayerRun, VerifySumcheck, Mix, Products, VerifyLayers, CanonicalLayer, Pow2;
    var run := LayerRun(oracle, log, claim, rand, l, p);
    var a, b := run.ts[0].A[0], run.ts[0].B[0];
    LayerVerdict(oracle, log, claim, rand, l, p);
    MleTop(l, run.rs, Challenge(oracle, ClaimLog(run.log, a, b), "challenge_r_layer", p), p);
    VerifyLayerStep(oracle, log, claim, rand, LayerProof(run.polys, [a, b]), proofs, run.e, run.rs, run.log, p);
  }

  lemma ProveLayersStep(oracle: Oracle, log: Log, claim: int, rand: seq<int>, ls: seq<Layer>, p: Modulus)
    requires Prime(p) && p > 3 && LayersSized(ls, |rand|) && |ls| >= 1
    requires var l := ls[|ls| - 1]; |l.left| == |l.right| == Pow2(|rand|)
    ensures var red := ProveLayer(oracle, log, claim, rand, ls[|ls| - 1], p);
      var rest := ProveLayers(oracle, red.log, red.claim, red.rand, Earlier(ls, |rand|), p);
      ProveLayers(oracle, log, claim, rand, ls, p) == TreeRun([red.pf] + rest.proofs, rest.claim, rest.rand, rest.log)
  {
    hide ProveLayer, LayersSized, Pow2, Earlier;
  }

  lemma ProveNoLayers(oracle: Oracle, log: Log, claim: int, rand: seq<int>, ls: seq<Layer>, p: Modulus)
    requires Prime(p) && p > 3 && LayersSized(ls, |rand|) && |ls| == 0
    ensures ProveLayers(oracle, log, claim, rand, ls, p) == TreeRun([], claim, rand, log)
  {
  }

  lemma OnlyLayer(ls: seq<Layer>, m: nat)
    requires LayersSized(ls, m) && |ls| == 1
    ensures InputTable(ls, m) == ls[0].left + ls[0].right
  {
  }

  lemma LastLayer(ls: seq<Layer>, m: nat, p: Modulus)
    requires LayersSized(ls, m) && |ls| >= 1
    ensures var l := ls[|ls| - 1]; |l.left| == |l.right| == Pow2(m)
  {
    hide Pow2;
  }

  lemma EarlierLayers(ls: seq<Layer>, m: nat, p: Modulus)
    requires LayersSized(ls, m) && |ls| >= 2 && Chained(ls, p)
    ensures var ls' := Earlier(ls, m); var l := ls[|ls| - 1];
      |ls'[|ls'| - 1].left| == |ls'[|ls'| - 1].right| &&
      (forall i :: 0 <= i < |ls'| ==> |ls'[i].left| == |ls'[i].right|) &&
      Chained(ls', p) && InputTable(ls', m + 1) == InputTable(ls, m) && l.left + l.right == Products(ls'[|ls'| - 1], p)
  {
    hide Pow2, Products;
    var n := |ls| - 2;
    assert ls[n + 1].left + ls[n + 1].right == Products(ls[n], p);
  }

  lemma VerifyNoLayers(oracle: Oracle, log: Log, claim: int, rand: seq<int>, p: Modulus)
    requires Prime(p)
    ensures VerifyLayers(oracle, log, claim, rand, [], p) == Some((claim, rand, log))
  {
  }

  lemma VerifyLayersUnfold(oracle: Oracle, log: Log, claim: int, rand: seq<int>, proofs: seq<LayerProof>, p: Modulus)
    requires Prime(p) && |proofs| > 0
    ensures VerifyLayers(oracle, log, claim, rand, proofs, p) ==
      match VerifySumcheck(oracle, log, claim, proofs[0].polys, |rand|, 3, p)
      case None => None
      case Some((last, rs, log1)) =>
        if |proofs[0].claims| < 2 || |rs| != |rand| then None else
        var a, b := proofs[0].claims[0], proofs[0].claims[1];
        if Mod(a * b * EqEval(rand, rs, p), p) != last then None else
        var log' := ClaimLog(log1, a, b);
        var r := Challenge(oracle, log', "challenge_r_layer", p);
        VerifyLayers(oracle, log' + [Draw("challenge_r_layer")], Mod((1 - r) * a + r * b, p), [r] + rs, proofs[1..], p)
  {
    hide Mod, EqEval, VerifySumcheck;
  }

  /** One layer that passes its checks. */
  lemma VerifyLayerStep(oracle: Oracle, log: Log, claim: int, rand: seq<int>, pf: LayerProof, proofs: seq<LayerProof>,
                        last: int, rs: seq<int>, log1: Log, p: Modulus)
    requires Prime(p) && |pf.claims| == 2 && |rs| == |rand|
    requires VerifySumcheck(oracle, log, claim, pf.polys, |rand|, 3, p) == Some((last, rs, log1))
    requires Mod(pf.claims[0] * pf.claims[1] * EqEval(rand, rs, p), p) == last
    ensures var log' := ClaimLog(log1, pf.claims[0], pf.claims[1]);
      var r := Challenge(oracle, log', "challenge_r_layer", p);
      VerifyLayers(oracle, log, claim, rand, [pf] + proofs, p)
        == VerifyLayers(oracle, log' + [Draw("challenge_r_layer")], Mix(pf.claims[0], pf.claims[1], r, p), [r] + rs,
                        proofs, p)
  {
    hide Mod, EqEval, VerifySumcheck, Mix, VerifyLayers, ClaimLog;
    assert ([pf] + proofs)[1..] == proofs;
    VerifyLayersUnfold(oracle, log, claim, rand, [pf] + proofs, p);
    var r := Challenge(oracle, ClaimLog(log1, pf.claims[0], pf.claims[1]), "challenge_r_layer", p);
    MixIsWeighted(pf.claims[0], pf.claims[1], r, p);
  }

  function ProveTree(oracle: Oracle, log: Log, T: seq<int>, k: nat, p: Modulus): TreeRun
    requires Prime(p) && p > 3 && k >= 1 && |T| == Pow2(k)
  {
    ProveLayers(oracle, log, EvaluateRoot(Layers(T, k, p), p), [], Layers(T, k, p), p)
  }

  function VerifyTree(oracle: Oracle, log: Log, eval: int, k: nat, proofs: seq<LayerProof>, p: Modulus)
    : Option<(int, seq<int>, Log)>
    requires Prime(p)
  {
    if |proofs| != k then None else VerifyLayers(oracle, log, eval, [], proofs, p)
  }

  lemma TreeVerdict(oracle: Oracle, log: Log, T: seq<int>, k: nat, p: Modulus)
    requires Prime(p) && p > 3 && k >= 1 && |T| == Pow2(k) && CanonicalV(T, p)
    ensures var run := ProveTree(oracle, log, T, k, p);
      VerifyTree(oracle, log, Mod(Prod(T), p), k, run.proofs, p) == Some((run.claim, run.rand, run.log)) &&
      |run.rand| == k && run.claim == Mle(T, run.rand, p)
  {
    hide Mod, VerifyLayers, ProveLayers, Products;
    var ls := Layers(T, k, p);
    RootIsProduct(T, k, p);
    LayersChained(T, k, p);
    RootClaim(ls[k - 1], p);
    LayersVerdict(oracle, log, EvaluateRoot(ls, p), [], ls, p);
  }

  lemma RootClaim(l: Layer, p: Modulus)
    requires |l.left| == |l.right| == 1
    ensures Mod(l.left[0] * l.right[0], p) == Mle(Products(l, p), [], p)
  {
    hide Mod;
  }
}
