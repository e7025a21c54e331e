/** The product circuit as it is built and proved: one pair of polynomials per layer, bound in place. */
module ProductCircuits {
  import opened PowersOfTwo
  import opened PrimeField
  import opened Vectors
  import opened Transcript
  import opened Multilinear
  import opened SumcheckSpec
  import opened ProductTree
  import Sumcheck

  /** The two halves' products, split in half again. */
  method ComputeLayer(left: DensePolynomial, right: DensePolynomial, p: Modulus)
    returns (l: DensePolynomial, r: DensePolynomial)
    requires left.Valid() && right.Valid() && left.numVars == right.numVars > 0
    ensures fresh(l) && fresh(r) && fresh(l.z) && fresh(r.z) && l != r && l.z != r.z && l.Valid() && r.Valid()
    ensures l.numVars == r.numVars == left.numVars - 1
    ensures Layer(l.Table(), r.Table()) == SplitTable(Products(Layer(left.Table(), right.Table()), p))
  {
    hide Mod;
    var len := left.len + right.len;
    ghost var t := Products(Layer(left.Table(), right.Table()), p);
    var lo := seq(len / 4, i requires 0 <= i < len / 4 && left.Valid() && right.Valid() && i < left.z.Length &&
                  i < right.z.Length
                             reads left, right, left.z, right.z => Mod(left.z[i] * right.z[i], p));
    var hi := seq(len / 2 - len / 4, i requires 0 <= i < len / 4 && left.Valid() && right.Valid() &&
                  len / 4 + i < left.z.Length && len / 4 + i < right.z.Length
                             reads left, right, left.z, right.z => Mod(left.z[len / 4 + i] * right.z[len / 4 + i], p));
    assert lo == t[..|t| / 2] && hi == t[|t| / 2..];
    l := new DensePolynomial(lo, left.numVars - 1);
    r := new DensePolynomial(hi, left.numVars - 1);
  }

  /** No two polynomials are the same object or share a buffer. */
  ghost predicate Separated(ll: seq<DensePolynomial>, rr: seq<DensePolynomial>) {
    |ll| == |rr| &&
    (forall i, j :: 0 <= i < j < |ll| ==> ll[i] != ll[j] && ll[i].z != ll[j].z && rr[i] != rr[j] &&
                                          rr[i].z != rr[j].z) &&
    (forall i, j :: 0 <= i < |ll| && 0 <= j < |ll| ==> ll[i] != rr[j] && ll[i].z != rr[j].z)
  }

  /** The polynomial holds the table, a function of the layer's position. */
  ghost predicate Holds(d: DensePolynomial, t: seq<int>, vars: int)
    reads d, d.z
  {
    d.Valid() && d.numVars == vars && d.Table() == t
  }

  /** The first n pairs hold the tables of the first n layers of ls. */
  ghost predicate Tower(ll: seq<DensePolynomial>, rr: seq<DensePolynomial>, ls: seq<Layer>, n: nat)
    reads ll, rr, Buffers(ll), Buffers(rr)
  {
    n <= |ll| == |rr| && n <= |ls| &&
    forall i :: 0 <= i < n ==> Holds(ll[i], ls[i].left, |ls| - 1 - i) && Holds(rr[i], ls[i].right, |ls| - 1 - i)
  }

  ghost function Buffers(ds: seq<DensePolynomial>): set<object> {
    set i | 0 <= i < |ds| :: ds[i].z
  }

  /** One layer more on top. */
  method PushLayer(ll: seq<DensePolynomial>, rr: seq<DensePolynomial>, ghost ls: seq<Layer>, p: Modulus)
    returns (l: DensePolynomial, r: DensePolynomial)
    requires |ll| == |rr| > 0 && |ll| < |ls| && Separated(ll, rr) && Tower(ll, rr, ls, |ll|)
    requires |ls[|ll| - 1].left| == |ls[|ll| - 1].right| == Pow2(|ls| - |ll|)
    requires ls[|ll|] == SplitTable(Products(ls[|ll| - 1], p))
    ensures fresh(l) && fresh(r) && fresh(l.z) && fresh(r.z)
    ensures Separated(ll + [l], rr + [r]) && Tower(ll + [l], rr + [r], ls, |ll| + 1)
  {
    hide Mod, Products;
    var i := |ll| - 1;
    l, r := ComputeLayer(ll[i], rr[i], p);
  }

  class ProductCircuit {
    var left: seq<DensePolynomial>
    var right: seq<DensePolynomial>

    ghost predicate Shows(ls: seq<Layer>)
      reads this, left, right, Buffers(left), Buffers(right)
    {
      |left| == |ls| && Separated(left, right) && Tower(left, right, ls, |ls|)
    }

    /** Halve the input, then multiply the halves layer by layer. */
    constructor (poly: DensePolynomial, ghost ls: seq<Layer>, p: Modulus)
      requires poly.Valid() && poly.numVars >= 1 && ls == Layers(poly.Table(), poly.numVars, p)
      ensures Shows(ls) && fresh(left) && fresh(right) && fresh(Buffers(left)) && fresh(Buffers(right))
    {
      hide Mod, Products, Separated, Tower;
      var ll, rr := BuildLayers(poly, ls, p);
      left, right := ll, rr;
    }
  }

  method BuildLayers(poly: DensePolynomial, ghost ls: seq<Layer>, p: Modulus)
    returns (ll: seq<DensePolynomial>, rr: seq<DensePolynomial>)
    requires poly.Valid() && poly.numVars >= 1 && ls == Layers(poly.Table(), poly.numVars, p)
    ensures |ll| == |rr| == |ls| && Separated(ll, rr) && Tower(ll, rr, ls, |ls|)
    ensures fresh(ll) && fresh(rr) && fresh(Buffers(ll)) && fresh(Buffers(rr))
  {
    hide Mod, Products, Separated, Tower, Buffers, LayersSized, Layers;
    ll, rr := FirstLayer(poly, ls, p);
    for i := 1 to poly.numVars
      invariant |ll| == |rr| == i && Separated(ll, rr) && Tower(ll, rr, ls, i)
      invariant fresh(ll) && fresh(rr) && fresh(Buffers(ll)) && fresh(Buffers(rr))
    {
      LayerNext(poly.Table(), poly.numVars, i - 1, p);
      LayerSize(ls, i - 1);
      var l, r := PushLayer(ll, rr, ls, p);
      BuffersSnoc(ll, l);
      BuffersSnoc(rr, r);
      ll, rr := ll + [l], rr + [r];
    }
  }

  lemma BuffersSnoc(ds: seq<DensePolynomial>, d: DensePolynomial)
    ensures Buffers(ds + [d]) == Buffers(ds) + {d.z}
  {
    assert forall i :: 0 <= i < |ds| ==> (ds + [d])[i] == ds[i];
    assert (ds + [d])[|ds|] == d;
  }

  lemma LayerSize(ls: seq<Layer>, i: nat)
    requires LayersSized(ls, 0) && i < |ls|
    ensures |ls[i].left| == |ls[i].right| == Pow2(|ls| - 1 - i)
  {
    assert 0 + |ls| - 1 - i == |ls| - 1 - i;
  }

  method FirstLayer(poly: DensePolynomial, ghost ls: seq<Layer>, p: Modulus)
    returns (ll: seq<DensePolynomial>, rr: seq<DensePolynomial>)
    requires poly.Valid() && poly.numVars >= 1 && ls == Layers(poly.Table(), poly.numVars, p)
    ensures |ll| == |rr| == 1 && Separated(ll, rr) && Tower(ll, rr, ls, 1)
    ensures fresh(ll) && fresh(rr) && fresh(Buffers(ll)) && fresh(Buffers(rr))
  {
    hide Mod, Products;
    var n := poly.len / 2;
    var l := new DensePolynomial(poly.z[..n], poly.numVars - 1);
    var r := new DensePolynomial(poly.z[n..2 * n], poly.numVars - 1);
    ll, rr := [l], [r];
    LayerFirst(poly.Table(), poly.numVars, p);
  }

  lemma LayerFirst(T: seq<int>, k: nat, p: Modulus)
    requires k >= 1 && |T| == Pow2(k)
    ensures Layers(T, k, p)[0] == SplitTable(T)
  {
    hide Mod, Products;
  }

  lemma {:induction false} LayerNext(T: seq<int>, k: nat, i: nat, p: Modulus)
    requires |T| == Pow2(k) && i + 1 < k
    ensures var ls := Layers(T, k, p); ls[i + 1] == SplitTable(Products(ls[i], p))
    decreases k
  {
    hide Mod, Products;
    if i == 0 {
    } else {
      LayerNext(Products(SplitTable(T), p), k - 1, i - 1, p);
    }
  }

  // ---------- the prover ----------

  /** The sum-check of one layer, its two claims, and the challenge that joins them. */
  method ProveOneLayer(tape: Tape, claim: int, rand: seq<int>, left: DensePolynomial, right: DensePolynomial,
                       ghost l: Layer, p: Modulus)
    returns (pf: LayerProof, claim': int, rand': seq<int>)
    requires Prime(p) && p > 3 && left != right && left.z != right.z
    requires Holds(left, l.left, |rand|) && Holds(right, l.right, |rand|) && |l.left| == |l.right| == Pow2(|rand|)
    modifies tape, left, right, left.z, right.z
    ensures Reduced(pf, claim', rand', tape.log) == ProveLayer(tape.oracle, old(tape.log), claim, rand, l, p)
  {
    hide Mod, ProveRounds, EqTable, Pow2, Mix;
    var evals := Evals(rand, p);
    var polyC := new DensePolynomial(evals[..], |rand|);
    ghost var log := tape.log;
    assert Sumcheck.TablesOf(left, right, polyC) == Tables(l.left, l.right, EqTable(rand, p));
    var polys, rs, finals := Sumcheck.ProveCubic(tape, claim, |rand|, left, right, polyC, p);
    ghost var run := LayerRun(tape.oracle, log, claim, rand, l, p);
    assert polys == run.polys && rs == run.rs && finals[0] == run.ts[0].A[0] && finals[1] == run.ts[0].B[0] &&
           tape.log == run.log;
    tape.Append(Scalar("claim_prod_left", finals[0]));
    tape.Append(Scalar("claim_prod_right", finals[1]));
    assert tape.log == ClaimLog(run.log, finals[0], finals[1]);
    var r := tape.ChallengeScalar("challenge_r_layer", p);
    claim' := Mix(finals[0], finals[1], r, p);
    rand' := [r] + rs;
    pf := LayerProof(polys, finals[..2]);
    assert finals[..2] == [finals[0], finals[1]];
  }

  ghost function ContinueTree(proofs: seq<LayerProof>, run: TreeRun): TreeRun {
    TreeRun(proofs + run.proofs, run.claim, run.rand, run.log)
  }

  lemma ContinueLayers(oracle: Oracle, log: Log, claim: int, rand: seq<int>, ls: seq<Layer>, proofs: seq<LayerProof>,
                       red: Reduced, p: Modulus)
    requires Prime(p) && p > 3 && LayersSized(ls, |rand|) && |ls| > 0
    requires |ls[|ls| - 1].left| == |ls[|ls| - 1].right| == Pow2(|rand|) &&
             red == ProveLayer(oracle, log, claim, rand, ls[|ls| - 1], p)
    ensures ContinueTree(proofs, ProveLayers(oracle, log, claim, rand, ls, p))
         == ContinueTree(proofs + [red.pf], ProveLayers(oracle, red.log, red.claim, red.rand, Earlier(ls, |rand|), p))
  {
    hide ProveLayer, LayersSized, Pow2;
    var rest := ProveLayers(oracle, red.log, red.claim, red.rand, Earlier(ls, |rand|), p);
    assert proofs + ([red.pf] + rest.proofs) == (proofs + [red.pf]) + rest.proofs;
  }

  lemma NoLayersLeft(oracle: Oracle, log: Log, claim: int, rand: seq<int>, proofs: seq<LayerProof>, p: Modulus)
    requires Prime(p) && p > 3
    ensures ContinueTree(proofs, ProveLayers(oracle, log, claim, rand, [], p)) == TreeRun(proofs, claim, rand, log)
  {
    assert proofs + [] == proofs;
  }

  lemma SizedPrefix(ls: seq<Layer>, i: nat, m: nat)
    requires LayersSized(ls, 0) && 0 < i <= |ls| && m == |ls| - i
    ensures LayersSized(ls[..i], m) && Earlier(ls[..i], m) == ls[..i - 1] && LayersSized(ls[..i - 1], m + 1)
    ensures |ls[i - 1].left| == |ls[i - 1].right| == Pow2(m) && ls[..i][i - 1] == ls[i - 1]
  {
    hide Pow2;
    assert forall j :: 0 <= j < i ==> ls[..i][j] == ls[j] && m + i - 1 - j == 0 + |ls| - 1 - j;
    assert forall j :: 0 <= j < i - 1 ==> ls[..i - 1][j] == ls[j] && (m + 1) + (i - 1) - 1 - j == 0 + |ls| - 1 - j;
    assert ls[..i][..i - 1] == ls[..i - 1];
  }

  /** The layers from the root down; the circuit's polynomials are used up on the way. */
  method Prove(tape: Tape, c: ProductCircuit, ghost ls: seq<Layer>, p: Modulus)
    returns (proofs: seq<LayerProof>, claim: int, rand: seq<int>)
    requires Prime(p) && p > 3 && LayersSized(ls, 0) && |ls| >= 1 && c.Shows(ls)
    modifies tape, c.left, c.right, Buffers(c.left), Buffers(c.right)
    ensures TreeRun(proofs, claim, rand, tape.log) == ProveLayers(tape.oracle, old(tape.log), EvaluateRoot(ls, p), [],
                                                                  ls, p)
  {
    hide Mod, ProveLayer, ProveLayers, LayersSized, Separated, Tower, Buffers;
    ShowsSizes(c, ls);
    RootEntries(c, ls);
    var top := |c.left| - 1;
    claim := Mod(c.left[top].z[0] * c.right[top].z[0], p);
    proofs, rand := [], [];
    var i := |c.left|;
    ghost var left, right, all := c.left, c.right, ProveLayers(tape.oracle, tape.log, claim, [], ls, p);
    assert ls[..i] == ls;
    SizedAll(ls, rand);
    EmptyContinue(all);
    while i > 0
      invariant 0 <= i <= |ls| == |left| == |right| && c.left == left && c.right == right
      invariant |rand| == |ls| - i && LayersSized(ls[..i], |rand|)
      invariant Separated(left, right) && Tower(left, right, ls, i)
      invariant all == ContinueTree(proofs, ProveLayers(tape.oracle, tape.log, claim, rand, ls[..i], p))
    {
      SizedPrefix(ls, i, |rand|);
      i := i - 1;
      BufferOf(left, i);
      BufferOf(right, i);
      assert Tower(left, right, ls, i + 1);
      ghost var log, claim0, rand0 := tape.log, claim, rand;
      var pf;
      pf, claim, rand := ProveAt(tape, claim, rand, c, i, ls, p);
      ContinueLayers(tape.oracle, log, claim0, rand0, ls[..i + 1], proofs, Reduced(pf, claim, rand, tape.log), p);
      proofs := proofs + [pf];
    }
    NoLayersLeft(tape.oracle, tape.log, claim, rand, proofs, p);
  }

  lemma SizedAll(ls: seq<Layer>, rand: seq<int>)
    requires LayersSized(ls, 0) && |rand| == 0
    ensures LayersSized(ls, |rand|)
  {
  }

  lemma ShowsSizes(c: ProductCircuit, ls: seq<Layer>)
    requires c.Shows(ls)
    ensures |c.left| == |c.right| == |ls|
  {
  }

  lemma BufferOf(ds: seq<DensePolynomial>, i: nat)
    requires i < |ds|
    ensures ds[i].z in Buffers(ds)
  {
  }

  lemma EmptyContinue(run: TreeRun)
    ensures ContinueTree([], run) == run
  {
    assert [] + run.proofs == run.proofs;
  }

  lemma RootEntries(c: ProductCircuit, ls: seq<Layer>)
    requires LayersSized(ls, 0) && |ls| >= 1 && c.Shows(ls) && |c.left| == |c.right| == |ls|
    ensures var n := |ls| - 1;
      c.left[n].z.Length > 0 && c.right[n].z.Length > 0 && |ls[n].left| == |ls[n].right| == 1 &&
      c.left[n].z[0] == ls[n].left[0] && c.right[n].z[0] == ls[n].right[0]
  {
    var n := |ls| - 1;
    assert Holds(c.left[n], ls[n].left, 0) && Holds(c.right[n], ls[n].right, 0);
  }

  /** Layer i of the circuit; the layers before it keep their tables. */
  method ProveAt(tape: Tape, claim: int, rand: seq<int>, c: ProductCircuit, i: nat, ghost ls: seq<Layer>, p: Modulus)
    returns (pf: LayerProof, claim': int, rand': seq<int>)
    requires Prime(p) && p > 3 && i < |ls| == |c.left| == |c.right| && |rand| == |ls| - 1 - i
    requires |ls[i].left| == |ls[i].right| == Pow2(|rand|)
    requires Separated(c.left, c.right) && Tower(c.left, c.right, ls, i + 1)
    modifies tape, c.left[i], c.right[i], c.left[i].z, c.right[i].z
    ensures Reduced(pf, claim', rand', tape.log) == ProveLayer(tape.oracle, old(tape.log), claim, rand, ls[i], p)
    ensures Tower(c.left, c.right, ls, i)
  {
    hide Mod, ProveLayer, Pow2;
    assert Holds(c.left[i], ls[i].left, |rand|) && Holds(c.right[i], ls[i].right, |rand|);
    pf, claim', rand' := ProveOneLayer(tape, claim, rand, c.left[i], c.right[i], ls[i], p);
    forall j | 0 <= j < i
      ensures Holds(c.left[j], ls[j].left, |ls| - 1 - j) && Holds(c.right[j], ls[j].right, |ls| - 1 - j)
    {
      assert old(Holds(c.left[j], ls[j].left, |ls| - 1 - j)) && old(Holds(c.right[j], ls[j].right, |ls| - 1 - j));
    }
  }

  // ---------- the verifier ----------

  method VerifyProof(tape: Tape, eval: int, k: nat, proofs: seq<LayerProof>, p: Modulus)
    returns (v: Option<(int, seq<int>)>)
    requires Prime(p) && Canonical(eval, p)
    requires forall i, j :: 0 <= i < |proofs| && 0 <= j < |proofs[i].polys| ==> CanonicalV(proofs[i].polys[j], p)
    modifies tape
    ensures match VerifyTree(tape.oracle, old(tape.log), eval, k, proofs, p)
      case None => v == None
      case Some((claim, rand, log)) => v == Some((claim, rand)) && tape.log == log
  {
    hide Mod, EqEval, VerifySumcheck, VerifyLayers;
    if |proofs| != k {
      return None;
    }
    var claim, rand := eval, [];
    assert proofs[0..] == proofs;
    for i := 0 to |proofs|
      invariant Canonical(claim, p)
      invariant VerifyLayers(tape.oracle, tape.log, claim, rand, proofs[i..],
                             p) == old(VerifyLayers(tape.oracle, tape.log, eval, [], proofs, p))
    {
      VerifyLayersUnfold(tape.oracle, tape.log, claim, rand, proofs[i..], p);
      assert proofs[i..][1..] == proofs[i + 1..];
      var res := Sumcheck.VerifyRun(tape, claim, proofs[i].polys, |rand|, 3, p);
      if res.None? {
        return None;
      }
      var (last, rs) := res.value;
      if |proofs[i].claims| < 2 || |rs| != |rand| {
        return None;
      }
      var a, b := proofs[i].claims[0], proofs[i].claims[1];
      ghost var log1 := tape.log;
      tape.Append(Scalar("claim_prod_left", a));
      tape.Append(Scalar("claim_prod_right", b));
      assert tape.log == ClaimLog(log1, a, b);
      if Mod(a * b * EqEval(rand, rs, p), p) != last {
        return None;
      }
      var r := tape.ChallengeScalar("challenge_r_layer", p);
      claim := Mod((1 - r) * a + r * b, p);
      rand := [r] + rs;
    }
    assert proofs[|proofs|..] == [];
    VerifyNoLayers(tape.oracle, tape.log, claim, rand, p);
    v := Some((claim, rand));
  }
}
