/**
 The transcripts of the product proofs: what the verifiers absorb before each challenge, and that it fixes
 everything they were sent.
 */
module ProductTrace {
  import opened PowersOfTwo
  import opened PrimeField
  import opened Vectors
  import opened Transcript
  import opened Multilinear
  import opened UniPoly
  import opened SumcheckSpec
  import opened SumcheckTrace
  import opened ProductTree
  import opened ProductBatch

  // ---------- the sum-check of any polynomials ----------

  /** The verifier's run over any polynomials: stopped by their shape alone, else traced round by round. */
  lemma SumcheckExact(oracle: Oracle, log: Log, claim: int, polys: seq<seq<int>>, rounds: nat, degree: nat, p: Modulus)
    returns (t: Rounds)
    requires Canonical(claim, p)
    ensures |polys| == rounds && Shaped(polys, degree) ==>
      t == TraceOf(oracle, log, claim, polys, p) && t.polys == polys && RoundsHold(oracle, log, t, degree, p) &&
      t.es[0] == claim && EvenlySized(t.fs, degree) &&
      VerifySumcheck(oracle, log, claim, polys, rounds, degree, p)
        == Some((t.es[rounds], t.rs, log + RunMessages(t.fs)))
    ensures !(|polys| == rounds && Shaped(polys, degree)) ==>
      VerifySumcheck(oracle, log, claim, polys, rounds, degree, p) == None
  {
    hide Mod, VerifyRounds, RunMessages, Shaped, RoundsHold, TraceOf;
    AcceptedByShape(oracle, log, claim, polys, rounds, degree, p);
    if |polys| == rounds && Shaped(polys, degree) {
      t := RunTrace(oracle, log, claim, polys, degree, p);
      RoundsCounted(oracle, log, t, degree, p);
    } else {
      t := Rounds([], [], [], []);
    }
  }

  // ---------- the single tree ----------

  /** A layer's messages: its sum-check, the two claims, and the draw that joins them. */
  function LayerMessages(fs: seq<Poly>, a: int, b: int): Log {
    RunMessages(fs) + [Scalar("claim_prod_left", a), Scalar("claim_prod_right", b), Draw("challenge_r_layer")]
  }

  /** One layer of the verifier on any proof: what stops it, and what it goes on with. */
  lemma AnyLayer(oracle: Oracle, log: Log, claim: int, rand: seq<int>, proofs: seq<LayerProof>, p: Modulus)
    returns (t: Rounds)
    requires Prime(p) && |proofs| > 0 && Canonical(claim, p)
    ensures var pf := proofs[0];
      var verdict := VerifyLayers(oracle, log, claim, rand, proofs, p);
      if |pf.polys| == |rand| && Shaped(pf.polys, 3) && |pf.claims| >= 2 then
        t == TraceOf(oracle, log, claim, pf.polys, p) &&
        t.polys == pf.polys && RoundsHold(oracle, log, t, 3, p) && t.es[0] == claim &&
        EvenlySized(t.fs, 3) && |t.rs| == |rand| &&
        var log' := log + LayerMessages(t.fs, pf.claims[0], pf.claims[1]);
        var r := Mod(oracle(log'), p);
        if Cong(pf.claims[0] * pf.claims[1] * EqEval(rand, t.rs, p), t.es[|rand|], p) &&
           Canonical(t.es[|rand|], p) then
          verdict == VerifyLayers(oracle, log', Mod((1 - r) * pf.claims[0] + r * pf.claims[1], p), [r] + t.rs,
                                  proofs[1..], p)
        else verdict == None
      else verdict == None
  {
    hide Mod, RunMessages, Shaped, RoundsHold, VerifySumcheck, VerifyLayers, EqEval, EvenlySized, LayerMessages,
         TraceOf;
    var pf := proofs[0];
    t := SumcheckExact(oracle, log, claim, pf.polys, |rand|, 3, p);
    VerifyLayersUnfold(oracle, log, claim, rand, proofs, p);
    if |pf.polys| == |rand| && Shaped(pf.polys, 3) && |pf.claims| >= 2 {
      RoundsCounted(oracle, log, t, 3, p);
      LayerLog(log, t.fs, pf.claims[0], pf.claims[1]);
      SameRemainder(pf.claims[0] * pf.claims[1] * EqEval(rand, t.rs, p), t.es[|rand|], p);
    }
  }

  lemma SameRemainder(x: int, y: int, p: Modulus)
    ensures Mod(x, p) == y <==> Cong(x, y, p) && Canonical(y, p)
  {
  }

  lemma LayerLog(log: Log, fs: seq<Poly>, a: int, b: int)
    ensures ClaimLog(log + RunMessages(fs), a, b) + [Draw("challenge_r_layer")] == log + LayerMessages(fs, a, b)
  {
    hide RunMessages;
  }

  /** The transcript only grows. */
  lemma {:induction false} LayersExtend(oracle: Oracle, log: Log, claim: int, rand: seq<int>, proofs: seq<LayerProof>,
                                        p: Modulus) returns (rest: Log)
    requires Prime(p) && Canonical(claim, p) && VerifyLayers(oracle, log, claim, rand, proofs, p).Some?
    ensures VerifyLayers(oracle, log, claim, rand, proofs, p).value.2 == log + rest
    decreases |proofs|
  {
    hide Mod, TraceOf, RoundsHold, EqEval, LayerMessages, Shaped, EvenlySized, VerifyLayers;
    if |proofs| == 0 {
      VerifyNoLayers(oracle, log, claim, rand, p);
      rest := [];
      assert proofs == [] && log + rest == log;
    } else {
      var pf := proofs[0];
      var t := AnyLayer(oracle, log, claim, rand, proofs, p);
      var m := LayerMessages(t.fs, pf.claims[0], pf.claims[1]);
      var r := Mod(oracle(log + m), p);
      var more := LayersExtend(oracle, log + m, Mod((1 - r) * pf.claims[0] + r * pf.claims[1], p), [r] + t.rs,
                               proofs[1..], p);
      rest := m + more;
      assert log + m + more == log + (m + more);
    }
  }

  /** A layer's proof: one cubic for each round, and two claims. */
  predicate LayerShaped(pf: LayerProof, rounds: nat) {
    |pf.polys| == rounds && Shaped(pf.polys, 3) && |pf.claims| >= 2
  }

  /** Accepted layers have the right shapes, and the point starts with the challenge drawn after everything. */
  lemma {:induction false} LayersShaped(oracle: Oracle, log: Log, claim: int, rand: seq<int>, proofs: seq<LayerProof>,
                                        p: Modulus)
    requires Prime(p) && Canonical(claim, p) && VerifyLayers(oracle, log, claim, rand, proofs, p).Some?
    ensures forall i :: 0 <= i < |proofs| ==> LayerShaped(proofs[i], |rand| + i)
    ensures var (_, point, end) := VerifyLayers(oracle, log, claim, rand, proofs, p).value;
      |point| == |rand| + |proofs| && (|proofs| > 0 ==> point[0] == Mod(oracle(end), p))
    decreases |proofs|
  {
    hide Mod, TraceOf, RoundsHold, EqEval, LayerMessages, Shaped, VerifyLayers, EvenlySized;
    if |proofs| == 0 {
      VerifyNoLayers(oracle, log, claim, rand, p);
      assert proofs == [];
    } else {
      var pf := proofs[0];
      var t := AnyLayer(oracle, log, claim, rand, proofs, p);
      var log' := log + LayerMessages(t.fs, pf.claims[0], pf.claims[1]);
      var r := Mod(oracle(log'), p);
      var next := Mod((1 - r) * pf.claims[0] + r * pf.claims[1], p);
      LayersShaped(oracle, log', next, [r] + t.rs, proofs[1..], p);
      if |proofs| == 1 {
        VerifyNoLayers(oracle, log', next, [r] + t.rs, p);
        assert proofs[1..] == [];
      }
      forall i | 0 <= i < |proofs| ensures LayerShaped(proofs[i], |rand| + i) {
        assert i > 0 ==> proofs[i] == proofs[1..][i - 1];
      }
    }
  }

  /** The verifier of the tree takes one proof for each layer, layer i with i rounds, and returns a full point. */
  lemma TreeShape(oracle: Oracle, log: Log, eval: int, k: nat, proofs: seq<LayerProof>, p: Modulus)
    requires Prime(p) && Canonical(eval, p) && VerifyTree(oracle, log, eval, k, proofs, p).Some?
    ensures |proofs| == k && forall i :: 0 <= i < k ==> LayerShaped(proofs[i], i)
    ensures var (_, point, end) := VerifyTree(oracle, log, eval, k, proofs, p).value;
      |point| == k && (k > 0 ==> point[0] == Mod(oracle(end), p))
  {
    hide Mod, VerifyLayers, LayerShaped;
    LayersShaped(oracle, log, eval, [], proofs, p);
  }

  /** What a verifier of the tree looks at in a layer's proof. */
  predicate SameLayer(a: LayerProof, b: LayerProof) {
    a.polys == b.polys && |a.claims| >= 2 && |b.claims| >= 2 && a.claims[..2] == b.claims[..2]
  }

  /** Equal transcripts split into equal layers. */
  lemma LayerBinds(log: Log, fs: seq<Poly>, a: int, b: int, rest: Log, gs: seq<Poly>, a': int, b': int, rest': Log)
    requires |fs| == |gs| && EvenlySized(fs, 3) && EvenlySized(gs, 3)
    requires log + LayerMessages(fs, a, b) + rest == log + LayerMessages(gs, a', b') + rest'
    ensures fs == gs && a == a' && b == b' && rest == rest'
  {
    hide RunMessages;
    var m, m' := [Scalar("claim_prod_left", a), Scalar("claim_prod_right", b), Draw("challenge_r_layer")],
                 [Scalar("claim_prod_left", a'), Scalar("claim_prod_right", b'), Draw("challenge_r_layer")];
    assert log + LayerMessages(fs, a, b) + rest == log + (RunMessages(fs) + (m + rest));
    assert log + LayerMessages(gs, a', b') + rest' == log + (RunMessages(gs) + (m' + rest'));
    SplitEqual(log, RunMessages(fs) + (m + rest), log, RunMessages(gs) + (m' + rest'));
    RunInjective(fs, gs, m + rest, m' + rest', 3);
    SplitEqual(m, rest, m', rest');
    assert m[0] == m'[0] && m[1] == m'[1];
  }

  /** The transcript binds the tree's verifier: equal ends come from equal proofs. */
  lemma {:induction false} TreeBinds(oracle: Oracle, oracle': Oracle, log: Log, claim: int, claim': int, rand: seq<int>,
                                     rand': seq<int>, proofs: seq<LayerProof>, proofs': seq<LayerProof>, p: Modulus)
    requires Prime(p) && Canonical(claim, p) && Canonical(claim', p) && |rand| == |rand'| && |proofs| == |proofs'|
    requires VerifyLayers(oracle, log, claim, rand, proofs, p).Some? &&
             VerifyLayers(oracle', log, claim', rand', proofs', p).Some?
    requires VerifyLayers(oracle, log, claim, rand, proofs, p).value.2
          == VerifyLayers(oracle', log, claim', rand', proofs', p).value.2
    ensures forall i :: 0 <= i < |proofs| ==> SameLayer(proofs[i], proofs'[i])
    decreases |proofs|
  {
    hide Mod, TraceOf, RoundsHold, EqEval, LayerMessages, Shaped, VerifyLayers, EvenlySized, SameLayer;
    if |proofs| == 0 {
    } else {
      var pf, pf' := proofs[0], proofs'[0];
      var t := AnyLayer(oracle, log, claim, rand, proofs, p);
      var t' := AnyLayer(oracle', log, claim', rand', proofs', p);
      var m, m' := LayerMessages(t.fs, pf.claims[0], pf.claims[1]), LayerMessages(t'.fs, pf'.claims[0], pf'.claims[1]);
      var r, r' := Mod(oracle(log + m), p), Mod(oracle'(log + m'), p);
      var next := Mod((1 - r) * pf.claims[0] + r * pf.claims[1], p);
      var next' := Mod((1 - r') * pf'.claims[0] + r' * pf'.claims[1], p);
      var rest := LayersExtend(oracle, log + m, next, [r] + t.rs, proofs[1..], p);
      var rest' := LayersExtend(oracle', log + m', next', [r'] + t'.rs, proofs'[1..], p);
      RoundsCounted(oracle, log, t, 3, p);
      RoundsCounted(oracle', log, t', 3, p);
      LayerBinds(log, t.fs, pf.claims[0], pf.claims[1], rest, t'.fs, pf'.claims[0], pf'.claims[1], rest');
      TreeBinds(oracle, oracle', log + m, next, next', [r] + t.rs, [r'] + t'.rs, proofs[1..], proofs'[1..], p);
      LayerSame(pf, pf', t, t');
      forall i | 0 <= i < |proofs| ensures SameLayer(proofs[i], proofs'[i]) {
        if i > 0 {
          assert SameLayer(proofs[1..][i - 1], proofs'[1..][i - 1]);
        }
      }
    }
  }

  lemma LayerSame(pf: LayerProof, pf': LayerProof, t: Rounds, t': Rounds)
    requires t.polys == pf.polys && t'.polys == pf'.polys && t.fs == t'.fs && Counted(t) && Counted(t')
    requires |pf.claims| >= 2 && |pf'.claims| >= 2 && pf.claims[0] == pf'.claims[0] && pf.claims[1] == pf'.claims[1]
    requires forall j :: 0 <= j < |t.fs| ==> |t.fs[j]| >= 2 && t.polys[j] == t.fs[j][..1] + t.fs[j][2..]
    requires forall j :: 0 <= j < |t'.fs| ==> |t'.fs[j]| >= 2 && t'.polys[j] == t'.fs[j][..1] + t'.fs[j][2..]
    ensures SameLayer(pf, pf')
  {
    SamePolys(t, t');
    assert pf.claims[..2] == [pf.claims[0], pf.claims[1]] && pf'.claims[..2] == [pf'.claims[0], pf'.claims[1]];
  }
}
