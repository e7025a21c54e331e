/** The transcript of the batched product proof: coefficients, sum-check, claims and the joining draw of each level. */
module ProductBatchTrace {
  import opened PowersOfTwo
  import opened PrimeField
  import opened Vectors
  import opened Transcript
  import opened Multilinear
  import opened UniPoly
  import opened SumcheckSpec
  import opened SumcheckTrace
  import opened ProductTree
  import opened ProductBatch
  import opened ProductTrace

  function Draws(tag: string, n: nat): (m: Log)
    ensures |m| == n
  {
    seq(n, i => Draw(tag))
  }

  /** Coefficient i is drawn after the i draws before it. */
  lemma {:induction false} DrawsAre(oracle: Oracle, log: Log, tag: string, n: nat, p: Modulus)
    ensures var (cs, log') := DrawVector(oracle, log, tag, n, p);
      log' == log + Draws(tag, n) && forall i :: 0 <= i < n ==> cs[i] == Mod(oracle(log + Draws(tag, i + 1)), p)
  {
    hide Mod;
    if n == 0 {
      assert log + Draws(tag, 0) == log;
    } else {
      DrawsAre(oracle, log, tag, n - 1, p);
      assert log + Draws(tag, n) == log + Draws(tag, n - 1) + [Draw(tag)];
    }
  }

  /** The claims about the circuits, left and right in turn. */
  function ClaimMessages(left: seq<int>, right: seq<int>): (m: Log)
    requires |left| == |right|
    ensures |m| == 2 * |left|
  {
    seq(2 * |left|, i requires 0 <= i < 2 * |left| =>
      if i % 2 == 0 then Scalar("claim_prod_left", left[i / 2]) else Scalar("claim_prod_right", right[i / 2]))
  }

  lemma {:induction false} ClaimMessagesAre(left: seq<int>, right: seq<int>, n: nat)
    requires n <= |left| == |right|
    ensures ProdMessages(left, right, n) == ClaimMessages(left[..n], right[..n])
  {
    if n == 0 {
    } else {
      ClaimMessagesAre(left, right, n - 1);
      assert ClaimMessages(left[..n], right[..n])
          == ClaimMessages(left[..n - 1], right[..n - 1]) + [Scalar("claim_prod_left", left[n - 1]),
                                                             Scalar("claim_prod_right", right[n - 1])];
    }
  }

  lemma ClaimMessagesInjective(left: seq<int>, right: seq<int>, left': seq<int>, right': seq<int>)
    requires |left| == |right| && |left'| == |right'| && ClaimMessages(left, right) == ClaimMessages(left', right')
    ensures left == left' && right == right'
  {
    var m := ClaimMessages(left, right);
    assert |left| == |left'|;
    forall i | 0 <= i < |left| ensures left[i] == left'[i] && right[i] == right'[i] {
      assert m[2 * i] == Scalar("claim_prod_left", left[i]) && m[2 * i] == Scalar("claim_prod_left", left'[i]);
      assert m[2 * i + 1] == Scalar("claim_prod_right", right[i]) &&
             m[2 * i + 1] == Scalar("claim_prod_right", right'[i]);
    }
  }

  lemma {:induction false} DotMessagesLength(d: DotClaims, n: nat)
    requires n <= |d.left| && n <= |d.right| && n <= |d.weight|
    ensures |DotMessages(d, n)| == 3 * n
  {
    if n == 0 {
    } else {
      DotMessagesLength(d, n - 1);
    }
  }

  /** The first n claims about the dot products. */
  predicate SameDots(d: DotClaims, d': DotClaims, n: nat) {
    n <= |d.left| && n <= |d.right| && n <= |d.weight| && n <= |d'.left| && n <= |d'.right| && n <= |d'.weight| &&
    d.left[..n] == d'.left[..n] && d.right[..n] == d'.right[..n] && d.weight[..n] == d'.weight[..n]
  }

  lemma {:induction false} DotMessagesInjective(d: DotClaims, d': DotClaims, n: nat)
    requires n <= |d.left| && n <= |d.right| && n <= |d.weight|
    requires n <= |d'.left| && n <= |d'.right| && n <= |d'.weight|
    requires DotMessages(d, n) == DotMessages(d', n)
    ensures SameDots(d, d', n)
  {
    if n == 0 {
    } else {
      var m := DotMessages(d, n);
      DotMessagesLength(d, n - 1);
      DotMessagesLength(d', n - 1);
      var k := n - 1;
      assert m[..3 * k] == DotMessages(d, k) && m[..3 * k] == DotMessages(d', k);
      DotMessagesInjective(d, d', k);
      assert m[3 * k] == Scalar("claim_dotp_left", d.left[k]) && m[3 * k] == Scalar("claim_dotp_left", d'.left[k]);
      assert m[3 * k + 1] == Scalar("claim_dotp_right", d.right[k]) &&
             m[3 * k + 1] == Scalar("claim_dotp_right", d'.right[k]);
      assert m[3 * k + 2] == Scalar("claim_dotp_weight", d.weight[k]) &&
             m[3 * k + 2] == Scalar("claim_dotp_weight", d'.weight[k]);
      assert d.left[..n] == d.left[..k] + [d.left[k]] && d'.left[..n] == d'.left[..k] + [d'.left[k]];
      assert d.right[..n] == d.right[..k] + [d.right[k]] && d'.right[..n] == d'.right[..k] + [d'.right[k]];
      assert d.weight[..n] == d.weight[..k] + [d.weight[k]] && d'.weight[..n] == d'.weight[..k] + [d'.weight[k]];
    }
  }

  // ---------- one level ----------

  /** A level's messages. */
  function LevelMessages(count: nat, fs: seq<Poly>, left: seq<int>, right: seq<int>, d: DotClaims): Log
    requires |left| == |right| && |d.left| <= |d.right| && |d.left| <= |d.weight|
  {
    Draws("rand_coeffs_next_layer", count) + RunMessages(fs) + ClaimMessages(left, right) + DotMessages(d, |d.left|)
    + [Draw("challenge_r_layer")]
  }

  /** The coefficients of a level, each drawn after those before it. */
  function LevelCoeffs(oracle: Oracle, log: Log, n: nat, p: Modulus): (c: seq<int>)
    ensures |c| == n
  {
    seq(n, i requires 0 <= i < n => Mod(oracle(log + Draws("rand_coeffs_next_layer", i + 1)), p))
  }

  /** The value the verifier expects: every circuit's and every dot product's, with their coefficients. */
  function Expected(oracle: Oracle, log: Log, rand: seq<int>, rs: seq<int>, layer: BatchLayer, d: DotClaims,
                    p: Modulus): int
    requires |rand| == |rs| && |layer.left| == |layer.right| && |d.left| <= |d.right| && |d.left| <= |d.weight|
  {
    Dot(FinalValues(layer.left, layer.right, EqEval(rand, rs, p), d),
        LevelCoeffs(oracle, log, |layer.left| + |d.left|, p))
  }

  /** The weighted claims the level's sum-check starts from. */
  function Joined(oracle: Oracle, log: Log, all: seq<int>, p: Modulus): int {
    Mod(Dot(all, LevelCoeffs(oracle, log, |all|, p)), p)
  }

  /** The lengths the verifier needs. */
  predicate LevelShaped(layer: BatchLayer, d: DotClaims, claims: nat, dots: nat, rounds: nat) {
    |layer.polys| == rounds && Shaped(layer.polys, 3) && |layer.left| == |layer.right| == claims &&
    |d.left| <= |d.right| && |d.left| <= |d.weight| && |d.left| <= dots
  }

  /** One level of the verifier on any proof: what stops it, and what it goes on with. */
  lemma AnyLevel(oracle: Oracle, log: Log, claims: seq<int>, dotClaims: seq<int>, rand: seq<int>, layer: BatchLayer,
                 d: DotClaims, p: Modulus) returns (t: Rounds)
    requires Prime(p)
    ensures var all := claims + dotClaims;
      var verdict := VerifyLevel(oracle, log, claims, dotClaims, rand, layer, d, p);
      if LevelShaped(layer, d, |claims|, |dotClaims|, |rand|) then
        t == TraceOf(oracle, log + Draws("rand_coeffs_next_layer", |all|), Joined(oracle, log, all, p), layer.polys,
                     p) &&
        t.polys == layer.polys && RoundsHold(oracle, log + Draws("rand_coeffs_next_layer", |all|), t, 3, p) &&
        t.es[0] == Joined(oracle, log, all, p) && EvenlySized(t.fs, 3) && |t.rs| == |rand| &&
        var log' := log + LevelMessages(|all|, t.fs, layer.left, layer.right, d);
        var r := Mod(oracle(log'), p);
        verdict ==
          if Cong(Expected(oracle, log, rand, t.rs, layer, d, p), t.es[|rand|], p) && Canonical(t.es[|rand|], p)
          then Some(Level(layer, d, MixAll(layer.left, layer.right, r, p), [r] + t.rs, log'))
          else None
      else verdict == None
  {
    hide Mod, Dot, RunMessages, Shaped, RoundsHold, VerifySumcheck, EqEval, EvenlySized, DrawVector, ProdMessages,
         DotMessages, MixAll, FinalValues, Draws, LevelMessages, TraceOf;
    var all := claims + dotClaims;
    var (coeffs, log0) := DrawVector(oracle, log, "rand_coeffs_next_layer", |all|, p);
    DrawsAre(oracle, log, "rand_coeffs_next_layer", |all|, p);
    var claim := Mod(Dot(all, coeffs), p);
    JoinedIs(oracle, log, all, coeffs, p);
    t := SumcheckExact(oracle, log0, claim, layer.polys, |rand|, 3, p);
    if LevelShaped(layer, d, |claims|, |dotClaims|, |rand|) {
      RoundsCounted(oracle, log0, t, 3, p);
      ExpectedIs(oracle, log, rand, t.rs, layer, d, coeffs, p);
      SameRemainder(Expected(oracle, log, rand, t.rs, layer, d, p), t.es[|rand|], p);
      LevelLog(log, |all|, t.fs, layer.left, layer.right, d);
    }
  }

  lemma JoinedIs(oracle: Oracle, log: Log, all: seq<int>, coeffs: seq<int>, p: Modulus)
    requires |coeffs| == |all|
    requires forall i :: 0 <= i < |all| ==>
      coeffs[i] == Mod(oracle(log + Draws("rand_coeffs_next_layer", i + 1)), p)
    ensures Joined(oracle, log, all, p) == Mod(Dot(all, coeffs), p)
  {
    hide Mod, Dot, Draws;
    assert coeffs == LevelCoeffs(oracle, log, |all|, p);
  }

  lemma ExpectedIs(oracle: Oracle, log: Log, rand: seq<int>, rs: seq<int>, layer: BatchLayer, d: DotClaims,
                   coeffs: seq<int>, p: Modulus)
    requires |rand| == |rs| && |layer.left| == |layer.right| && |d.left| <= |d.right| && |d.left| <= |d.weight|
    requires |layer.left| + |d.left| <= |coeffs|
    requires forall i :: 0 <= i < |coeffs| ==>
      coeffs[i] == Mod(oracle(log + Draws("rand_coeffs_next_layer", i + 1)), p)
    ensures var values := FinalValues(layer.left, layer.right, EqEval(rand, rs, p), d);
      Expected(oracle, log, rand, rs, layer, d, p) == Dot(values, coeffs[..|values|])
  {
    hide Mod, Dot, Draws, FinalValues, EqEval;
    var n := |layer.left| + |d.left|;
    assert coeffs[..n] == LevelCoeffs(oracle, log, n, p);
  }

  lemma LevelLog(log: Log, count: nat, fs: seq<Poly>, left: seq<int>, right: seq<int>, d: DotClaims)
    requires |left| == |right| && |d.left| <= |d.right| && |d.left| <= |d.weight|
    ensures log + Draws("rand_coeffs_next_layer", count) + RunMessages(fs) + ProdMessages(left, right, |left|)
            + DotMessages(d, |d.left|) + [Draw("challenge_r_layer")]
         == log + LevelMessages(count, fs, left, right, d)
  {
    hide RunMessages, Draws, ClaimMessages, ProdMessages, DotMessages;
    ClaimMessagesAre(left, right, |left|);
    assert left[..|left|] == left && right[..|left|] == right;
  }

  lemma LevelLength(count: nat, fs: seq<Poly>, left: seq<int>, right: seq<int>, d: DotClaims)
    requires |left| == |right| && |d.left| <= |d.right| && |d.left| <= |d.weight| && EvenlySized(fs, 3)
    ensures |LevelMessages(count, fs, left, right, d)| == count + 7 * |fs| + 2 * |left| + 3 * |d.left| + 1
  {
    hide RunMessages, Draws, ClaimMessages, DotMessages;
    RunLength(fs, 3);
    DotMessagesLength(d, |d.left|);
  }

  /** A level's messages fix its proof. */
  lemma LevelBinds(log: Log, count: nat, fs: seq<Poly>, left: seq<int>, right: seq<int>, d: DotClaims,
                   fs': seq<Poly>, left': seq<int>, right': seq<int>, d': DotClaims)
    requires |left| == |right| && |d.left| <= |d.right| && |d.left| <= |d.weight| && EvenlySized(fs, 3)
    requires |left'| == |right'| && |d'.left| <= |d'.right| && |d'.left| <= |d'.weight| && EvenlySized(fs', 3)
    requires |left| == |left'| && |fs| == |fs'|
    requires log + LevelMessages(count, fs, left, right, d) == log + LevelMessages(count, fs', left', right', d')
    ensures fs == fs' && left == left' && right == right' && |d.left| == |d'.left| && SameDots(d, d', |d.left|)
  {
    hide RunMessages, Draws, ClaimMessages, DotMessages;
    LevelLength(count, fs, left, right, d);
    LevelLength(count, fs', left', right', d');
    var c, c', e, e' := ClaimMessages(left, right), ClaimMessages(left', right'), DotMessages(d, |d.left|),
                        DotMessages(d', |d'.left|);
    var draws, last := Draws("rand_coeffs_next_layer", count), [Draw("challenge_r_layer")];
    DotMessagesLength(d, |d.left|);
    DotMessagesLength(d', |d'.left|);
    assert log + LevelMessages(count, fs, left, right, d) == (log + draws) + (RunMessages(fs) + (c + (e + last)));
    assert log + LevelMessages(count, fs', left', right', d')
        == (log + draws) + (RunMessages(fs') + (c' + (e' + last)));
    SplitEqual(log + draws, RunMessages(fs) + (c + (e + last)), log + draws, RunMessages(fs') + (c' + (e' + last)));
    RunInjective(fs, fs', c + (e + last), c' + (e' + last), 3);
    SplitEqual(c, e + last, c', e' + last);
    assert |d.left| == |d'.left|;
    SplitEqual(e, last, e', last);
    ClaimMessagesInjective(left, right, left', right');
    DotMessagesInjective(d, d', |d.left|);
  }

  // ---------- all levels ----------

  lemma {:induction false} LevelsExtend(oracle: Oracle, log: Log, claims: seq<int>, dotClaims: seq<int>,
                                        rand: seq<int>, proofs: seq<BatchLayer>, d: DotClaims, p: Modulus)
    returns (rest: Log)
    requires Prime(p) && VerifyLevels(oracle, log, claims, dotClaims, rand, proofs, d, p).Some?
    ensures VerifyLevels(oracle, log, claims, dotClaims, rand, proofs, d, p).value.log == log + rest
    decreases |proofs|
  {
    hide Mod, TraceOf, RoundsHold, LevelMessages, Shaped, EvenlySized, Joined, Expected, MixAll, PairMix, VerifyLevel;
    if |proofs| == 0 {
      rest := [];
      assert log + rest == log;
    } else {
      var last := |proofs| == 1;
      var here, dots := if last then d else NO_DOTS, if last then dotClaims else [];
      var lv := VerifyLevel(oracle, log, claims, dots, rand, proofs[0], here, p).value;
      var t := AnyLevel(oracle, log, claims, dots, rand, proofs[0], here, p);
      var n := |claims + dots|;
      var m := LevelMessages(n, t.fs, proofs[0].left, proofs[0].right, here);
      if last {
        rest := m;
      } else {
        var more := LevelsExtend(oracle, lv.log, lv.claims, dotClaims, lv.rand, proofs[1..], d, p);
        rest := m + more;
        assert log + m + more == log + (m + more);
      }
    }
  }

  /** What a verifier of the batch looks at in a level's proof. */
  lemma LevelSame(layer: BatchLayer, layer': BatchLayer, t: Rounds, t': Rounds)
    requires t.polys == layer.polys && t'.polys == layer'.polys && t.fs == t'.fs && Counted(t) && Counted(t')
    requires layer.left == layer'.left && layer.right == layer'.right
    requires forall j :: 0 <= j < |t.fs| ==> |t.fs[j]| >= 2 && t.polys[j] == t.fs[j][..1] + t.fs[j][2..]
    requires forall j :: 0 <= j < |t'.fs| ==> |t'.fs[j]| >= 2 && t'.polys[j] == t'.fs[j][..1] + t'.fs[j][2..]
    ensures layer == layer'
  {
    SamePolys(t, t');
  }

  /** Two accepted levels over equally many claims that leave the same transcript had the same proof. */
  lemma OneLevelBinds(oracle: Oracle, oracle': Oracle, log: Log, claims: seq<int>, claims': seq<int>,
                      dotClaims: seq<int>, dotClaims': seq<int>, rand: seq<int>, rand': seq<int>, layer: BatchLayer,
                      layer': BatchLayer, d: DotClaims, d': DotClaims, rest: Log, rest': Log, p: Modulus)
    requires Prime(p) && |claims| == |claims'| && |dotClaims| == |dotClaims'| && |rand| == |rand'|
    requires VerifyLevel(oracle, log, claims, dotClaims, rand, layer, d, p).Some? &&
             VerifyLevel(oracle', log, claims', dotClaims', rand', layer', d', p).Some?
    requires VerifyLevel(oracle, log, claims, dotClaims, rand, layer, d, p).value.log + rest
          == VerifyLevel(oracle', log, claims', dotClaims', rand', layer', d', p).value.log + rest'
    requires |d.left| == |d'.left| || (rest == [] && rest' == [])
    ensures layer == layer' && |d.left| == |d'.left| && SameDots(d, d', |d.left|)
    ensures VerifyLevel(oracle, log, claims, dotClaims, rand, layer, d, p).value.log
         == VerifyLevel(oracle', log, claims', dotClaims', rand', layer', d', p).value.log
    ensures rest == rest'
  {
    hide Mod, TraceOf, RoundsHold, LevelMessages, EvenlySized, Joined, Expected, MixAll, VerifyLevel, Shaped, SameDots;
    var t := AnyLevel(oracle, log, claims, dotClaims, rand, layer, d, p);
    var t' := AnyLevel(oracle', log, claims', dotClaims', rand', layer', d', p);
    var n := |claims + dotClaims|;
    assert n == |claims' + dotClaims'|;
    RoundsCounted(oracle, log + Draws("rand_coeffs_next_layer", n), t, 3, p);
    RoundsCounted(oracle', log + Draws("rand_coeffs_next_layer", n), t', 3, p);
    var m, m' := LevelMessages(n, t.fs, layer.left, layer.right, d),
                 LevelMessages(n, t'.fs, layer'.left, layer'.right, d');
    LevelLength(n, t.fs, layer.left, layer.right, d);
    LevelLength(n, t'.fs, layer'.left, layer'.right, d');
    assert rest == [] ==> log + m + rest == log + m;
    assert rest' == [] ==> log + m' + rest' == log + m';
    assert |m| == |m'|;
    SplitEqual(log + m, rest, log + m', rest');
    LevelBinds(log, n, t.fs, layer.left, layer.right, d, t'.fs, layer'.left, layer'.right, d');
    LevelSame(layer, layer', t, t');
  }

  /**
   The transcript binds the batched verifier: accepted runs over equally many claims and levels that start and
   end with the same transcript were given the same layer proofs and the same claims about the dot products.
   */
  lemma {:induction false} BatchBinds(oracle: Oracle, oracle': Oracle, log: Log, claims: seq<int>, claims': seq<int>,
                                      dotClaims: seq<int>, dotClaims': seq<int>, rand: seq<int>, rand': seq<int>,
                                      proofs: seq<BatchLayer>, proofs': seq<BatchLayer>, d: DotClaims, d': DotClaims,
                                      p: Modulus)
    requires Prime(p) && |claims| == |claims'| && |dotClaims| == |dotClaims'| && |rand| == |rand'|
    requires |proofs| == |proofs'| > 0
    requires VerifyLevels(oracle, log, claims, dotClaims, rand, proofs, d, p).Some? &&
             VerifyLevels(oracle', log, claims', dotClaims', rand', proofs', d', p).Some?
    requires VerifyLevels(oracle, log, claims, dotClaims, rand, proofs, d, p).value.log
          == VerifyLevels(oracle', log, claims', dotClaims', rand', proofs', d', p).value.log
    ensures proofs == proofs' && |d.left| == |d'.left| && SameDots(d, d', |d.left|)
    decreases |proofs|
  {
    hide Mod, VerifyLevel, PairMix, SameDots;
    var lv := StepBinds(oracle, log, claims, dotClaims, rand, proofs, d, p);
    var lv' := StepBinds(oracle', log, claims', dotClaims', rand', proofs', d', p);
    if |proofs| == 1 {
      assert lv.log + [] == lv.log && lv'.log + [] == lv'.log;
      OneLevelBinds(oracle, oracle', log, claims, claims', dotClaims, dotClaims', rand, rand', proofs[0], proofs'[0],
                    d, d', [], [], p);
      assert proofs == [proofs[0]] && proofs' == [proofs'[0]];
    } else {
      var rest := LevelsExtend(oracle, lv.log, lv.claims, dotClaims, lv.rand, proofs[1..], d, p);
      var rest' := LevelsExtend(oracle', lv'.log, lv'.claims, dotClaims', lv'.rand, proofs'[1..], d', p);
      OneLevelBinds(oracle, oracle', log, claims, claims', [], [], rand, rand', proofs[0], proofs'[0], NO_DOTS,
                    NO_DOTS, rest, rest', p);
      BatchBinds(oracle, oracle', lv.log, lv.claims, lv'.claims, dotClaims, dotClaims', lv.rand, lv'.rand, proofs[1..],
                 proofs'[1..], d, d', p);
      assert proofs == [proofs[0]] + proofs[1..] && proofs' == [proofs'[0]] + proofs'[1..];
    }
  }

  /** The first level of an accepted run. */
  lemma StepBinds(oracle: Oracle, log: Log, claims: seq<int>, dotClaims: seq<int>, rand: seq<int>,
                  proofs: seq<BatchLayer>, d: DotClaims, p: Modulus) returns (lv: Level)
    requires Prime(p) && |proofs| > 0 && VerifyLevels(oracle, log, claims, dotClaims, rand, proofs, d, p).Some?
    ensures var last := |proofs| == 1;
      VerifyLevel(oracle, log, claims, if last then dotClaims else [], rand, proofs[0], if last then d else NO_DOTS,
                  p) == Some(lv) &&
      |lv.claims| == |claims| && |lv.rand| == |rand| + 1
    ensures |proofs| == 1 ==> VerifyLevels(oracle, log, claims, dotClaims, rand, proofs, d, p).value.log == lv.log
    ensures |proofs| > 1 ==>
      VerifyLevels(oracle, log, claims, dotClaims, rand, proofs, d, p)
        == VerifyLevels(oracle, lv.log, lv.claims, dotClaims, lv.rand, proofs[1..], d, p)
  {
    hide Mod, TraceOf, RoundsHold, LevelMessages, EvenlySized, Joined, Expected, VerifyLevel, PairMix, Shaped;
    var last := |proofs| == 1;
    var here, dots := if last then d else NO_DOTS, if last then dotClaims else [];
    lv := VerifyLevel(oracle, log, claims, dots, rand, proofs[0], here, p).value;
    var t := AnyLevel(oracle, log, claims, dots, rand, proofs[0], here, p);
  }

  /** The shape of an accepted batch, level by level; the dot products take part in the last one alone. */
  predicate BatchShaped(proofs: seq<BatchLayer>, d: DotClaims, claims: nat, dots: nat, rounds: nat) {
    forall i :: 0 <= i < |proofs| ==>
      if i == |proofs| - 1 then LevelShaped(proofs[i], d, claims, dots, rounds + i)
      else LevelShaped(proofs[i], NO_DOTS, claims, 0, rounds + i)
  }

  lemma {:induction false} LevelsShaped(oracle: Oracle, log: Log, claims: seq<int>, dotClaims: seq<int>,
                                        rand: seq<int>, proofs: seq<BatchLayer>, d: DotClaims, b: BatchClaims,
                                        p: Modulus)
    requires Prime(p) && |proofs| > 0 && VerifyLevels(oracle, log, claims, dotClaims, rand, proofs, d, p) == Some(b)
    ensures BatchShaped(proofs, d, |claims|, |dotClaims|, |rand|)
    ensures |b.claims| == |claims| && |b.rand| == |rand| + |proofs| && b.rand[0] == Mod(oracle(b.log), p)
    decreases |proofs|
  {
    hide Mod, TraceOf, RoundsHold, LevelMessages, EvenlySized, Joined, Expected, VerifyLevel, PairMix, MixAll, Shaped;
    var last := |proofs| == 1;
    var here, dots := if last then d else NO_DOTS, if last then dotClaims else [];
    var lv := StepBinds(oracle, log, claims, dotClaims, rand, proofs, d, p);
    var t := AnyLevel(oracle, log, claims, dots, rand, proofs[0], here, p);
    if !last {
      LevelsShaped(oracle, lv.log, lv.claims, dotClaims, lv.rand, proofs[1..], d, b, p);
      forall i | 0 < i < |proofs|
        ensures if i == |proofs| - 1 then LevelShaped(proofs[i], d, |claims|, |dotClaims|, |rand| + i)
                else LevelShaped(proofs[i], NO_DOTS, |claims|, 0, |rand| + i)
      {
        assert proofs[i] == proofs[1..][i - 1];
      }
    }
  }

  /** The batched verifier takes one proof for each level, level i with i rounds and two claims for each circuit. */
  lemma BatchShape(oracle: Oracle, log: Log, claims: seq<int>, dotClaims: seq<int>, k: nat, proofs: seq<BatchLayer>,
                   d: DotClaims, b: BatchClaims, p: Modulus)
    requires Prime(p) && k > 0 && VerifyBatch(oracle, log, claims, dotClaims, k, proofs, d, p) == Some(b)
    ensures |proofs| == k && BatchShaped(proofs, d, |claims|, |dotClaims|, 0)
    ensures |b.claims| == |claims| && |b.rand| == k && b.rand[0] == Mod(oracle(b.log), p)
  {
    hide Mod, VerifyLevels, BatchShaped;
    LevelsShaped(oracle, log, claims, dotClaims, [], proofs, d, b, p);
  }
}
