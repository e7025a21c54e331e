/** The sum-check prover and verifier as they run: tables bound in place, one transcript. */
module Sumcheck {
  import opened PowersOfTwo
  import opened PrimeField
  import opened Vectors
  import opened Roots
  import opened Transcript
  import opened Multilinear
  import opened PolyPool
  import opened UniPoly
  import opened SumcheckSpec

  /** The values of one instance's round polynomial at 0, 2 and 3, the last computed from the one before. */
  method RoundEvals(t: Tables, n: nat, p: Modulus) returns (e0: int, e2: int, e3: int)
    requires Sized(t, 2 * n)
    ensures e0 == Mod(RoundSum(t, n, n, 0), p) && e2 == Mod(RoundSum(t, n, n, 2), p) &&
            e3 == Mod(RoundSum(t, n, n, 3), p)
  {
    hide Mod, RoundTerm;
    e0, e2, e3 := 0, 0, 0;
    assert Mod(0, p) == 0 by { CanonicalIs(0, p); }
    for i := 0 to n
      invariant e0 == Mod(RoundSum(t, n, i, 0), p) && e2 == Mod(RoundSum(t, n, i, 2), p) &&
                e3 == Mod(RoundSum(t, n, i, 3), p)
    {
      var a0, b0, c0 := t.A[i], t.B[i], t.C[i];
      var a2, b2, c2 := Mod(t.A[n + i] + t.A[n + i] - a0, p), Mod(t.B[n + i] + t.B[n + i] - b0, p),
                        Mod(t.C[n + i] + t.C[n + i] - c0, p);
      var a3, b3, c3 := Mod(a2 + t.A[n + i] - a0, p), Mod(b2 + t.B[n + i] - b0, p), Mod(c2 + t.C[n + i] - c0, p);
      LinePoints(a0, t.A[n + i], a2, a3, p);
      LinePoints(b0, t.B[n + i], b2, b3, p);
      LinePoints(c0, t.C[n + i], c2, c3, p);
      TermStep(t, n, i, 0, e0, a0, b0, c0, p);
      TermStep(t, n, i, 2, e2, a2, b2, c2, p);
      TermStep(t, n, i, 3, e3, a3, b3, c3, p);
      e0 := Mod(e0 + a0 * b0 * c0, p);
      e2 := Mod(e2 + a2 * b2 * c2, p);
      e3 := Mod(e3 + a3 * b3 * c3, p);
    }
  }

  lemma LinePoints(x: int, y: int, v2: int, v3: int, p: Modulus)
    requires v2 == Mod(y + y - x, p) && v3 == Mod(v2 + y - x, p)
    ensures Cong(x, Line(x, y, 0), p) && Cong(v2, Line(x, y, 2), p) && Cong(v3, Line(x, y, 3), p)
  {
    hide Mod;
    ModCong(y + y - x, p);
    ModCong(v2 + y - x, p);
    CongAdd(v2, y + y - x, y - x, y - x, p);
    CongTo(v3, (y + y - x) + (y - x), Line(x, y, 3), p);
    CongTo(v2, y + y - x, Line(x, y, 2), p);
    CongTo(x, x, Line(x, y, 0), p);
  }

  lemma TermStep(t: Tables, n: nat, i: nat, x: int, e: int, a: int, b: int, c: int, p: Modulus)
    requires Sized(t, 2 * n) && i < n && e == Mod(RoundSum(t, n, i, x), p)
    requires Cong(a, Line(t.A[i], t.A[n + i], x), p) && Cong(b, Line(t.B[i], t.B[n + i], x), p) &&
             Cong(c, Line(t.C[i], t.C[n + i], x), p)
    ensures Mod(e + a * b * c, p) == Mod(RoundSum(t, n, i + 1, x), p)
  {
    hide Mod, Line;
    var la, lb, lc := Line(t.A[i], t.A[n + i], x), Line(t.B[i], t.B[n + i], x), Line(t.C[i], t.C[n + i], x);
    CongMul(a, la, b, lb, p);
    CongMul(a * b, la * lb, c, lc, p);
    ModCong(RoundSum(t, n, i, x), p);
    CongSum(e + a * b * c, RoundSum(t, n, i + 1, x), e, RoundSum(t, n, i, x), a * b * c, la * lb * lc, p);
  }

  /** The weighted values of all instances. */
  method BatchEvals(ts: seq<Tables>, coeffs: seq<int>, n: nat, p: Modulus) returns (e0: int, e2: int, e3: int)
    requires AllSized(ts, 2 * n) && |coeffs| == |ts|
    ensures e0 == Mod(BatchRound(ts, coeffs, n, 0), p) && e2 == Mod(BatchRound(ts, coeffs, n, 2), p) &&
            e3 == Mod(BatchRound(ts, coeffs, n, 3), p)
  {
    hide Mod, RoundSum;
    e0, e2, e3 := 0, 0, 0;
    assert Mod(0, p) == 0 by { CanonicalIs(0, p); }
    for k := 0 to |ts|
      invariant e0 == Mod(BatchRound(ts[..k], coeffs[..k], n, 0), p)
      invariant e2 == Mod(BatchRound(ts[..k], coeffs[..k], n, 2), p)
      invariant e3 == Mod(BatchRound(ts[..k], coeffs[..k], n, 3), p)
    {
      var v0, v2, v3 := RoundEvals(ts[k], n, p);
      BatchStep(ts, coeffs, n, k, 0, e0, v0, p);
      BatchStep(ts, coeffs, n, k, 2, e2, v2, p);
      BatchStep(ts, coeffs, n, k, 3, e3, v3, p);
      e0 := Mod(e0 + v0 * coeffs[k], p);
      e2 := Mod(e2 + v2 * coeffs[k], p);
      e3 := Mod(e3 + v3 * coeffs[k], p);
    }
    assert ts[..|ts|] == ts && coeffs[..|ts|] == coeffs;
  }

  lemma BatchStep(ts: seq<Tables>, coeffs: seq<int>, n: nat, k: nat, x: int, e: int, v: int, p: Modulus)
    requires AllSized(ts, 2 * n) && |coeffs| == |ts| && k < |ts|
    requires e == Mod(BatchRound(ts[..k], coeffs[..k], n, x), p) && v == Mod(RoundSum(ts[k], n, n, x), p)
    ensures Mod(e + v * coeffs[k], p) == Mod(BatchRound(ts[..k + 1], coeffs[..k + 1], n, x), p)
  {
    hide Mod, RoundSum;
    assert ts[..k + 1][..k] == ts[..k] && coeffs[..k + 1][..k] == coeffs[..k];
    var s, b := RoundSum(ts[k], n, n, x), BatchRound(ts[..k], coeffs[..k], n, x);
    ModCong(s, p);
    ModCong(b, p);
    CongMul(v, s, coeffs[k], coeffs[k], p);
    assert s * coeffs[k] == coeffs[k] * s;
    CongSum(e + v * coeffs[k], BatchRound(ts[..k + 1], coeffs[..k + 1], n, x), e, b, v * coeffs[k], coeffs[k] * s, p);
  }

  /** Sends the polynomial and draws the challenge. */
  method SendPoly(tape: Tape, f: Poly, p: Modulus) returns (r: int)
    modifies tape
    ensures r == Challenge(tape.oracle, PolyLog(old(tape.log), f), "challenge_nextround", p)
    ensures tape.log == PolyLog(old(tape.log), f) + [Draw("challenge_nextround")]
  {
    hide Mod;
    ghost var log := tape.log;
    tape.Append(Data("UniPoly_begin", []));
    for i := 0 to |f|
      invariant tape.log == log + [Data("UniPoly_begin", [])] + CoeffMessages(f)[..i]
    {
      tape.Append(Scalar("coeff", f[i]));
    }
    tape.Append(Data("UniPoly_end", []));
    assert CoeffMessages(f)[..|f|] == CoeffMessages(f);
    r := tape.ChallengeScalar("challenge_nextround", p);
  }

  /** A run continued from its first rounds. */
  ghost function Continue(polys: seq<seq<int>>, rs: seq<int>, run: Run): Run {
    Run(polys + run.polys, rs + run.rs, run.ts, run.e, run.log)
  }

  lemma ContinueStep(oracle: Oracle, log: Log, e: int, k: nat, ts: seq<Tables>, coeffs: seq<int>,
                     polys: seq<seq<int>>, rs: seq<int>,
                     f: Poly, r: int, p: Modulus)
    requires Prime(p) && p > 3 && k > 0 && AllSized(ts, Pow2(k)) && |coeffs| == |ts|
    requires f == RoundPoly(e, ts, coeffs, Pow2(k - 1), p) &&
             r == Challenge(oracle, PolyLog(log, f), "challenge_nextround", p)
    ensures Continue(polys, rs, ProveRounds(oracle, log, e, k, ts, coeffs, p))
         == Continue(polys + [Compress(f)], rs + [r],
                     ProveRounds(oracle, PolyLog(log, f) + [Draw("challenge_nextround")], Mod(Eval(f, r), p), k - 1,
                                 BindAll(ts, Pow2(k - 1), r, p), coeffs, p))
  {
    hide Mod, Eval, RoundPoly, PolyLog, Compress;
    var rest := ProveRounds(oracle, PolyLog(log, f) + [Draw("challenge_nextround")], Mod(Eval(f, r), p), k - 1,
                            BindAll(ts, Pow2(k - 1), r, p), coeffs, p);
    assert polys + ([Compress(f)] + rest.polys) == (polys + [Compress(f)]) + rest.polys;
    assert rs + ([r] + rest.rs) == (rs + [r]) + rest.rs;
  }

  // ---------- the batched prover ----------

  /**
   m instances that share their third table and n instances with tables of their own, from the list
   of all tables: the shared one, the first tables of the m, their second tables, then those of the n.
   */
  function Arrange(vs: seq<seq<int>>, m: nat, n: nat): (ts: seq<Tables>)
    requires |vs| == 2 * m + 1 + 3 * n
    ensures |ts| == m + n
  {
    seq(m, i requires 0 <= i < m => Tables(vs[1 + i], vs[1 + m + i], vs[0])) +
    seq(n, i requires 0 <= i < n => Tables(vs[1 + 2 * m + i], vs[1 + 2 * m + n + i], vs[1 + 2 * m + 2 * n + i]))
  }

  lemma ArrangeAt(vs: seq<seq<int>>, m: nat, n: nat, i: nat)
    requires |vs| == 2 * m + 1 + 3 * n && i < m + n
    ensures Arrange(vs, m, n)[i] == if i < m then Tables(vs[1 + i], vs[1 + m + i], vs[0])
                                    else Tables(vs[1 + m + i], vs[1 + m + n + i], vs[1 + m + 2 * n + i])
  {
  }

  lemma ArrangeSized(vs: seq<seq<int>>, m: nat, n: nat, k: nat)
    requires |vs| == 2 * m + 1 + 3 * n && forall i :: 0 <= i < |vs| ==> |vs[i]| == k
    ensures AllSized(Arrange(vs, m, n), k)
  {
  }

  /** Binding the shared table once binds it for every instance. */
  lemma ArrangeBinds(vs: seq<seq<int>>, m: nat, n: nat, k: nat, r: int, p: Modulus)
    requires |vs| == 2 * m + 1 + 3 * n && forall i :: 0 <= i < |vs| ==> |vs[i]| == 2 * k
    ensures AllSized(Arrange(vs, m, n), 2 * k)
    ensures Arrange(BindEach(vs, k, r, p), m, n) == BindAll(Arrange(vs, m, n), k, r, p)
  {
    hide Bind;
    ArrangeSized(vs, m, n, 2 * k);
    var ts, us := Arrange(vs, m, n), Arrange(BindEach(vs, k, r, p), m, n);
    forall i | 0 <= i < m + n ensures us[i] == BindTables(ts[i], k, r, p) {
    }
  }

  /** The polynomials of a batch except the shared one. */
  function Pool(parA: seq<DensePolynomial>, parB: seq<DensePolynomial>, seqA: seq<DensePolynomial>,
                seqB: seq<DensePolynomial>,
                seqC: seq<DensePolynomial>): (ds: seq<DensePolynomial>)
    ensures |ds| == |parA| + |parB| + |seqA| + |seqB| + |seqC|
  {
    parA + parB + seqA + seqB + seqC
  }

  /** One batched round: the polynomial is sent, and every table is bound to the challenge. */
  method BatchedRound(tape: Tape, e: int, ds: seq<DensePolynomial>, m: nat, n: nat, ghost k: nat, coeffs: seq<int>,
                      p: Modulus)
    returns (f: Poly, r: int)
    requires Prime(p) && p > 3 && Apart(ds) && k > 0 && Ready(ds, k) && |ds| == 2 * m + 1 + 3 * n && |coeffs| == m + n
    modifies tape, ds, Buffers(ds)
    ensures Ready(ds, k - 1) && AllSized(Arrange(Contents(ds, k - 1), m, n), Pow2(k - 1))
    ensures AllSized(old(Arrange(Contents(ds, k), m, n)), 2 * Pow2(k - 1))
    ensures f == RoundPoly(e, old(Arrange(Contents(ds, k), m, n)), coeffs, Pow2(k - 1), p)
    ensures r == Challenge(tape.oracle, PolyLog(old(tape.log), f), "challenge_nextround", p)
    ensures tape.log == PolyLog(old(tape.log), f) + [Draw("challenge_nextround")]
    ensures Arrange(Contents(ds, k - 1), m, n) == BindAll(old(Arrange(Contents(ds, k), m, n)), Pow2(k - 1), r, p)
  {
    hide Mod, BatchRound, FromEvals, PolyLog, Arrange, BindAll, Pow2, Contents;
    assert Pow2(k) == 2 * Pow2(k - 1) by { Pow2Next(k - 1); }
    var vs := Contents(ds, k);
    var ts := Arrange(vs, m, n);
    ArrangeSized(vs, m, n, Pow2(k));
    FirstLength(ds, k);
    var e0, e2, e3 := BatchEvals(ts, coeffs, ds[0].len / 2, p);
    f := FromEvals(e0, Mod(e - e0, p), e2, e3, p);
    r := SendPoly(tape, f, p);
    ArrangeBinds(vs, m, n, Pow2(k - 1), r, p);
    BindTops(ds, k, r, p);
  }

  lemma FirstLength(ds: seq<DensePolynomial>, k: nat)
    requires Ready(ds, k) && |ds| > 0
    ensures ds[0].len == Pow2(k)
  {
  }

  /** The batched prover: every polynomial is bound in place, the shared one once a round. */
  method ProveCubicBatched(tape: Tape, claim: int, rounds: nat, parA: seq<DensePolynomial>, parB: seq<DensePolynomial>,
                           parC: DensePolynomial, seqA: seq<DensePolynomial>, seqB: seq<DensePolynomial>,
                           seqC: seq<DensePolynomial>, coeffs: seq<int>, p: Modulus)
    returns (polys: seq<seq<int>>, rs: seq<int>, ts: seq<Tables>)
    requires Prime(p) && p > 3 && |parA| == |parB| && |seqA| == |seqB| == |seqC| && |coeffs| == |parA| + |seqA|
    requires var ds := [parC] + Pool(parA, parB, seqA, seqB, seqC); Apart(ds) && Ready(ds, rounds)
    modifies tape, parC, parC.z, Pool(parA, parB, seqA, seqB, seqC), Buffers(Pool(parA, parB, seqA, seqB, seqC))
    ensures var ds := [parC] + Pool(parA, parB, seqA, seqB, seqC);
      var ts0 := old(Arrange(Contents(ds, rounds), |parA|, |seqA|));
      AllSized(ts0, Pow2(rounds)) && Ready(ds, 0) && ts == Arrange(Contents(ds, 0), |parA|, |seqA|) &&
      var run := ProveRounds(tape.oracle, old(tape.log), claim, rounds, ts0, coeffs, p);
      polys == run.polys && rs == run.rs && ts == run.ts && tape.log == run.log
  {
    hide Mod, Eval, RoundPoly, PolyLog, Compress, ProveRounds, Arrange, Contents, Apart, Ready, BindAll, Pow2, Pool;
    var ds, m, n := [parC] + Pool(parA, parB, seqA, seqB, seqC), |parA|, |seqA|;
    BuffersCons(parC, Pool(parA, parB, seqA, seqB, seqC));
    polys, rs := [], [];
    var e := claim;
    ArrangeSized(Contents(ds, rounds), m, n, Pow2(rounds));
    ghost var run := ProveRounds(tape.oracle, tape.log, claim, rounds, Arrange(Contents(ds, rounds), m, n), coeffs, p);
    for j := 0 to rounds
      invariant Ready(ds, rounds - j) && AllSized(Arrange(Contents(ds, rounds - j), m, n), Pow2(rounds - j))
      invariant run == Continue(polys, rs, ProveRounds(tape.oracle, tape.log, e, rounds - j,
                                                       Arrange(Contents(ds, rounds - j), m, n), coeffs, p))
    {
      ghost var t, log := Arrange(Contents(ds, rounds - j), m, n), tape.log;
      var f, r := BatchedRound(tape, e, ds, m, n, rounds - j, coeffs, p);
      assert rounds - j - 1 == rounds - (j + 1);
      ContinueStep(tape.oracle, log, e, rounds - j, t, coeffs, polys, rs, f, r, p);
      rs := rs + [r];
      e := Evaluate(f, r, p);
      polys := polys + [Compress(f)];
    }
    ts := Arrange(Contents(ds, 0), m, n);
    assert Pow2(0) == 1 by { SmallPow2(); }
    NoRoundsLeft(tape.oracle, tape.log, e, ts, coeffs, p);
  }

  lemma SmallPow2()
    ensures Pow2(0) == 1
  {
  }

  lemma NoRoundsLeft(oracle: Oracle, log: Log, e: int, ts: seq<Tables>, coeffs: seq<int>, p: Modulus)
    requires Prime(p) && p > 3 && AllSized(ts, 1) && |coeffs| == |ts|
    ensures ProveRounds(oracle, log, e, 0, ts, coeffs, p) == Run([], [], ts, e, log)
  {
  }

  /** The three tables of a cubic instance, as objects with buffers of their own. */
  ghost predicate Separate(A: DensePolynomial, B: DensePolynomial, C: DensePolynomial)
    reads A, B, C
  {
    A != B && B != C && A != C && A.z != B.z && B.z != C.z && A.z != C.z && A.Valid() && B.Valid() && C.Valid()
  }

  ghost function TablesOf(A: DensePolynomial, B: DensePolynomial, C: DensePolynomial): Tables
    requires A.Valid() && B.Valid() && C.Valid()
    reads A, B, C, A.z, B.z, C.z
  {
    Tables(A.Table(), B.Table(), C.Table())
  }

  /** The values of the round polynomial of one instance, and the polynomial itself. */
  method RoundPolyOf(e: int, t: Tables, n: nat, p: Modulus) returns (f: Poly)
    requires Prime(p) && p > 3 && Sized(t, 2 * n)
    ensures f == RoundPoly(e, [t], [1], n, p)
  {
    hide Mod, RoundSum, FromEvals;
    var e0, e2, e3 := RoundEvals(t, n, p);
    OneInstance(t, n, 0);
    OneInstance(t, n, 2);
    OneInstance(t, n, 3);
    f := FromEvals(e0, Mod(e - e0, p), e2, e3, p);
  }

  lemma OneInstance(t: Tables, n: nat, x: int)
    requires Sized(t, 2 * n)
    ensures BatchRound([t], [1], n, x) == RoundSum(t, n, n, x)
  {
    hide RoundSum;
    assert [t][..0] == [] && [1][..0] == [];
    assert BatchRound([], [], n, x) == 0;
  }

  method BindThree(A: DensePolynomial, B: DensePolynomial, C: DensePolynomial, ghost n: nat, r: int, p: Modulus)
    requires Separate(A, B, C) && A.numVars == B.numVars == C.numVars > 0 && n == Pow2(A.numVars - 1)
    modifies A, B, C, A.z, B.z, C.z
    ensures Separate(A, B, C) && A.numVars == B.numVars == C.numVars == old(A.numVars) - 1
    ensures TablesOf(A, B, C) == BindTables(old(TablesOf(A, B, C)), n, r, p)
  {
    hide Bind;
    A.BoundPolyVarTop(r, p);
    B.BoundPolyVarTop(r, p);
    C.BoundPolyVarTop(r, p);
  }

  lemma HalfLength(A: DensePolynomial, n: nat)
    requires A.Valid() && A.numVars > 0 && n == Pow2(A.numVars - 1)
    ensures A.len == 2 * n
  {
  }

  lemma BindOne(t: Tables, n: nat, r: int, p: Modulus)
    requires Sized(t, 2 * n)
    ensures BindAll([t], n, r, p) == [BindTables(t, n, r, p)]
  {
  }

  /** One round: the polynomial is sent, and all three tables are bound to the challenge. */
  method CubicRound(tape: Tape, e: int, A: DensePolynomial, B: DensePolynomial, C: DensePolynomial, ghost n: nat,
                    p: Modulus)
    returns (f: Poly, r: int)
    requires Prime(p) && p > 3 && Separate(A, B, C) && A.numVars == B.numVars == C.numVars > 0 &&
             n == Pow2(A.numVars - 1)
    modifies tape, A, B, C, A.z, B.z, C.z
    ensures Separate(A, B, C) && A.numVars == B.numVars == C.numVars == old(A.numVars) - 1
    ensures f == RoundPoly(e, [old(TablesOf(A, B, C))], [1], n, p)
    ensures r == Challenge(tape.oracle, PolyLog(old(tape.log), f), "challenge_nextround", p)
    ensures tape.log == PolyLog(old(tape.log), f) + [Draw("challenge_nextround")]
    ensures [TablesOf(A, B, C)] == BindAll([old(TablesOf(A, B, C))], n, r, p)
  {
    hide Mod, RoundPoly, PolyLog, BindTables, BindAll, Pow2;
    ghost var t := TablesOf(A, B, C);
    assert A.len == 2 * n by { HalfLength(A, n); }
    f := RoundPolyOf(e, Tables(A.z[..A.len], B.z[..B.len], C.z[..C.len]), A.len / 2, p);
    r := SendPoly(tape, f, p);
    BindThree(A, B, C, n, r, p);
    BindOne(t, n, r, p);
  }

  /** The prover for one instance, binding the three polynomials in place. */
  method ProveCubic(tape: Tape, claim: int, rounds: nat, A: DensePolynomial, B: DensePolynomial, C: DensePolynomial,
                    p: Modulus)
    returns (polys: seq<seq<int>>, rs: seq<int>, finals: seq<int>)
    requires Prime(p) && p > 3 && Separate(A, B, C) && A.numVars == B.numVars == C.numVars == rounds
    modifies tape, A, B, C, A.z, B.z, C.z
    ensures Separate(A, B, C)
    ensures var run := ProveRounds(tape.oracle, old(tape.log), claim, rounds, [old(TablesOf(A, B, C))], [1], p);
      polys == run.polys && rs == run.rs && finals == [run.ts[0].A[0], run.ts[0].B[0], run.ts[0].C[0]] &&
      tape.log == run.log
  {
    hide Mod, Eval, RoundPoly, PolyLog, Compress, ProveRounds, BindTables, BindAll, Pow2;
    polys, rs := [], [];
    var e := claim;
    ghost var run := ProveRounds(tape.oracle, tape.log, claim, rounds, [TablesOf(A, B, C)], [1], p);
    for j := 0 to rounds
      invariant Separate(A, B, C) && A.numVars == B.numVars == C.numVars == rounds - j
      invariant run == Continue(polys, rs, ProveRounds(tape.oracle, tape.log, e, rounds - j, [TablesOf(A, B, C)], [1],
                                                       p))
    {
      ghost var t, n, log := TablesOf(A, B, C), Pow2(rounds - j - 1), tape.log;
      HalfLength(A, n);
      var f, r := CubicRound(tape, e, A, B, C, n, p);
      ContinueStep(tape.oracle, log, e, rounds - j, [t], [1], polys, rs, f, r, p);
      rs := rs + [r];
      e := Evaluate(f, r, p);
      polys := polys + [Compress(f)];
    }
    SmallPow2();
    NoRoundsLeft(tape.oracle, tape.log, e, [TablesOf(A, B, C)], [1], p);
    finals := [A.z[0], B.z[0], C.z[0]];
  }

  /** The verifier's loop. */
  method VerifyRun(tape: Tape, claim: int, polys: seq<seq<int>>, rounds: nat, degree: nat, p: Modulus)
    returns (v: Option<(int, seq<int>)>)
    requires Canonical(claim, p) && forall i :: 0 <= i < |polys| ==> CanonicalV(polys[i], p)
    modifies tape
    ensures match VerifySumcheck(tape.oracle, old(tape.log), claim, polys, rounds, degree, p)
      case None => v == None
      case Some((e, rs, log)) => v == Some((e, rs)) && tape.log == log
  {
    hide Mod, Eval, PolyLog, VerifyRounds, Sum;
    if |polys| != rounds {
      return None;
    }
    var e, rs := claim, [];
    ghost var all := VerifyRounds(tape.oracle, tape.log, claim, polys, degree, p);
    assert polys[0..] == polys;
    AddNone(all);
    for i := 0 to |polys|
      invariant Canonical(e, p)
      invariant all == AddChallenges(rs, VerifyRounds(tape.oracle, tape.log, e, polys[i..], degree, p))
    {
      VerifyStep(tape.oracle, tape.log, e, polys[i..], degree, p);
      assert polys[i..][1..] == polys[i + 1..];
      if |polys[i]| == 0 {
        return None;
      }
      var f := DecompressLoop(polys[i], e, p);
      if |f| - 1 != degree {
        return None;
      }
      if Mod(f[0] + AtOne(f), p) != e {
        return None;
      }
      var r := SendPoly(tape, f, p);
      e := Evaluate(f, r, p);
      AddOne(rs, r, VerifyRounds(tape.oracle, tape.log, e, polys[i + 1..], degree, p));
      rs := rs + [r];
    }
    assert polys[|polys|..] == [];
    VerifyStep(tape.oracle, tape.log, e, [], degree, p);
    assert rs + [] == rs;
    v := Some((e, rs));
  }

  ghost function AddChallenges(rs: seq<int>, v: Option<(int, seq<int>, Log)>): Option<(int, seq<int>, Log)> {
    match v
    case None => None
    case Some((e, qs, log)) => Some((e, rs + qs, log))
  }

  lemma AddNone(v: Option<(int, seq<int>, Log)>)
    ensures AddChallenges([], v) == v
  {
    if v.Some? {
      assert [] + v.value.1 == v.value.1;
    }
  }

  lemma AddOne(rs: seq<int>, r: int, v: Option<(int, seq<int>, Log)>)
    ensures AddChallenges(rs, AddChallenges([r], v)) == AddChallenges(rs + [r], v)
  {
    if v.Some? {
      assert rs + ([r] + v.value.1) == (rs + [r]) + v.value.1;
    }
  }

  lemma VerifyStep(oracle: Oracle, log: Log, e: int, polys: seq<seq<int>>, degree: nat, p: Modulus)
    ensures VerifyRounds(oracle, log, e, polys, degree, p) ==
      if |polys| == 0 then Some((e, [], log))
      else if |polys[0]| == 0 then None
      else var f := Decompress(polys[0], e, p);
        if |f| - 1 != degree || Mod(f[0] + AtOne(f), p) != e then None
        else var r := Challenge(oracle, PolyLog(log, f), "challenge_nextround", p);
          AddChallenges([r], VerifyRounds(oracle, PolyLog(log, f) + [Draw("challenge_nextround")], Mod(Eval(f, r), p),
                                          polys[1..], degree, p))
  {
    hide Mod, Eval, PolyLog, Decompress;
  }
}
