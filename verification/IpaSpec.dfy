/**
 The inner-product argument as mathematics: the halving reduction with materialised generators,
 the verifier's scalars, and the equation that ties the two together.
 */
module IpaSpec {
  import opened PowersOfTwo
  import opened PrimeField
  import opened Vectors
  import opened Tensor
  import opened Transcript

  /** U carries the inner product, V the blinding. */
  datatype Gens = Gens(U: int, V: int)

  /** The vectors of the halving loop, the blinding factor and the transcript so far. */
  datatype State = State(g: seq<int>, h: seq<int>, a: seq<int>, b: seq<int>, alpha: int, log: Log)

  /** What the halving loop leaves: the proof's L and R, the challenges, and the last entries. */
  datatype Reduction = Reduction(
    Ls: seq<int>, Rs: seq<int>, us: seq<int>,
    a: int, b: int, g: int, h: int, alpha: int, log: Log)

  function Combine(gens: Gens, x: int, y: int, z: int, d: int): int {
    x + y + z * gens.U + d * gens.V
  }

  /** The statement P = <a, g> + <b, h> + <a, b> U + alpha V. */
  function Commit(gens: Gens, a: seq<int>, b: seq<int>, g: seq<int>, h: seq<int>, alpha: int): int
    requires |a| == |b| == |g| == |h|
  {
    Combine(gens, Dot(a, g), Dot(b, h), Dot(a, b), alpha)
  }

  function Committed(gens: Gens, st: State): int
    requires |st.g| == |st.h| == |st.a| == |st.b|
  {
    Commit(gens, st.a, st.b, st.g, st.h, st.alpha)
  }

  /** A cross term <a, g> + <b, h> + <a, b> U + d V. */
  function Cross(gens: Gens, a: seq<int>, b: seq<int>, g: seq<int>, h: seq<int>, d: int, p: Modulus): int
    requires |a| == |b| == |g| == |h|
  {
    Mod(Commit(gens, a, b, g, h, d), p)
  }

  predicate Sized(st: State, k: nat) {
    |st.g| == |st.h| == |st.a| == |st.b| == Pow2(k)
  }

  /** <aL, gR> + <bR, hL> + <aL, bR> U + d V */
  function Left(gens: Gens, st: State, d: int, p: Modulus): int
    requires |st.g| == |st.h| == |st.a| == |st.b| && |st.a| % 2 == 0
  {
    var n := |st.a| / 2;
    Cross(gens, st.a[..n], st.b[n..], st.g[n..], st.h[..n], d, p)
  }

  /** <aR, gL> + <bL, hR> + <aR, bL> U + d V */
  function Right(gens: Gens, st: State, d: int, p: Modulus): int
    requires |st.g| == |st.h| == |st.a| == |st.b| && |st.a| % 2 == 0
  {
    var n := |st.a| / 2;
    Cross(gens, st.a[n..], st.b[..n], st.g[..n], st.h[n..], d, p)
  }

  function NextAlpha(alpha: int, u: int, w: int, d: (int, int), p: Modulus): int {
    Mod(alpha + u * u * d.0 + w * w * d.1, p)
  }

  function RoundLog(log: Log, L: int, R: int): Log {
    log + [Point("L", L), Point("R", R)]
  }

  /** The state after a round with challenge u and its inverse w. */
  function Next(st: State, L: int, R: int, u: int, w: int, d: (int, int), p: Modulus): (st': State)
    requires |st.g| == |st.h| == |st.a| == |st.b| && |st.a| % 2 == 0
    ensures |st'.g| == |st'.h| == |st'.a| == |st'.b| == |st.a| / 2
  {
    State(Fold(st.g, w, u, p), Fold(st.h, u, w, p), Fold(st.a, u, w, p), Fold(st.b, w, u, p),
          NextAlpha(st.alpha, u, w, d, p), RoundLog(st.log, L, R) + [Draw("u")])
  }

  /** The halving loop; None when a challenge is zero, where the inversion has no value. */
  function Reduce(oracle: Oracle, gens: Gens, st: State, blinds: seq<(int, int)>, p: Modulus): (r: Option<Reduction>)
    requires Prime(p) && Sized(st, |blinds|)
    ensures r.Some? ==> |r.value.Ls| == |r.value.Rs| == |r.value.us| == |blinds|
    decreases |blinds|
  {
    if |blinds| == 0 then
      Some(Reduction([], [], [], st.a[0], st.b[0], st.g[0], st.h[0], st.alpha, st.log))
    else
      var L, R := Left(gens, st, blinds[0].0, p), Right(gens, st, blinds[0].1, p);
      var u := Challenge(oracle, RoundLog(st.log, L, R), "u", p);
      if u == 0 then
        None
      else
        Prepend(L, R, u, Reduce(oracle, gens, Next(st, L, R, u, Inv(u, p), blinds[0], p), blinds[1..], p))
  }

  function Prepend(L: int, R: int, u: int, r: Option<Reduction>): Option<Reduction> {
    match r
    case None => None
    case Some(v) => Some(v.(Ls := [L] + v.Ls, Rs := [R] + v.Rs, us := [u] + v.us))
  }

  predicate NonZero(us: seq<int>, p: Modulus) {
    forall i :: 0 <= i < |us| ==> 0 < us[i] < p
  }

  function Inverses(us: seq<int>, p: Modulus): (ws: seq<int>)
    requires Prime(p) && NonZero(us, p)
    ensures |ws| == |us| && NonZero(ws, p)
  {
    seq(|us|, i requires 0 <= i < |us| => Inv(us[i], p))
  }

  function Squares(us: seq<int>, p: Modulus): (s: seq<int>)
    ensures |s| == |us|
  {
    ModV(Had(us, us), p)
  }

  // ---------- one round ----------

  /** Inner product of two vectors folded with opposite weights. */
  lemma FoldDot(a: seq<int>, g: seq<int>, u: int, w: int, p: Modulus)
    requires |a| == |g| && |a| % 2 == 0 && Cong(u * w, 1, p)
    ensures var n := |a| / 2;
      Cong(Dot(Fold(a, u, w, p), Fold(g, w, u, p)),
           Dot(a, g) + u * u * Dot(a[..n], g[n..]) + w * w * Dot(a[n..], g[..n]), p)
  {
    hide Dot;
    var n := |a| / 2;
    var aL, aR, gL, gR := a[..n], a[n..], g[..n], g[n..];
    DotModV(Lin(u, aL, w, aR), Lin(w, gL, u, gR), p);
    var v := Lin(w, gL, u, gR);
    DotLin(u, aL, w, aR, v);
    DotLin(w, gL, u, gR, aL);
    DotLin(w, gL, u, gR, aR);
    DotHalves(a, g, n);
    CrossExpand(Dot(Lin(u, aL, w, aR), v), Dot(a, g), u, w, Dot(aL, v), Dot(aR, v),
                Dot(aL, gL), Dot(aL, gR), Dot(aR, gL), Dot(aR, gR), p);
  }

  lemma CrossExpand(x: int, d: int, u: int, w: int, l: int, r: int, ll: int, lr: int, rl: int, rr: int, p: Modulus)
    requires x == u * l + w * r && l == w * ll + u * lr && r == w * rl + u * rr && d == ll + rr
    requires Cong(u * w, 1, p)
    ensures Cong(x, d + u * u * lr + w * w * rl, p)
  {
    CrossPoly(x, d, u, w, ll, lr, rl, rr);
    CrossCancel(x, d, u, w, u * u * lr + w * w * rl, p);
  }

  lemma CrossPoly(x: int, d: int, u: int, w: int, ll: int, lr: int, rl: int, rr: int)
    requires x == u * (w * ll + u * lr) + w * (w * rl + u * rr) && d == ll + rr
    ensures x == (u * w) * d + (u * u * lr + w * w * rl)
  {
  }

  lemma CrossCancel(x: int, d: int, u: int, w: int, rest: int, p: Modulus)
    requires x == (u * w) * d + rest && Cong(u * w, 1, p)
    ensures Cong(x, d + rest, p)
  {
    CongMul(u * w, 1, d, d, p);
    CongAdd((u * w) * d, d, rest, rest, p);
  }

  lemma CommitCong(x: (int, int, int, int), y: (int, int, int, int), gens: Gens, p: Modulus)
    requires Cong(x.0, y.0, p) && Cong(x.1, y.1, p) && Cong(x.2, y.2, p) && Cong(x.3, y.3, p)
    ensures Cong(x.0 + x.1 + x.2 * gens.U + x.3 * gens.V, y.0 + y.1 + y.2 * gens.U + y.3 * gens.V, p)
  {
    hide Mod;
    CongMul(x.2, y.2, gens.U, gens.U, p);
    CongMul(x.3, y.3, gens.V, gens.V, p);
    CongAdd(x.0, y.0, x.1, y.1, p);
    CongAdd(x.0 + x.1, y.0 + y.1, x.2 * gens.U, y.2 * gens.U, p);
    CongAdd(x.0 + x.1 + x.2 * gens.U, y.0 + y.1 + y.2 * gens.U, x.3 * gens.V, y.3 * gens.V, p);
  }

  lemma RoundPoly(c: (int, int, int, int), l: (int, int, int, int), r: (int, int, int, int), s: int, t: int, U: int,
                  V: int)
    ensures (c.0 + s * l.0 + t * r.0) + (c.1 + s * l.1 + t * r.1) + (c.2 + s * l.2 + t * r.2) * U +
            (c.3 + s * l.3 + t * r.3) * V
         == (c.0 + c.1 + c.2 * U + c.3 * V) + s * (l.0 + l.1 + l.2 * U + l.3 * V) + t * (r.0 + r.1 + r.2 * U + r.3 * V)
  {
  }

  /** One round keeps the statement: the folded commitment is the old one plus u^2 L + u^-2 R. */
  lemma RoundKeeps(gens: Gens, st: State, d: (int, int), u: int, w: int, L: int, R: int, p: Modulus)
    requires |st.g| == |st.h| == |st.a| == |st.b| && |st.a| % 2 == 0 && Cong(u * w, 1, p)
    requires L == Left(gens, st, d.0, p) && R == Right(gens, st, d.1, p)
    ensures Cong(Committed(gens, Next(st, L, R, u, w, d, p)), Committed(gens, st) + (u * u) * L + (w * w) * R, p)
  {
    hide Dot, Fold, Mod;
    var State(g, h, a, b, alpha, log) := st;
    var n := |a| / 2;
    var aL, aR, bL, bR := a[..n], a[n..], b[..n], b[n..];
    var gL, gR, hL, hR := g[..n], g[n..], h[..n], h[n..];
    FoldDot(a, g, u, w, p);
    FoldDot(b, h, w, u, p);
    FoldDot(a, b, u, w, p);
    ModCong(Commit(gens, aL, bR, gR, hL, d.0), p);
    ModCong(Commit(gens, aR, bL, gL, hR, d.1), p);
    ModCong(alpha + u * u * d.0 + w * w * d.1, p);
    var c := (Dot(a, g), Dot(b, h), Dot(a, b), alpha);
    var l := (Dot(aL, gR), Dot(bR, hL), Dot(aL, bR), d.0);
    var r := (Dot(aR, gL), Dot(bL, hR), Dot(aR, bL), d.1);
    var x := (Dot(Fold(a, u, w, p), Fold(g, w, u, p)), Dot(Fold(b, w, u, p), Fold(h, u, w, p)),
              Dot(Fold(a, u, w, p), Fold(b, w, u, p)), NextAlpha(alpha, u, w, d, p));
    RoundGlue(c, l, r, x, u, w, L, R, gens, p);
  }

  lemma RoundGlue(c: (int, int, int, int), l: (int, int, int, int), r: (int, int, int, int), x: (int, int, int, int),
                  u: int, w: int, L: int, R: int, gens: Gens, p: Modulus)
    requires Cong(x.0, c.0 + u * u * l.0 + w * w * r.0, p)
    requires Cong(x.1, c.1 + w * w * r.1 + u * u * l.1, p)
    requires Cong(x.2, c.2 + u * u * l.2 + w * w * r.2, p)
    requires Cong(x.3, c.3 + u * u * l.3 + w * w * r.3, p)
    requires Cong(L, l.0 + l.1 + l.2 * gens.U + l.3 * gens.V, p)
    requires Cong(R, r.0 + r.1 + r.2 * gens.U + r.3 * gens.V, p)
    ensures Cong(x.0 + x.1 + x.2 * gens.U + x.3 * gens.V,
                 (c.0 + c.1 + c.2 * gens.U + c.3 * gens.V) + (u * u) * L + (w * w) * R, p)
  {
    hide Mod;
    var s, t := u * u, w * w;
    var y := (c.0 + s * l.0 + t * r.0, c.1 + s * l.1 + t * r.1, c.2 + s * l.2 + t * r.2, c.3 + s * l.3 + t * r.3);
    CommitCong(x, y, gens, p);
    RoundPoly(c, l, r, s, t, gens.U, gens.V);
    var L', R' := l.0 + l.1 + l.2 * gens.U + l.3 * gens.V, r.0 + r.1 + r.2 * gens.U + r.3 * gens.V;
    CongScale(s, L, L', p);
    CongScale(t, R, R', p);
    var c' := c.0 + c.1 + c.2 * gens.U + c.3 * gens.V;
    CongAdd(c', c', s * L, s * L', p);
    CongAdd(c' + s * L, c' + s * L', t * R, t * R', p);
  }

  // ---------- all rounds ----------

  function PairSum(r: Reduction, p: Modulus): int
    requires Prime(p) && NonZero(r.us, p) && |r.Ls| == |r.Rs| == |r.us|
  {
    Dot(Squares(r.us, p), r.Ls) + Dot(Squares(Inverses(r.us, p), p), r.Rs)
  }

  function FinalCommit(r: Reduction, gens: Gens): int {
    r.a * r.g + r.b * r.h + r.a * r.b * gens.U + r.alpha * gens.V
  }

  /** The halving loop, one round unrolled. */
  lemma Unroll(oracle: Oracle, gens: Gens, st: State, blinds: seq<(int, int)>, p: Modulus)
    returns (L: int, R: int, u: int, w: int, st': State, r: Reduction)
    requires Prime(p) && |blinds| > 0 && Sized(st, |blinds|) && Reduce(oracle, gens, st, blinds, p).Some?
    ensures L == Left(gens, st, blinds[0].0, p) && R == Right(gens, st, blinds[0].1, p)
    ensures u == Challenge(oracle, RoundLog(st.log, L, R), "u", p) && 0 < u < p && w == Inv(u, p)
    ensures st' == Next(st, L, R, u, w, blinds[0], p) && Sized(st', |blinds| - 1)
    ensures Reduce(oracle, gens, st', blinds[1..], p) == Some(r)
    ensures Reduce(oracle, gens, st, blinds, p) == Some(r.(Ls := [L] + r.Ls, Rs := [R] + r.Rs, us := [u] + r.us))
  {
    hide Left, Right, Next, Mod, Inv;
    L, R := Left(gens, st, blinds[0].0, p), Right(gens, st, blinds[0].1, p);
    u := Challenge(oracle, RoundLog(st.log, L, R), "u", p);
    w := Inv(u, p);
    st' := Next(st, L, R, u, w, blinds[0], p);
    r := Reduce(oracle, gens, st', blinds[1..], p).value;
  }

  lemma PairSumCons(L: int, R: int, u: int, r: Reduction, p: Modulus)
    requires Prime(p) && NonZero(r.us, p) && |r.Ls| == |r.Rs| == |r.us| && 0 < u < p
    ensures NonZero([u] + r.us, p)
    ensures var w := Inv(u, p);
      PairSum(r.(Ls := [L] + r.Ls, Rs := [R] + r.Rs, us := [u] + r.us), p)
        == Mod(u * u, p) * L + Mod(w * w, p) * R + PairSum(r, p)
  {
    hide Dot, Mod, Inv;
    var us, ws := r.us, Inverses(r.us, p);
    var w := Inv(u, p);
    assert Squares([u] + us, p) == [Mod(u * u, p)] + Squares(us, p);
    assert Inverses([u] + us, p) == [w] + ws;
    assert Squares([w] + ws, p) == [Mod(w * w, p)] + Squares(ws, p);
    DotCons(Mod(u * u, p), Squares(us, p), L, r.Ls);
    DotCons(Mod(w * w, p), Squares(ws, p), R, r.Rs);
  }

  lemma StepGlue(c: int, c': int, s: int, t: int, s': int, t': int, L: int, R: int, rest: int, all: int, f: int,
                 p: Modulus)
    requires Cong(c', c + s * L + t * R, p) && Cong(c' + rest, f, p) && Cong(s', s, p) && Cong(t', t, p)
    requires all == s' * L + t' * R + rest
    ensures Cong(c + all, f, p)
  {
    hide Mod;
    CongMul(s', s, L, L, p);
    CongMul(t', t, R, R, p);
    CongAdd(s' * L, s * L, t' * R, t * R, p);
    CongAdd(c, c, s' * L + t' * R, s * L + t * R, p);
    CongAdd(c + (s' * L + t' * R), c', rest, rest, p);
  }

  /** The loop invariant over all rounds: P + sum u^2 L + sum u^-2 R is the commitment to the last entries. */
  lemma {:induction false} ReduceKeeps(oracle: Oracle, gens: Gens, st: State, blinds: seq<(int, int)>, p: Modulus)
    requires Prime(p) && Sized(st, |blinds|) && Reduce(oracle, gens, st, blinds, p).Some?
    ensures var r := Reduce(oracle, gens, st, blinds, p).value;
      NonZero(r.us, p) && Cong(Committed(gens, st) + PairSum(r, p), FinalCommit(r, gens), p)
    decreases |blinds|
  {
    hide Dot, Fold, Mod, Inv, Left, Right, Commit, Reduce, PairSum, Inverses, Squares;
    if |blinds| == 0 {
      ReduceBase(oracle, gens, st, p);
    } else {
      var L, R, u, w, st', r := Unroll(oracle, gens, st, blinds, p);
      ReduceKeeps(oracle, gens, st', blinds[1..], p);
      RoundKeeps(gens, st, blinds[0], u, w, L, R, p);
      PairSumCons(L, R, u, r, p);
      ModCong(u * u, p);
      ModCong(w * w, p);
      StepGlue(Committed(gens, st), Committed(gens, st'), u * u, w * w, Mod(u * u, p), Mod(w * w, p),
               L, R, PairSum(r, p), PairSum(Reduce(oracle, gens, st, blinds, p).value, p), FinalCommit(r, gens), p);
    }
  }

  lemma ReduceBase(oracle: Oracle, gens: Gens, st: State, p: Modulus)
    requires Prime(p) && Sized(st, 0)
    ensures Reduce(oracle, gens, st, [], p) == Some(Reduction([], [], [], st.a[0], st.b[0], st.g[0], st.h[0],
                                                              st.alpha, st.log))
    ensures var r := Reduce(oracle, gens, st, [], p).value;
      Committed(gens, st) + PairSum(r, p) == FinalCommit(r, gens)
    ensures Spread([], Inverses([], p), p) == [1] && Spread(Inverses([], p), [], p) == [1]
    ensures Dot([1], st.g) == st.g[0] && Dot([1], st.h) == st.h[0]
  {
    var State(g, h, a, b, alpha, log) := st;
    assert a == [a[0]] && b == [b[0]] && g == [g[0]] && h == [h[0]];
    DotSingle(a[0], g[0]);
    DotSingle(b[0], h[0]);
    DotSingle(a[0], b[0]);
    DotSingle(1, g[0]);
    DotSingle(1, h[0]);
  }

  // ---------- the verifier's scalars ----------

  /** The scalars in reverse order are the scalars of the inverse challenges: s[n-1-i] = 1/s[i]. */
  lemma {:induction false} SpreadReverse(us: seq<int>, ws: seq<int>, p: Modulus)
    requires |us| == |ws|
    ensures Reverse(Spread(us, ws, p)) == Spread(ws, us, p)
  {
    hide Mod;
    if |us| == 0 {
    } else {
      SpreadReverse(us[1..], ws[1..], p);
      var t := Spread(us[1..], ws[1..], p);
      ReverseHalves(ModV(Scale(ws[0], t), p), ModV(Scale(us[0], t), p));
      ReverseScaled(ws[0], t, p);
      ReverseScaled(us[0], t, p);
    }
  }

  lemma ReverseHalves(a: seq<int>, b: seq<int>)
    ensures Reverse(a + b) == Reverse(b) + Reverse(a)
  {
  }

  lemma ReverseScaled(x: int, t: seq<int>, p: Modulus)
    ensures Reverse(ModV(Scale(x, t), p)) == ModV(Scale(x, Reverse(t)), p)
  {
    hide Mod;
  }

  /** The verifier's scalars applied to the original generators give the prover's folded generators. */
  lemma {:induction false} SpreadFolds(oracle: Oracle, gens: Gens, st: State, blinds: seq<(int, int)>, p: Modulus)
    requires Prime(p) && Sized(st, |blinds|) && Reduce(oracle, gens, st, blinds, p).Some?
    ensures var r := Reduce(oracle, gens, st, blinds, p).value;
      NonZero(r.us, p) &&
      Cong(Dot(Spread(r.us, Inverses(r.us, p), p), st.g), r.g, p) &&
      Cong(Dot(Spread(Inverses(r.us, p), r.us, p), st.h), r.h, p)
    decreases |blinds|
  {
    hide Dot, Fold, Mod, Inv, Left, Right, Reduce, Inverses;
    if |blinds| == 0 {
      ReduceBase(oracle, gens, st, p);
    } else {
      var L, R, u, w, st', r := Unroll(oracle, gens, st, blinds, p);
      SpreadFolds(oracle, gens, st', blinds[1..], p);
      var us, ws := r.us, Inverses(r.us, p);
      SpreadCons(u, us, p);
      SpreadStep(Spread(us, ws, p), st.g, u, w, p);
      SpreadStep(Spread(ws, us, p), st.h, w, u, p);
    }
  }

  lemma SpreadCons(u: int, us: seq<int>, p: Modulus)
    requires Prime(p) && NonZero(us, p) && 0 < u < p
    ensures var w := Inv(u, p); var ws := Inverses(us, p);
      NonZero([u] + us, p) && Inverses([u] + us, p) == [w] + ws &&
      Spread([u] + us, [w] + ws, p) == ModV(Scale(w, Spread(us, ws, p)), p) + ModV(Scale(u, Spread(us, ws, p)), p) &&
      Spread([w] + ws, [u] + us, p) == ModV(Scale(u, Spread(ws, us, p)), p) + ModV(Scale(w, Spread(ws, us, p)), p)
  {
    hide Inv, Mod;
    var w, ws := Inv(u, p), Inverses(us, p);
    assert Inverses([u] + us, p) == [w] + ws;
    assert ([u] + us)[1..] == us && ([w] + ws)[1..] == ws;
  }
}
