/**
 Elliptic-curve gadgets: the constraints they emit force the right group element, for every assignment
 to the circuit's variables.
 */
module EccCircuit {
  import opened PowersOfTwo
  import opened PrimeField
  import opened Curve
  import opened Constraints
  import opened Gadgets

  datatype AllocatedPoint = AllocatedPoint(x: Variable, y: Variable, inf: Variable)

  /** A point known not to be infinity. */
  datatype FinitePoint = FinitePoint(x: Variable, y: Variable)

  /** The curves the circuit supports have a = -3 or a = 0. */
  ghost predicate Supported(E: Curve, cs: ConstraintSystem) {
    IsCurve(E) && cs.p == E.q && E.q > 3 && (E.a == -3 || E.a == 0)
  }

  /** The assignment gives P the coordinates of the finite point k. */
  ghost predicate ShowsFinite(E: Curve, w: Assignment, x: Variable, y: Variable, k: int) {
    Finite(E, k) && Cong(w(x), E.X(k), E.q) && Cong(w(y), E.Y(k), E.q)
  }

  /** The assignment makes P the point k; infinity is (0, 0) with its flag set. */
  ghost predicate Shows(E: Curve, w: Assignment, P: AllocatedPoint, k: int) {
    if k == 0 then Cong(w(P.x), 0, E.q) && Cong(w(P.y), 0, E.q) && Cong(w(P.inf), 1, E.q)
    else ShowsFinite(E, w, P.x, P.y, k) && Cong(w(P.inf), 0, E.q)
  }

  // ---------- incomplete formulas ----------

  /** The two constraints both addition formulas end with: x and y from the slope. */
  method EnforceThird(cs: ConstraintSystem, lam: Variable, x1: Variable, y1: Variable, x2: Variable)
    returns (x: Variable, y: Variable)
    modifies cs
    ensures cs.Sat() ==> old(cs.Sat()) && ThirdValues(cs.w(lam), cs.w(x1), cs.w(y1), cs.w(x2), cs.w(x), cs.w(y), cs.p)
    ensures cs.honest ==> old(cs.honest) && (old(cs.Sat()) ==> cs.Sat())
  {
    hide Mod, EvalLc, Holds;
    x := cs.Alloc(cs.w(lam) * cs.w(lam) - (cs.w(x2) + cs.w(x1)));
    var sum := Add(Add(Term(1, x), 1, x1), 1, x2);
    cs.Enforce(Term(1, lam), Term(1, lam), sum);
    y := cs.Alloc(cs.w(lam) * (cs.w(x1) - cs.w(x)) - cs.w(y1));
    cs.Enforce(Term(1, lam), Add(Term(1, x1), -1, x), Add(Term(1, y), 1, y1));
    EvalOne(1, lam, cs.w);
    EvalThree(1, x, 1, x1, 1, x2, cs.w);
    EvalTwo(1, x1, -1, x, cs.w);
    EvalTwo(1, y, 1, y1, cs.w);
    var l, a, b, c, u, v := cs.w(lam), cs.w(x1), cs.w(y1), cs.w(x2), cs.w(x), cs.w(y);
    HoldsIff(Constraint(Term(1, lam), Term(1, lam), sum), cs.w, l, l, u + a + c, cs.p);
    HoldsIff(Constraint(Term(1, lam), Add(Term(1, x1), -1, x), Add(Term(1, y), 1, y1)), cs.w, l, a - u, v + b, cs.p);
    MoveSum(l * l, u, c + a, u + a + c, cs.p);
    MoveSum(l * (a - u), v, b, v + b, cs.p);
  }

  /** t = u + d exactly when u = t - d. */
  lemma MoveSum(t: int, u: int, d: int, s: int, p: Modulus)
    requires s == u + d
    ensures Cong(t, s, p) <==> Cong(u, t - d, p)
  {
    hide Mod;
    if Cong(t, s, p) {
      CongSub(t, s, d, d, p);
    }
    if Cong(u, t - d, p) {
      CongAdd(u, t - d, d, d, p);
    }
  }

  ghost predicate ThirdValues(lam: int, x1: int, y1: int, x2: int, x: int, y: int, p: Modulus) {
    Cong(x, lam * lam - (x2 + x1), p) && Cong(y, lam * (x1 - x) - y1, p)
  }

  /** Values congruent to the third point's are the coordinates of that point. */
  lemma ThirdShows(E: Curve, w: Assignment, x: Variable, y: Variable, lam: int, x1: int, y1: int, x2: int, k: int,
                   l: int, m: int)
    requires Third(E, k, l, lam, m) && ThirdValues(lam, x1, y1, x2, w(x), w(y), E.q)
    requires Cong(x1, E.X(l), E.q) && Cong(y1, E.Y(l), E.q) && Cong(x2, E.X(k), E.q)
    ensures ShowsFinite(E, w, x, y, m)
  {
    hide Mod;
    var q := E.q;
    CongAdd(x2, E.X(k), x1, E.X(l), q);
    CongSub(lam * lam, lam * lam, x2 + x1, E.X(k) + E.X(l), q);
    CongSub(x1, E.X(l), w(x), E.X(m), q);
    CongScale(lam, x1 - w(x), E.X(l) - E.X(m), q);
    CongSub(lam * (x1 - w(x)), lam * (E.X(l) - E.X(m)), y1, E.Y(l), q);
  }

  // ---------- the curve y^2 = x^3, where the circuit goes for infinity when a = 0 ----------

  ghost predicate AtOrigin(w: Assignment, P: FinitePoint, p: Modulus) {
    Cong(w(P.x), 0, p) && Cong(w(P.y), 0, p)
  }

  ghost predicate OnCusp(w: Assignment, P: FinitePoint, p: Modulus) {
    Cong(w(P.y) * w(P.y), w(P.x) * (w(P.x) * w(P.x)), p)
  }

  lemma Cancel(c: int, a: int, b: int, p: Modulus)
    requires Prime(p) && !Cong(c, 0, p) && Cong(c * a, c * b, p)
    ensures Cong(a, b, p)
  {
    hide Mod;
    assert c * (a - b) == c * a - c * b;
    CongSub(c * a, c * b, c * b, c * b, p);
    NoZeroDivisors(c, a - b, p);
    CongAdd(a - b, 0, b, b, p);
  }

  lemma ZeroProduct(a: int, b: int, p: Modulus)
    requires Cong(a, 0, p)
    ensures Cong(a * b, 0, p) && Cong(b * a, 0, p)
  {
    hide Mod;
    CongMul(a, 0, b, b, p);
    CongScale(b, a, 0, p);
    assert b * 0 == 0;
  }

  /** On the cusp x and y vanish together. */
  lemma CuspZero(w: Assignment, P: FinitePoint, p: Modulus)
    requires Prime(p) && OnCusp(w, P, p)
    ensures Cong(w(P.x), 0, p) <==> Cong(w(P.y), 0, p)
  {
    hide Mod;
    var x, y := w(P.x), w(P.y);
    if Cong(x, 0, p) {
      ZeroProduct(x, x * x, p);
      NoZeroDivisors(y, y, p);
    } else if Cong(y, 0, p) {
      ZeroProduct(y, y, p);
      NoZeroDivisors(x, x * x, p);
      NoZeroDivisors(x, x, p);
    }
  }

  /** The chord from the origin meets the cusp at the origin again. */
  lemma OriginAbsorbs(w: Assignment, P: FinitePoint, Q: FinitePoint, R: FinitePoint, lam: int, p: Modulus)
    requires Prime(p) && AtOrigin(w, P, p) && OnCusp(w, Q, p) && !Cong(w(Q.y), 0, p)
    requires Cong(lam * (w(Q.x) - w(P.x)), w(Q.y) - w(P.y), p) &&
             ThirdValues(lam, w(P.x), w(P.y), w(Q.x), w(R.x), w(R.y), p)
    ensures AtOrigin(w, R, p)
  {
    hide Mod;
    CuspZero(w, Q, p);
    var x, y := w(Q.x), w(Q.y);
    CongSub(x, x, w(P.x), 0, p);
    CongSub(y, y, w(P.y), 0, p);
    CongScale(lam, x - w(P.x), x, p);
    SquareOfSlope(lam, x, y, p);
    CongAdd(x, x, w(P.x), 0, p);
    CongSub(lam * lam, x, x + w(P.x), x, p);
    CongSub(w(P.x), 0, w(R.x), 0, p);
    ZeroProduct(w(P.x) - w(R.x), lam, p);
    CongSub(lam * (w(P.x) - w(R.x)), 0, w(P.y), 0, p);
  }

  lemma SquareOfSlope(lam: int, x: int, y: int, p: Modulus)
    requires Prime(p) && !Cong(x, 0, p) && Cong(lam * x, y, p) && Cong(y * y, x * (x * x), p)
    ensures Cong(lam * lam, x, p)
  {
    hide Mod;
    CongMul(lam * x, y, lam * x, y, p);
    SquareMoves(lam, x);
    Cancel(x, x * (lam * lam), x * x, p);
    Cancel(x, lam * lam, x, p);
  }

  lemma SquareMoves(lam: int, x: int)
    ensures (lam * x) * (lam * x) == x * (x * (lam * lam))
  {
  }

  /** Doubling on the cusp divides x by 4 and y by 8, and from the origin reaches any (s^2, -s^3). */
  lemma CuspDoubles(w: Assignment, P: FinitePoint, R: FinitePoint, lam: int, p: Modulus)
    requires Prime(p) && p > 3 && OnCusp(w, P, p) && Cong(lam * (2 * w(P.y)), 3 * (w(P.x) * w(P.x)), p)
    requires ThirdValues(lam, w(P.x), w(P.y), w(P.x), w(R.x), w(R.y), p)
    ensures OnCusp(w, R, p) && (!Cong(w(P.y), 0, p) ==> !Cong(w(R.y), 0, p))
  {
    hide Mod;
    CuspZero(w, P, p);
    if Cong(w(P.y), 0, p) {
      FromOrigin(lam, w(P.x), w(P.y), w(R.x), w(R.y), p);
    } else {
      AwayFromOrigin(lam, w(P.x), w(P.y), w(R.x), w(R.y), p);
    }
  }

  lemma FromOrigin(lam: int, x: int, y: int, x': int, y': int, p: Modulus)
    requires Cong(x, 0, p) && Cong(y, 0, p) && ThirdValues(lam, x, y, x, x', y', p)
    ensures Cong(x', lam * lam, p) && Cong(y', 0 - lam * (lam * lam), p) && Cong(y' * y', x' * (x' * x'), p)
  {
    hide Mod;
    CongAdd(x, 0, x, 0, p);
    CongSub(lam * lam, lam * lam, x + x, 0, p);
    CongSub(x, 0, x', lam * lam, p);
    CongScale(lam, x - x', 0 - lam * lam, p);
    CongSub(lam * (x - x'), lam * (0 - lam * lam), y, 0, p);
    var s, c := lam * lam, lam * (lam * lam);
    assert lam * (0 - s) - 0 == 0 - c;
    CongMul(y', 0 - c, y', 0 - c, p);
    CongMul(x', s, x', s, p);
    CongMul(x', s, x' * x', s * s, p);
    SixthPower(lam);
  }

  lemma SixthPower(l: int)
    ensures (0 - l * (l * l)) * (0 - l * (l * l)) == (l * l) * ((l * l) * (l * l))
  {
    var c := l * (l * l);
    assert (0 - c) * (0 - c) == c * c;
    assert c * c == l * ((l * l) * (l * (l * l)));
  }

  lemma AwayFromOrigin(lam: int, x: int, y: int, x': int, y': int, p: Modulus)
    requires Prime(p) && p > 3 && !Cong(x, 0, p) && !Cong(y, 0, p) && Cong(y * y, x * (x * x), p)
    requires Cong(lam * (2 * y), 3 * (x * x), p) && ThirdValues(lam, x, y, x, x', y', p)
    ensures Cong(4 * x', x, p) && Cong(8 * y', y, p) && Cong(y' * y', x' * (x' * x'), p) && !Cong(y', 0, p)
  {
    hide Mod, ThirdValues;
    QuarterX(lam, x, y, x', y', p);
    EighthY(lam, x, y, x', y', p);
    CongMul(8 * y', y, 8 * y', y, p);
    CongMul(4 * x', x, 4 * x', x, p);
    CongMul(4 * x', x, (4 * x') * (4 * x'), x * x, p);
    SixtyFour(x', y');
    SmallUnit(p);
    Cancel(64, y' * y', x' * (x' * x'), p);
    if Cong(y', 0, p) {
      ZeroProduct(y', 8, p);
    }
  }

  lemma SixtyFour(x: int, y: int)
    ensures (8 * y) * (8 * y) == 64 * (y * y)
    ensures (4 * x) * ((4 * x) * (4 * x)) == 64 * (x * (x * x))
  {
  }

  lemma SmallUnit(p: Modulus)
    requires Prime(p) && p > 3
    ensures !Cong(2, 0, p) && !Cong(4, 0, p) && !Cong(64, 0, p)
  {
    assert Mod(2, p) == 2 && Mod(0, p) == 0;
    hide Mod;
    if Cong(4, 0, p) {
      NoZeroDivisors(2, 2, p);
    }
    if Cong(64, 0, p) {
      NoZeroDivisors(4, 16, p);
      NoZeroDivisors(4, 4, p);
    }
  }

  lemma QuarterX(lam: int, x: int, y: int, x': int, y': int, p: Modulus)
    requires Prime(p) && p > 3 && !Cong(x, 0, p) && Cong(y * y, x * (x * x), p)
    requires Cong(lam * (2 * y), 3 * (x * x), p) && ThirdValues(lam, x, y, x, x', y', p)
    ensures Cong(4 * x', x, p)
  {
    hide Mod;
    var l2 := lam * lam;
    CongMul(lam * (2 * y), 3 * (x * x), lam * (2 * y), 3 * (x * x), p);
    CongScale(4 * l2, y * y, x * (x * x), p);
    QuarterPoly(lam, x, y);
    Cancel(x, x * (x * (4 * l2)), x * (x * (9 * x)), p);
    Cancel(x, x * (4 * l2), x * (9 * x), p);
    Cancel(x, 4 * l2, 9 * x, p);
    CongScale(4, x', l2 - (x + x), p);
    CongSub(4 * l2, 9 * x, 8 * x, 8 * x, p);
  }

  lemma QuarterPoly(l: int, x: int, y: int)
    ensures (l * (2 * y)) * (l * (2 * y)) == (4 * (l * l)) * (y * y)
    ensures (4 * (l * l)) * (x * (x * x)) == x * (x * (x * (4 * (l * l))))
    ensures (3 * (x * x)) * (3 * (x * x)) == x * (x * (x * (9 * x)))
  {
    var a := l * y;
    assert l * (2 * y) == 2 * a && (2 * a) * (2 * a) == 4 * (a * a);
    assert a * a == (l * l) * (y * y);
    var b := x * x;
    assert (3 * b) * (3 * b) == 9 * (b * b);
    assert x * (x * (x * (9 * x))) == 9 * (x * (x * (x * x)));
    assert x * (x * (x * x)) == b * b;
  }

  lemma EighthY(lam: int, x: int, y: int, x': int, y': int, p: Modulus)
    requires Prime(p) && p > 3 && !Cong(y, 0, p) && Cong(y * y, x * (x * x), p) && Cong(4 * x', x, p)
    requires Cong(lam * (2 * y), 3 * (x * x), p) && ThirdValues(lam, x, y, x, x', y', p)
    ensures Cong(8 * y', y, p)
  {
    hide Mod;
    CongScale(x, lam * (2 * y), 3 * (x * x), p);
    CongScale(3, y * y, x * (x * x), p);
    EighthPoly(lam, x, y);
    Cancel(y, 2 * (lam * x), 3 * y, p);
    CongScale(8, y', lam * (x - x') - y, p);
    CongScale(2, 4 * x', x, p);
    CongSub(8 * x, 8 * x, 2 * (4 * x'), 2 * x, p);
    CongScale(lam, 8 * x - 2 * (4 * x'), 6 * x, p);
    CongScale(3, 2 * (lam * x), 3 * y, p);
    EighthSum(lam, x, x', y);
    CongSub(lam * (6 * x), 9 * y, 8 * y, 8 * y, p);
    CongSub(lam * (8 * x - 2 * (4 * x')), lam * (6 * x), 8 * y, 8 * y, p);
  }

  lemma EighthPoly(l: int, x: int, y: int)
    ensures x * (l * (2 * y)) == y * (2 * (l * x))
    ensures x * (3 * (x * x)) == 3 * (x * (x * x)) && 3 * (y * y) == y * (3 * y)
  {
  }

  lemma EighthSum(l: int, x: int, x': int, y: int)
    ensures 8 * (l * (x - x') - y) == l * (8 * x - 2 * (4 * x')) - 8 * y
    ensures l * (6 * x) == 3 * (2 * (l * x)) && 3 * (3 * y) == 9 * y
  {
  }

  /** Addition of points with different x. */
  method AddIncomplete(E: Curve, cs: ConstraintSystem, P: FinitePoint, Q: FinitePoint, ghost k: int, ghost l: int)
    returns (R: FinitePoint)
    requires Supported(E, cs)
    modifies cs
    ensures cs.Sat() ==> old(cs.Sat())
    ensures cs.Sat() && ShowsFinite(E, cs.w, P.x, P.y, k) && ShowsFinite(E, cs.w, Q.x, Q.y, l) && E.X(k) != E.X(l)
      ==> ShowsFinite(E, cs.w, R.x, R.y, Mod(k + l, E.r))
    ensures cs.Sat() && AtOrigin(cs.w, P, cs.p) && OnCusp(cs.w, Q, cs.p) && !Cong(cs.w(Q.y), 0, cs.p)
      ==> AtOrigin(cs.w, R, cs.p)
    ensures cs.honest ==> old(cs.honest) && (old(cs.Sat()) && !Cong(cs.w(Q.x), cs.w(P.x), cs.p) ==> cs.Sat())
  {
    hide Mod, EvalLc, IsCurve, ShowsFinite, ThirdValues, Holds, SafeInv, OnCusp, AtOrigin;
    ghost var u, v := cs.w(Q.x) - cs.w(P.x), cs.w(Q.y) - cs.w(P.y);
    var lam := cs.Alloc(if Cong(cs.w(Q.x), cs.w(P.x), cs.p) then 1 else v * SafeInv(u, cs.p));
    var dx, dy := Add(Term(1, Q.x), -1, P.x), Add(Term(1, Q.y), -1, P.y);
    cs.Enforce(Term(1, lam), dx, dy);
    EvalOne(1, lam, cs.w);
    EvalTwo(1, Q.x, -1, P.x, cs.w);
    EvalTwo(1, Q.y, -1, P.y, cs.w);
    HoldsIff(Constraint(Term(1, lam), dx, dy), cs.w, cs.w(lam), u, v, cs.p);
    if !Cong(cs.w(Q.x), cs.w(P.x), cs.p) {
      CurveField(E);
      DifferenceNonZero(cs.w(Q.x), cs.w(P.x), cs.p);
      SlopeSolves(cs.w(lam), v, u, v * SafeInv(u, cs.p), cs.p);
    }
    var x, y := EnforceThird(cs, lam, P.x, P.y, Q.x);
    R := FinitePoint(x, y);
    if cs.Sat() && ShowsFinite(E, cs.w, P.x, P.y, k) && ShowsFinite(E, cs.w, Q.x, Q.y, l) && E.X(k) != E.X(l) {
      ChordShows(E, cs.w, P, Q, R, k, l, cs.w(lam));
    }
    if cs.Sat() && AtOrigin(cs.w, P, cs.p) && OnCusp(cs.w, Q, cs.p) && !Cong(cs.w(Q.y), 0, cs.p) {
      CurveField(E);
      OriginAbsorbs(cs.w, P, Q, R, cs.w(lam), cs.p);
    }
  }

  /** The quotient n / d solves slope * d = n. */
  lemma SlopeSolves(slope: int, n: int, d: int, q: int, p: Modulus)
    requires Prime(p) && !Cong(d, 0, p) && q == n * SafeInv(d, p)
    ensures Cong(slope, q, p) ==> Cong(slope * d, n, p)
  {
    hide Mod, SafeInv;
    var i := SafeInv(d, p);
    SafeInvCancels(d, p);
    if Cong(slope, q, p) {
      CongMul(slope, q, d, d, p);
      CongScale(n, i * d, 1, p);
      assert (n * i) * d == n * (i * d);
    }
  }

  lemma ChordShows(E: Curve, w: Assignment, P: FinitePoint, Q: FinitePoint, R: FinitePoint, k: int, l: int, lam: int)
    requires IsCurve(E) && ShowsFinite(E, w, P.x, P.y, k) && ShowsFinite(E, w, Q.x, Q.y, l) && E.X(k) != E.X(l)
    requires Cong(lam * (w(Q.x) - w(P.x)), w(Q.y) - w(P.y), E.q)
    requires ThirdValues(lam, w(P.x), w(P.y), w(Q.x), w(R.x), w(R.y), E.q)
    ensures ShowsFinite(E, w, R.x, R.y, Mod(k + l, E.r))
  {
    hide Mod, IsCurve, Third, ThirdValues;
    var q := E.q;
    CongSub(w(Q.x), E.X(l), w(P.x), E.X(k), q);
    CongSub(w(Q.y), E.Y(l), w(P.y), E.Y(k), q);
    CongScale(lam, w(Q.x) - w(P.x), E.X(l) - E.X(k), q);
    ChordLaw(E, l, k, lam);
    ThirdShows(E, w, R.x, R.y, lam, w(P.x), w(P.y), w(Q.x), l, k, Mod(l + k, E.r));
  }

  /** The tangent's numerator 3 x^2 + a, as the constraint writes it for the two supported values of a. */
  function Numerator(a: int, xSq: Variable): Lc {
    if a == -3 then Add(Add(Add(Term(-1, ONE), -1, ONE), -1, ONE), 3, xSq) else Term(3, xSq)
  }

  lemma NumeratorIsOf(a: int, xSq: Variable, w: Assignment, p: Modulus)
    requires (a == -3 || a == 0) && Cong(w(ONE), 1, p)
    ensures Cong(EvalLc(Numerator(a, xSq), w), 3 * w(xSq) + a, p)
  {
    hide Mod;
    var o, s := w(ONE), w(xSq);
    if a == -3 {
      EvalThree(-1, ONE, -1, ONE, -1, ONE, w);
      assert EvalLc(Numerator(a, xSq), w) == -1 * o + -1 * o + -1 * o + 3 * s;
      CongScale(-3, o, 1, p);
      CongSum(EvalLc(Numerator(a, xSq), w), 3 * s + a, -3 * o, -3 * 1, 3 * s, 3 * s, p);
    } else {
      EvalOne(3, xSq, w);
    }
  }

  lemma NumeratorValue(a: int, xSq: Variable, x: int, w: Assignment, p: Modulus)
    requires (a == -3 || a == 0) && Cong(w(ONE), 1, p) && Cong(x * x, w(xSq), p)
    ensures Cong(EvalLc(Numerator(a, xSq), w), 3 * (x * x) + a, p)
  {
    hide Mod, EvalLc, Numerator;
    NumeratorIsOf(a, xSq, w, p);
    CongScale(3, x * x, w(xSq), p);
    CongAdd(3 * (x * x), 3 * w(xSq), a, a, p);
  }

  /** Doubling of a point that is not infinity. */
  method DoubleIncomplete(E: Curve, cs: ConstraintSystem, P: FinitePoint, ghost k: int) returns (R: FinitePoint)
    requires Supported(E, cs)
    modifies cs
    ensures cs.Sat() ==> old(cs.Sat())
    ensures cs.Sat() && ShowsFinite(E, cs.w, P.x, P.y, k) ==> ShowsFinite(E, cs.w, R.x, R.y, Mod(k + k, E.r))
    ensures cs.Sat() && E.a == -3 ==> !AtOrigin(cs.w, P, cs.p)
    ensures cs.Sat() && E.a == 0 && OnCusp(cs.w, P, cs.p)
      ==> OnCusp(cs.w, R, cs.p) && (!Cong(cs.w(P.y), 0, cs.p) ==> !Cong(cs.w(R.y), 0, cs.p))
    ensures cs.honest ==> old(cs.honest) && (old(cs.Sat()) && !Cong(2 * cs.w(P.y), 0, cs.p) ==> cs.Sat())
    ensures cs.honest && old(cs.Sat()) && E.a == 0 && AtOrigin(cs.w, P, cs.p) ==> cs.Sat() && !Cong(cs.w(R.y), 0, cs.p)
  {
    hide Mod, EvalLc, IsCurve, ShowsFinite, ThirdValues, Numerator, OnCusp;
    var lam := EnforceSlope(E, cs, P);
    var x, y := EnforceThird(cs, lam, P.x, P.y, P.x);
    R := FinitePoint(x, y);
    CurveField(E);
    if cs.Sat() {
      if ShowsFinite(E, cs.w, P.x, P.y, k) {
        TangentShows(E, cs.w, P, R, k, cs.w(lam));
      }
      if E.a == 0 && OnCusp(cs.w, P, cs.p) {
        CuspDoubles(cs.w, P, R, cs.w(lam), cs.p);
      }
      if AtOrigin(cs.w, P, cs.p) {
        OriginHasNoTangent(E.a, cs.w(lam), cs.w(P.x), cs.w(P.y), cs.p);
        if Cong(cs.w(lam), 1, cs.p) {
          HonestFromOrigin(cs.w, P, R, cs.w(lam), cs.p);
        }
      }
    }
  }

  /** The tangent's slope: 2 y lam = 3 x^2 + a. */
  method EnforceSlope(E: Curve, cs: ConstraintSystem, P: FinitePoint) returns (lam: Variable)
    requires Supported(E, cs)
    modifies cs
    ensures cs.Sat() ==> old(cs.Sat()) && Cong(cs.w(lam) * (2 * cs.w(P.y)), 3 * (cs.w(P.x) * cs.w(P.x)) + E.a, cs.p)
    ensures cs.honest ==> old(cs.honest) && (old(cs.Sat()) && !Cong(2 * cs.w(P.y), 0, cs.p) ==> cs.Sat())
    ensures cs.honest && old(cs.Sat()) && E.a == 0 && AtOrigin(cs.w, P, cs.p) ==> cs.Sat() && Cong(cs.w(lam), 1, cs.p)
  {
    hide Mod, EvalLc, IsCurve, Numerator, Holds, SafeInv;
    CurveField(E);
    var xSq := Multiply(cs, P.x, P.x);
    var num := EvalLc(Numerator(E.a, xSq), cs.w);
    ghost var before := cs.Sat();
    ghost var d, n := 2 * cs.w(P.y), 3 * cs.w(xSq) + E.a;
    var lam' := cs.Alloc(if Cong(d, 0, cs.p) then 1 else n * SafeInv(d, cs.p));
    lam := lam';
    cs.Enforce(Term(1, lam), Term(2, P.y), Numerator(E.a, xSq));
    EvalOne(1, lam, cs.w);
    EvalOne(2, P.y, cs.w);
    HoldsIff(Constraint(Term(1, lam), Term(2, P.y), Numerator(E.a, xSq)), cs.w, cs.w(lam), d, num, cs.p);
    if before {
      NumeratorIsOf(E.a, xSq, cs.w, cs.p);
      NumeratorValue(E.a, xSq, cs.w(P.x), cs.w, cs.p);
      if !Cong(d, 0, cs.p) {
        SlopeSolves(cs.w(lam), n, d, n * SafeInv(d, cs.p), cs.p);
      }
      if E.a == 0 && AtOrigin(cs.w, P, cs.p) {
        ZeroSlopeHolds(cs.w(lam), cs.w(P.x), cs.w(P.y), num, cs.p);
      }
    }
  }

  /** At (0, 0) with a = 0 the slope is free. */
  lemma ZeroSlopeHolds(lam: int, x: int, y: int, num: int, p: Modulus)
    requires Cong(x, 0, p) && Cong(y, 0, p) && Cong(num, 3 * (x * x) + 0, p)
    ensures Cong(2 * y, 0, p) && Cong(lam * (2 * y), num, p)
  {
    hide Mod;
    ZeroProduct(y, 2, p);
    ZeroProduct(2 * y, lam, p);
    ZeroProduct(x, x, p);
    ZeroProduct(x * x, 3, p);
  }

  /** With slope 1 the double of (0, 0) is (1, -1). */
  lemma HonestFromOrigin(w: Assignment, P: FinitePoint, R: FinitePoint, lam: int, p: Modulus)
    requires p > 3 && AtOrigin(w, P, p) && Cong(lam, 1, p) &&
             ThirdValues(lam, w(P.x), w(P.y), w(P.x), w(R.x), w(R.y), p)
    ensures Cong(w(R.x), 1, p) && Cong(w(R.y), -1, p) && !Cong(w(R.y), 0, p)
  {
    ZeroIsNotOne(p);
    hide Mod;
    FromOrigin(lam, w(P.x), w(P.y), w(R.x), w(R.y), p);
    CongMul(lam, 1, lam, 1, p);
    CongMul(lam, 1, lam * lam, 1, p);
    var c := lam * (lam * lam);
    CongSub(0, 0, c, 1, p);
    if Cong(w(R.y), 0, p) {
      CongSub(0, 0, w(R.y), 0, p);
      CongSub(0, 0, w(R.y), -1, p);
    }
  }

  lemma TwiceYNonZero(E: Curve, w: Assignment, P: FinitePoint, k: int)
    requires IsCurve(E) && ShowsFinite(E, w, P.x, P.y, k)
    ensures !Cong(2 * w(P.y), 0, E.q)
  {
    assert Mod(0, E.q) == 0;
    hide Mod, IsCurve;
    DoubleYNonZero(E, k);
    CongScale(2, w(P.y), E.Y(k), E.q);
  }

  lemma TangentShows(E: Curve, w: Assignment, P: FinitePoint, R: FinitePoint, k: int, lam: int)
    requires IsCurve(E) && ShowsFinite(E, w, P.x, P.y, k)
    requires Cong(lam * (2 * w(P.y)), 3 * (w(P.x) * w(P.x)) + E.a, E.q)
    requires ThirdValues(lam, w(P.x), w(P.y), w(P.x), w(R.x), w(R.y), E.q)
    ensures ShowsFinite(E, w, R.x, R.y, Mod(k + k, E.r))
  {
    hide Mod, IsCurve, Third, ThirdValues;
    var q := E.q;
    TangentValue(lam, w(P.x), E.X(k), w(P.y), E.Y(k), E.a, q);
    TangentLaw(E, k, lam);
    ThirdShows(E, w, R.x, R.y, lam, w(P.x), w(P.y), w(P.x), k, k, Mod(k + k, E.r));
  }

  lemma TangentValue(lam: int, x: int, x': int, y: int, y': int, a: int, p: Modulus)
    requires Cong(x, x', p) && Cong(y, y', p) && Cong(lam * (2 * y), 3 * (x * x) + a, p)
    ensures Cong(lam * (2 * y'), 3 * (x' * x') + a, p)
  {
    hide Mod;
    CongScale(2, y, y', p);
    CongScale(lam, 2 * y, 2 * y', p);
    CongMul(x, x', x, x', p);
    CongScale(3, x * x, x' * x', p);
    CongAdd(3 * (x * x), 3 * (x' * x'), a, a, p);
  }

  /** At (0, 0) the tangent's constraint reads 0 = -3, so the circuit rejects infinity when a = -3. */
  lemma OriginHasNoTangent(a: int, lam: int, x: int, y: int, p: Modulus)
    requires p > 3 && Cong(lam * (2 * y), 3 * (x * x) + a, p)
    ensures a == -3 ==> !Cong(x, 0, p) || !Cong(y, 0, p)
  {
    hide Mod;
    if a == -3 && Cong(x, 0, p) && Cong(y, 0, p) {
      TangentValue(lam, x, 0, y, 0, a, p);
      assert lam * (2 * 0) == 0;
      ThreeNotZero(p);
      assert false;
    }
  }

  lemma ThreeNotZero(p: Modulus)
    requires p > 3
    ensures !Cong(0, 3 * (0 * 0) + -3, p)
  {
    assert Mod(-3 + p, p) == p - 3 && Mod(0, p) == 0;
  }

  // ---------- complete formulas ----------

  /** One operand is infinity and the other a finite point with x = 0, the value infinity carries. */
  predicate Clash(E: Curve, k: int, l: int) {
    (k == 0 && Finite(E, l) && E.X(l) == 0) || (l == 0 && Finite(E, k) && E.X(k) == 0)
  }

  /** What the addition gadget computes. */
  function Added(E: Curve, k: int, l: int): int {
    if Clash(E, k, l) then 0 else Mod(k + l, E.r)
  }

  /** The x coordinate that infinity or the point k carries; likewise y. */
  function CarriedX(E: Curve, k: int): int {
    if k == 0 then 0 else E.X(k)
  }

  function CarriedY(E: Curve, k: int): int {
    if k == 0 then 0 else E.Y(k)
  }

  lemma ShowsCarried(E: Curve, w: Assignment, P: AllocatedPoint, k: int)
    requires Shows(E, w, P, k)
    ensures Cong(w(P.x), CarriedX(E, k), E.q) && Cong(w(P.y), CarriedY(E, k), E.q) &&
            Cong(w(P.inf), if k == 0 then 1 else 0, E.q)
    ensures k == 0 || Finite(E, k)
  {
  }

  method Negate(E: Curve, cs: ConstraintSystem, P: AllocatedPoint, ghost k: int) returns (R: AllocatedPoint)
    requires IsCurve(E) && cs.p == E.q
    modifies cs
    ensures cs.Sat() ==> old(cs.Sat())
    ensures cs.Sat() && Shows(E, cs.w, P, k) ==> Shows(E, cs.w, R, if k == 0 then 0 else E.r - k)
    ensures R.x == P.x && R.inf == P.inf
    ensures cs.honest ==> old(cs.honest) && (old(cs.Sat()) ==> cs.Sat())
  {
    hide Mod, EvalLc, IsCurve, Holds;
    var y := cs.Alloc(0 - cs.w(P.y));
    cs.Enforce(Term(1, P.y), Term(1, ONE), Term(-1, y));
    R := AllocatedPoint(P.x, y, P.inf);
    EvalOne(1, P.y, cs.w);
    EvalOne(1, ONE, cs.w);
    EvalOne(-1, y, cs.w);
    HoldsIff(Constraint(Term(1, P.y), Term(1, ONE), Term(-1, y)), cs.w, cs.w(P.y), cs.w(ONE), -cs.w(y), cs.p);
    if Cong(cs.w(ONE), 1, cs.p) {
      HonestNegation(cs.w(P.y), cs.w(ONE), cs.w(y), cs.p);
    }
    if cs.Sat() && Shows(E, cs.w, P, k) {
      NegatedY(cs.w(P.y), cs.w(ONE), cs.w(y), CarriedY(E, k), cs.p);
      if k != 0 {
        Coordinates(E, k);
      }
    }
  }

  lemma HonestNegation(y: int, o: int, v: int, p: Modulus)
    requires Cong(o, 1, p)
    ensures Cong(v, 0 - y, p) ==> Cong(y * o, -v, p)
  {
    hide Mod;
    CongScale(y, o, 1, p);
    if Cong(v, 0 - y, p) {
      CongSub(0, 0, v, 0 - y, p);
      CongSame(0 - v, 0 - (0 - y), -v, y, p);
    }
  }

  lemma NegatedY(y: int, o: int, v: int, y0: int, p: Modulus)
    requires Cong(y * o, -v, p) && Cong(o, 1, p) && Cong(y, y0, p)
    ensures Cong(v, -y0, p)
  {
    hide Mod;
    CongMul(y, y0, o, 1, p);
    CongSub(0, 0, -v, y0 * 1, p);
    CongSame(0 - -v, 0 - y0 * 1, v, -y0, p);
  }

  /** (1 - a)(1 - b) = 1 - c makes c the disjunction of two bits. */
  lemma Disjunction(o: int, a: int, b: int, c: int, p: Modulus)
    requires Cong(o, 1, p) && Cong((o - a) * (o - b), o - c, p)
    ensures Cong(a, 1, p) || Cong(b, 1, p) ==> Cong(c, 1, p)
    ensures Cong(a, 0, p) && Cong(b, 0, p) ==> Cong(c, 0, p)
  {
    hide Mod;
    OneMinus(o, a, p);
    OneMinus(o, b, p);
    OneMinus(o, c, p);
    if Cong(a, 1, p) {
      CongMul(o - a, 0, o - b, o - b, p);
    } else if Cong(b, 1, p) {
      CongMul(o - a, o - a, o - b, 0, p);
      assert (o - a) * 0 == 0;
    }
    if Cong(a, 0, p) && Cong(b, 0, p) {
      CongMul(o - a, 1, o - b, 1, p);
    }
  }

  /** The value 1 - (1 - a)(1 - b) satisfies the constraint. */
  lemma DisjunctionHonest(o: int, a: int, b: int, c: int, p: Modulus)
    requires Cong(o, 1, p)
    ensures Cong(c, 1 - (1 - a) * (1 - b), p) ==> Cong((o - a) * (o - b), o - c, p)
  {
    hide Mod;
    CongSub(o, 1, a, a, p);
    CongSub(o, 1, b, b, p);
    CongMul(o - a, 1 - a, o - b, 1 - b, p);
    if Cong(c, 1 - (1 - a) * (1 - b), p) {
      CongSub(o, 1, c, 1 - (1 - a) * (1 - b), p);
    }
  }

  /** For a bit b, "1 if b else a" is that value. */
  lemma ShortDisjunction(a: int, b: int, c: int, p: Modulus)
    requires Cong(b, 0, p) || Cong(b, 1, p)
    ensures Cong(c, Chosen(b, 1, a, p), p) ==> Cong(c, 1 - (1 - a) * (1 - b), p)
  {
    ZeroIsNotOne(p);
    hide Mod;
    OneMinus(1, b, p);
    if Cong(b, 1, p) {
      CongScale(1 - a, 1 - b, 0, p);
      CongSub(1, 1, (1 - a) * (1 - b), (1 - a) * 0, p);
      assert (1 - a) * 0 == 0;
    } else {
      CongScale(1 - a, 1 - b, 1, p);
      CongSub(1, 1, (1 - a) * (1 - b), (1 - a) * 1, p);
    }
  }

  /** All three flags are bits, and equalX compares the x coordinates. */
  ghost predicate ProperFlags(w: Assignment, P: AllocatedPoint, Q: AllocatedPoint, equalX: Variable, p: Modulus) {
    IsBit(w, P.inf, p) && IsBit(w, Q.inf, p) && IsBit(w, equalX, p) &&
    (Cong(w(equalX), 1, p) <==> Cong(w(P.x), w(Q.x), p))
  }

  /** A bit that is 1 when the chord formula does not apply. */
  ghost predicate FlagIs(w: Assignment, P: AllocatedPoint, Q: AllocatedPoint, equalX: Variable, flag: Variable,
                         p: Modulus) {
    (Cong(w(P.inf), 0, p) && Cong(w(Q.inf), 0, p) && Cong(w(equalX), 0, p) ==> Cong(w(flag), 0, p)) &&
    (Cong(w(P.inf), 1, p) || Cong(w(Q.inf), 1, p) || Cong(w(equalX), 1, p) ==> Cong(w(flag), 1, p))
  }

  /** The flag that makes x_diff a harmless 1: a point is infinite, or the x are equal. */
  method HarmlessFlag(cs: ConstraintSystem, P: AllocatedPoint, Q: AllocatedPoint, equalX: Variable)
    returns (flag: Variable)
    modifies cs
    ensures cs.Sat() ==> old(cs.Sat()) && FlagIs(cs.w, P, Q, equalX, flag, cs.p)
    ensures cs.honest ==> old(cs.honest) && (old(cs.Sat()) && IsBit(cs.w, equalX, cs.p) ==> cs.Sat())
  {
    hide Mod, EvalLc, Holds, Chosen;
    ghost var i, j, e := cs.w(P.inf), cs.w(Q.inf), cs.w(equalX);
    var one := cs.Alloc(1 - (1 - i) * (1 - j));
    cs.Enforce(Add(Term(1, ONE), -1, P.inf), Add(Term(1, ONE), -1, Q.inf), Add(Term(1, ONE), -1, one));
    flag := cs.Alloc(Chosen(e, 1, cs.w(one), cs.p));
    cs.Enforce(Add(Term(1, ONE), -1, one), Add(Term(1, ONE), -1, equalX), Add(Term(1, ONE), -1, flag));
    EvalTwo(1, ONE, -1, P.inf, cs.w);
    EvalTwo(1, ONE, -1, Q.inf, cs.w);
    EvalTwo(1, ONE, -1, one, cs.w);
    EvalTwo(1, ONE, -1, equalX, cs.w);
    EvalTwo(1, ONE, -1, flag, cs.w);
    var o := cs.w(ONE);
    HoldsIff(Constraint(Add(Term(1, ONE), -1, P.inf), Add(Term(1, ONE), -1, Q.inf), Add(Term(1, ONE), -1, one)), cs.w,
             o - i, o - j, o - cs.w(one), cs.p);
    HoldsIff(Constraint(Add(Term(1, ONE), -1, one), Add(Term(1, ONE), -1, equalX), Add(Term(1, ONE), -1, flag)), cs.w,
             o - cs.w(one), o - e, o - cs.w(flag), cs.p);
    if Cong(o, 1, cs.p) {
      DisjunctionHonest(o, i, j, cs.w(one), cs.p);
      DisjunctionHonest(o, cs.w(one), e, cs.w(flag), cs.p);
      if IsBit(cs.w, equalX, cs.p) {
        ShortDisjunction(cs.w(one), e, cs.w(flag), cs.p);
      }
    }
    if cs.Sat() {
      Disjunction(o, i, j, cs.w(one), cs.p);
      Disjunction(o, cs.w(one), e, cs.w(flag), cs.p);
    }
  }

  /** self.inf ? b : (other.inf ? a : v), for one coordinate. */
  method Route(cs: ConstraintSystem, a: Variable, b: Variable, v: Variable, P: AllocatedPoint, Q: AllocatedPoint)
    returns (out: Variable)
    modifies cs
    ensures cs.Sat() ==> old(cs.Sat()) && Routed(cs.w, a, b, v, P, Q, out, cs.p)
    ensures cs.honest ==> old(cs.honest) && (old(cs.Sat()) && IsBit(cs.w, P.inf, cs.p) && IsBit(cs.w, Q.inf, cs.p)
                                             ==> cs.Sat())
  {
    hide Mod;
    var first := ConditionallySelect(cs, a, v, Q.inf);
    out := ConditionallySelect(cs, b, first, P.inf);
  }

  ghost predicate Routed(w: Assignment, a: Variable, b: Variable, v: Variable, P: AllocatedPoint, Q: AllocatedPoint,
                         out: Variable, p: Modulus) {
    (Cong(w(P.inf), 1, p) ==> Cong(w(out), w(b), p)) &&
    (Cong(w(P.inf), 0, p) && Cong(w(Q.inf), 1, p) ==> Cong(w(out), w(a), p)) &&
    (Cong(w(P.inf), 0, p) && Cong(w(Q.inf), 0, p) ==> Cong(w(out), w(v), p))
  }

  /** The flag of the sum, when the x differ: infinite only if both are. */
  method RouteFlag(cs: ConstraintSystem, P: AllocatedPoint, Q: AllocatedPoint) returns (out: Variable)
    modifies cs
    ensures cs.Sat() ==> old(cs.Sat()) &&
                         (Cong(cs.w(P.inf), 1, cs.p) ==> Cong(cs.w(out), cs.w(Q.inf), cs.p)) &&
                         (Cong(cs.w(P.inf), 0, cs.p) && IsBit(cs.w, Q.inf, cs.p) ==> Cong(cs.w(out), 0, cs.p))
    ensures cs.honest ==> old(cs.honest) && (old(cs.Sat()) && IsBit(cs.w, P.inf, cs.p) && IsBit(cs.w, Q.inf, cs.p)
                                             ==> cs.Sat())
  {
    hide Mod;
    var first := SelectNumOrZero(cs, P.inf, Q.inf);
    out := ConditionallySelect(cs, Q.inf, first, P.inf);
  }

  /** The chord formula applies, or is not needed. */
  ghost predicate Summable(E: Curve, k: int, l: int) {
    k != 0 && l != 0 ==> E.X(k) != E.X(l)
  }

  /** The slope constraint, with an x difference that is a harmless 1 where the chord does not apply. */
  method EnforceChord(cs: ConstraintSystem, P: AllocatedPoint, Q: AllocatedPoint, equalX: Variable)
    returns (lam: Variable, flag: Variable, xDiff: Variable)
    requires Prime(cs.p)
    modifies cs
    ensures cs.Sat() ==> old(cs.Sat()) && FlagIs(cs.w, P, Q, equalX, flag, cs.p) &&
                         Picks(cs.w(xDiff), cs.w(flag), 1, cs.w(Q.x) - cs.w(P.x), cs.p) &&
                         Cong(cs.w(lam) * cs.w(xDiff), cs.w(Q.y) - cs.w(P.y), cs.p)
    ensures cs.honest ==> old(cs.honest) && (old(cs.Sat()) && ProperFlags(cs.w, P, Q, equalX, cs.p) ==> cs.Sat())
  {
    hide Mod, EvalLc, Holds, SafeInv;
    flag := HarmlessFlag(cs, P, Q, equalX);
    ghost var flagged := cs.Sat();
    xDiff := SelectOneOrDiff(cs, Q.x, P.x, flag);
    ghost var d, n := cs.w(Q.x) - cs.w(P.x), cs.w(Q.y) - cs.w(P.y);
    lam := cs.Alloc(n * (if Cong(cs.w(flag), 1, cs.p) then 1 else SafeInv(d, cs.p)));
    ghost var before := cs.Sat();
    var dy := Add(Term(1, Q.y), -1, P.y);
    cs.Enforce(Term(1, lam), Term(1, xDiff), dy);
    EvalOne(1, lam, cs.w);
    EvalOne(1, xDiff, cs.w);
    EvalTwo(1, Q.y, -1, P.y, cs.w);
    HoldsIff(Constraint(Term(1, lam), Term(1, xDiff), dy), cs.w, cs.w(lam), cs.w(xDiff), n, cs.p);
    if before && ProperFlags(cs.w, P, Q, equalX, cs.p) {
      ChordHonest(cs.w, P, Q, equalX, flag, xDiff, cs.w(lam), d, n, cs.p);
    }
    if flagged && ProperFlags(cs.w, P, Q, equalX, cs.p) {
      FlagIsBit(cs.w, P, Q, equalX, flag, cs.p);
    }
  }

  lemma FlagIsBit(w: Assignment, P: AllocatedPoint, Q: AllocatedPoint, equalX: Variable, flag: Variable, p: Modulus)
    requires ProperFlags(w, P, Q, equalX, p) && FlagIs(w, P, Q, equalX, flag, p)
    ensures IsBit(w, flag, p)
    ensures Cong(w(flag), 1, p) || !Cong(w(Q.x), w(P.x), p)
  {
    hide Mod;
  }

  lemma ChordHonest(w: Assignment, P: AllocatedPoint, Q: AllocatedPoint, equalX: Variable, flag: Variable,
                    xDiff: Variable, lam: int, d: int, n: int,
                    p: Modulus)
    requires Prime(p) && ProperFlags(w, P, Q, equalX, p) && FlagIs(w, P, Q, equalX, flag, p) && d == w(Q.x) - w(P.x)
    requires Picks(w(xDiff), w(flag), 1, d, p)
    ensures Cong(lam, n * (if Cong(w(flag), 1, p) then 1 else SafeInv(d, p)), p) ==> Cong(lam * w(xDiff), n, p)
  {
    hide Mod, SafeInv;
    FlagIsBit(w, P, Q, equalX, flag, p);
    var q := n * (if Cong(w(flag), 1, p) then 1 else SafeInv(d, p));
    if Cong(lam, q, p) {
      if Cong(w(flag), 1, p) {
        CongMul(lam, n * 1, w(xDiff), 1, p);
      } else {
        DifferenceNonZero(w(Q.x), w(P.x), p);
        SlopeSolves(lam, n, d, q, p);
        CongScale(lam, w(xDiff), d, p);
      }
    }
  }

  /** Sum of two points with different x, or of any point and infinity. */
  method AddInternal(E: Curve, cs: ConstraintSystem, P: AllocatedPoint, Q: AllocatedPoint, equalX: Variable,
                     ghost k: int, ghost l: int)
    returns (R: AllocatedPoint)
    requires Supported(E, cs)
    modifies cs
    ensures cs.Sat() ==> old(cs.Sat())
    ensures cs.Sat() && Shows(E, cs.w, P, k) && Shows(E, cs.w, Q, l) && Cong(cs.w(equalX), 0, cs.p) && Summable(E, k, l)
      ==> Shows(E, cs.w, R, Mod(k + l, E.r))
    ensures cs.Sat() && Cong(cs.w(P.inf), 1, cs.p) ==> SameValues(cs.w, R, Q, cs.p)
    ensures cs.honest ==> old(cs.honest) && (old(cs.Sat()) && ProperFlags(cs.w, P, Q, equalX, cs.p) ==> cs.Sat())
  {
    hide Mod, EvalLc, IsCurve, Shows, ThirdValues, Routed, SameValues;
    CurveField(E);
    var lam, flag, xDiff := EnforceChord(cs, P, Q, equalX);
    var x0, y0 := EnforceThird(cs, lam, P.x, P.y, Q.x);
    var x := Route(cs, P.x, Q.x, x0, P, Q);
    var y := Route(cs, P.y, Q.y, y0, P, Q);
    var inf := RouteFlag(cs, P, Q);
    R := AllocatedPoint(x, y, inf);
    if cs.Sat() && Shows(E, cs.w, P, k) && Shows(E, cs.w, Q, l) && Cong(cs.w(equalX), 0, cs.p) && Summable(E, k, l) {
      SumShows(E, cs.w, P, Q, R, x0, y0, flag, equalX, xDiff, cs.w(lam), k, l);
    }
    if cs.Sat() && Cong(cs.w(P.inf), 1, cs.p) {
      RoutedToOther(cs.w, P, Q, R, x0, y0, cs.p);
    }
  }

  ghost predicate SameValues(w: Assignment, R: AllocatedPoint, Q: AllocatedPoint, p: Modulus) {
    Cong(w(R.x), w(Q.x), p) && Cong(w(R.y), w(Q.y), p) && Cong(w(R.inf), w(Q.inf), p)
  }

  lemma RoutedToOther(w: Assignment, P: AllocatedPoint, Q: AllocatedPoint, R: AllocatedPoint, x0: Variable,
                      y0: Variable, p: Modulus)
    requires Cong(w(P.inf), 1, p) && Cong(w(R.inf), w(Q.inf), p)
    requires Routed(w, P.x, Q.x, x0, P, Q, R.x, p) && Routed(w, P.y, Q.y, y0, P, Q, R.y, p)
    ensures SameValues(w, R, Q, p)
  {
    hide Mod;
  }

  lemma SumShows(E: Curve, w: Assignment, P: AllocatedPoint, Q: AllocatedPoint, R: AllocatedPoint, x0: Variable,
                 y0: Variable,
                 flag: Variable, equalX: Variable, xDiff: Variable, lam: int, k: int, l: int)
    requires IsCurve(E) && Shows(E, w, P, k) && Shows(E, w, Q, l) && Summable(E, k, l)
    requires Cong(w(equalX), 0, E.q)
    requires FlagIs(w, P, Q, equalX, flag, E.q)
    requires Picks(w(xDiff), w(flag), 1, w(Q.x) - w(P.x), E.q) && Cong(lam * w(xDiff), w(Q.y) - w(P.y), E.q)
    requires ThirdValues(lam, w(P.x), w(P.y), w(Q.x), w(x0), w(y0), E.q)
    requires Routed(w, P.x, Q.x, x0, P, Q, R.x, E.q) && Routed(w, P.y, Q.y, y0, P, Q, R.y, E.q)
    requires Cong(w(P.inf), 1, E.q) ==> Cong(w(R.inf), w(Q.inf), E.q)
    requires Cong(w(P.inf), 0, E.q) && IsBit(w, Q.inf, E.q) ==> Cong(w(R.inf), 0, E.q)
    ensures Shows(E, w, R, Mod(k + l, E.r))
  {
    hide Mod, IsCurve, ThirdValues;
    if k == 0 {
      SmallIndex(E, l);
    } else if l == 0 {
      SmallIndex(E, k);
    } else {
      CongScale(lam, w(xDiff), w(Q.x) - w(P.x), E.q);
      ChordShows(E, w, FinitePoint(P.x, P.y), FinitePoint(Q.x, Q.y), FinitePoint(x0, y0), k, l, lam);
      FiniteNotZero(E, Mod(k + l, E.r));
    }
  }

  lemma SmallIndex(E: Curve, k: int)
    requires k == 0 || Finite(E, k)
    ensures Mod(k, E.r) == k && Mod(0 + k, E.r) == k && Mod(k + 0, E.r) == k
  {
  }

  lemma FiniteNotZero(E: Curve, k: int)
    ensures Finite(E, k) ==> k != 0
  {
  }

  /** The numerator 3 x^2 + a as a variable of its own. */
  method AllocNumerator(E: Curve, cs: ConstraintSystem, x: Variable) returns (n: Variable)
    requires Supported(E, cs)
    modifies cs
    ensures cs.Sat() ==> old(cs.Sat()) && Cong(cs.w(n), 3 * (cs.w(x) * cs.w(x)) + E.a, cs.p)
    ensures cs.honest ==> old(cs.honest) && (old(cs.Sat()) ==> cs.Sat())
  {
    hide Mod, EvalLc, IsCurve, Holds;
    n := cs.Alloc(3 * (cs.w(x) * cs.w(x)) + E.a);
    var rhs := if E.a == -3 then Add(Add(Add(Term(1, n), 1, ONE), 1, ONE), 1, ONE) else Term(1, n);
    cs.Enforce(Term(3, x), Term(1, x), rhs);
    EvalOne(3, x, cs.w);
    EvalOne(1, x, cs.w);
    var v, o, u := cs.w(n), cs.w(ONE), cs.w(x);
    EvalOne(1, n, cs.w);
    EvalThree(1, n, 1, ONE, 1, ONE, cs.w);
    assert E.a == -3 ==> EvalLc(rhs, cs.w) == v + o + o + o by {
      EvalLast(Add(Add(Term(1, n), 1, ONE), 1, ONE), 1, ONE, cs.w);
    }
    HoldsIff(Constraint(Term(3, x), Term(1, x), rhs), cs.w, 3 * u, u, EvalLc(rhs, cs.w), cs.p);
    if Cong(o, 1, cs.p) {
      NumeratorIs(E.a, u, v, o, EvalLc(rhs, cs.w), cs.p);
    }
  }

  lemma EvalLast(m: Lc, c: int, v: Variable, w: Assignment)
    ensures EvalLc(Add(m, c, v), w) == EvalLc(m, w) + c * w(v)
  {
  }

  lemma NumeratorIs(a: int, u: int, v: int, o: int, rhs: int, p: Modulus)
    requires (a == -3 || a == 0) && Cong(o, 1, p) && rhs == (if a == -3 then v + o + o + o else v)
    ensures Cong((3 * u) * u, rhs, p) <==> Cong(v, 3 * (u * u) + a, p)
  {
    hide Mod;
    assert (3 * u) * u == 3 * (u * u);
    if a == -3 {
      MoveSum((3 * u) * u, v, 3 * o, rhs, p);
      CongScale(3, o, 1, p);
      CongSub(3 * (u * u), 3 * (u * u), 3 * o, 3 * 1, p);
    }
  }

  /** The flag is a bit, and a finite point's y is not zero. */
  ghost predicate Doublable(w: Assignment, P: AllocatedPoint, p: Modulus) {
    IsBit(w, P.inf, p) && (Cong(w(P.inf), 1, p) || !Cong(2 * w(P.y), 0, p))
  }

  lemma ShowsDoublable(E: Curve, w: Assignment, P: AllocatedPoint, k: int)
    requires IsCurve(E) && Shows(E, w, P, k)
    ensures Doublable(w, P, E.q)
  {
    hide Mod, IsCurve;
    FlagOfShown(E, w, P, k);
    if k != 0 {
      TwiceYNonZero(E, w, FinitePoint(P.x, P.y), k);
    }
  }

  /** Doubling; infinity doubles to infinity. */
  method Double(E: Curve, cs: ConstraintSystem, P: AllocatedPoint, ghost k: int) returns (R: AllocatedPoint)
    requires Supported(E, cs)
    modifies cs
    ensures R.inf == P.inf
    ensures cs.Sat() ==> old(cs.Sat())
    ensures cs.Sat() && Shows(E, cs.w, P, k) ==> Shows(E, cs.w, R, Mod(k + k, E.r))
    ensures cs.Sat() && Cong(cs.w(P.inf), 1, cs.p) ==> Shows(E, cs.w, R, 0)
    ensures cs.honest ==> old(cs.honest) && (old(cs.Sat()) && Doublable(cs.w, P, cs.p) ==> cs.Sat())
  {
    hide Mod, EvalLc, IsCurve, ThirdValues;
    var lam, n, denom, actual := EnforceTangent(E, cs, P);
    var x0, y0 := EnforceThird(cs, lam, P.x, P.y, P.x);
    var x := SelectZeroOrNum(cs, x0, P.inf);
    var y := SelectZeroOrNum(cs, y0, P.inf);
    R := AllocatedPoint(x, y, P.inf);
    if Shows(E, cs.w, P, k) && cs.Sat() {
      DoubleShows(E, cs.w, P, R, x0, y0, cs.w(actual), cs.w(denom), cs.w(n), cs.w(lam), k);
    }
  }

  lemma FlagOfShown(E: Curve, w: Assignment, P: AllocatedPoint, k: int)
    requires Shows(E, w, P, k)
    ensures IsBit(w, P.inf, E.q) && (Cong(w(P.inf), 1, E.q) <==> k == 0)
  {
    ZeroIsNotOne(E.q);
    hide Mod;
  }

  /** The slope constraint of a doubling, with the denominator a harmless 1 at infinity. */
  method EnforceTangent(E: Curve, cs: ConstraintSystem, P: AllocatedPoint)
    returns (lam: Variable, n: Variable, denom: Variable, actual: Variable)
    requires Supported(E, cs)
    modifies cs
    ensures cs.Sat() ==> old(cs.Sat()) && Cong((cs.w(ONE) + cs.w(ONE)) * cs.w(P.y), cs.w(actual), cs.p) &&
                         Picks(cs.w(denom), cs.w(P.inf), 1, cs.w(actual), cs.p) &&
                         Cong(cs.w(denom) * cs.w(lam), cs.w(n), cs.p) &&
                         Cong(cs.w(n), 3 * (cs.w(P.x) * cs.w(P.x)) + E.a, cs.p)
    ensures cs.honest ==> old(cs.honest) && (old(cs.Sat()) && Doublable(cs.w, P, cs.p) ==> cs.Sat())
  {
    hide Mod, EvalLc, IsCurve, Holds, SafeInv, Chosen;
    actual := TwiceYOf(cs, P.y);
    denom := SelectOneOrNum(cs, actual, P.inf);
    n := AllocNumerator(E, cs, P.x);
    ghost var before := cs.Sat();
    lam := cs.Alloc(cs.w(n) * (if Cong(cs.w(P.inf), 1, cs.p) then 1 else SafeInv(cs.w(denom), cs.p)));
    cs.Enforce(Term(1, denom), Term(1, lam), Term(1, n));
    EvalOne(1, denom, cs.w);
    EvalOne(1, lam, cs.w);
    EvalOne(1, n, cs.w);
    HoldsIff(Constraint(Term(1, denom), Term(1, lam), Term(1, n)), cs.w, cs.w(denom), cs.w(lam), cs.w(n), cs.p);
    if Doublable(cs.w, P, cs.p) && before {
      CurveField(E);
      TangentHonest(cs.w, P, cs.w(actual), cs.w(denom), cs.w(n), cs.w(lam), cs.p);
    }
  }

  method TwiceYOf(cs: ConstraintSystem, y: Variable) returns (actual: Variable)
    modifies cs
    ensures cs.Sat() ==> old(cs.Sat()) && Cong((cs.w(ONE) + cs.w(ONE)) * cs.w(y), cs.w(actual), cs.p)
    ensures cs.honest ==> old(cs.honest) && (old(cs.Sat()) ==> cs.Sat())
  {
    hide Mod, EvalLc, Holds;
    actual := cs.Alloc(cs.w(y) + cs.w(y));
    cs.Enforce(Add(Term(1, ONE), 1, ONE), Term(1, y), Term(1, actual));
    EvalTwo(1, ONE, 1, ONE, cs.w);
    EvalOne(1, y, cs.w);
    EvalOne(1, actual, cs.w);
    var o := cs.w(ONE);
    HoldsIff(Constraint(Add(Term(1, ONE), 1, ONE), Term(1, y), Term(1, actual)), cs.w, o + o, cs.w(y), cs.w(actual),
             cs.p);
    if Cong(o, 1, cs.p) {
      CongAdd(o, 1, o, 1, cs.p);
      CongMul(o + o, 2, cs.w(y), cs.w(y), cs.p);
    }
  }

  lemma TangentHonest(w: Assignment, P: AllocatedPoint, actual: int, denom: int, n: int, lam: int, p: Modulus)
    requires Prime(p) && Doublable(w, P, p) && Cong(w(ONE), 1, p)
    requires Cong((w(ONE) + w(ONE)) * w(P.y), actual, p) && Picks(denom, w(P.inf), 1, actual, p)
    ensures Cong(lam, n * (if Cong(w(P.inf), 1, p) then 1 else SafeInv(denom, p)), p) ==> Cong(denom * lam, n, p)
  {
    hide Mod, SafeInv;
    var q := n * (if Cong(w(P.inf), 1, p) then 1 else SafeInv(denom, p));
    if Cong(lam, q, p) {
      assert denom * lam == lam * denom;
      if Cong(w(P.inf), 1, p) {
        CongMul(lam, n * 1, denom, 1, p);
      } else {
        var o, y := w(ONE), w(P.y);
        CongAdd(o, 1, o, 1, p);
        CongMul(o + o, 2, y, y, p);
        SlopeSolves(lam, n, denom, q, p);
      }
    }
  }

  lemma DoubleShows(E: Curve, w: Assignment, P: AllocatedPoint, R: AllocatedPoint, x0: Variable, y0: Variable,
                    actual: int, denom: int, n: int, lam: int, k: int)
    requires IsCurve(E) && Shows(E, w, P, k) && R.inf == P.inf && Cong(w(ONE), 1, E.q)
    requires Cong((w(ONE) + w(ONE)) * w(P.y), actual, E.q) && Picks(denom, w(P.inf), 1, actual, E.q)
    requires Cong(denom * lam, n, E.q) && Cong(n, 3 * (w(P.x) * w(P.x)) + E.a, E.q)
    requires ThirdValues(lam, w(P.x), w(P.y), w(P.x), w(x0), w(y0), E.q)
    requires Picks(w(R.x), w(P.inf), 0, w(x0), E.q) && Picks(w(R.y), w(P.inf), 0, w(y0), E.q)
    ensures Shows(E, w, R, Mod(k + k, E.r))
  {
    hide Mod, IsCurve, ThirdValues;
    if k == 0 {
      SmallIndex(E, 0);
    } else {
      TwiceY(w(ONE), w(P.y), actual, denom, lam, n, E.q);
      CongTo(lam * (2 * w(P.y)), n, n, E.q);
      TangentShows(E, w, FinitePoint(P.x, P.y), FinitePoint(x0, y0), k, lam);
      FiniteNotZero(E, Mod(k + k, E.r));
    }
  }

  lemma TwiceY(o: int, y: int, actual: int, denom: int, lam: int, n: int, p: Modulus)
    requires Cong(o, 1, p) && Cong((o + o) * y, actual, p) && Cong(denom, actual, p) && Cong(denom * lam, n, p)
    ensures Cong(lam * (2 * y), n, p)
  {
    hide Mod;
    CongAdd(o, 1, o, 1, p);
    CongMul(o + o, 2, y, y, p);
    CongMul(denom, 2 * y, lam, lam, p);
    assert (2 * y) * lam == lam * (2 * y);
  }

  method SelectPoint(cs: ConstraintSystem, P: AllocatedPoint, Q: AllocatedPoint, cond: Variable)
    returns (R: AllocatedPoint)
    modifies cs
    ensures cs.Sat() ==> old(cs.Sat()) && Picks(cs.w(R.x), cs.w(cond), cs.w(P.x), cs.w(Q.x), cs.p) &&
                         Picks(cs.w(R.y), cs.w(cond), cs.w(P.y), cs.w(Q.y), cs.p) &&
                         Picks(cs.w(R.inf), cs.w(cond), cs.w(P.inf), cs.w(Q.inf), cs.p)
    ensures cs.honest ==> old(cs.honest) && (old(cs.Sat()) && IsBit(cs.w, cond, cs.p) ==> cs.Sat())
  {
    hide Mod, Picks;
    var x := ConditionallySelect(cs, P.x, Q.x, cond);
    var y := ConditionallySelect(cs, P.y, Q.y, cond);
    var inf := ConditionallySelect(cs, P.inf, Q.inf, cond);
    R := AllocatedPoint(x, y, inf);
  }

  method SelectPointOrInfinity(cs: ConstraintSystem, P: AllocatedPoint, cond: Variable) returns (R: AllocatedPoint)
    modifies cs
    ensures cs.Sat() ==> old(cs.Sat()) && Picks(cs.w(R.x), cs.w(cond), cs.w(P.x), 0, cs.p) &&
                         Picks(cs.w(R.y), cs.w(cond), cs.w(P.y), 0, cs.p) &&
                         Picks(cs.w(R.inf), cs.w(cond), cs.w(P.inf), 1, cs.p)
    ensures cs.honest ==> old(cs.honest) && (old(cs.Sat()) && IsBit(cs.w, cond, cs.p) ==> cs.Sat())
  {
    hide Mod, Picks;
    var x := SelectNumOrZero(cs, P.x, cond);
    var y := SelectNumOrZero(cs, P.y, cond);
    var inf := SelectNumOrOne(cs, P.inf, cond);
    R := AllocatedPoint(x, y, inf);
  }

  /** Complete addition: any two points, equal, opposite or infinite, except for a clash at x = 0. */
  method AddPoints(E: Curve, cs: ConstraintSystem, P: AllocatedPoint, Q: AllocatedPoint, ghost k: int, ghost l: int)
    returns (R: AllocatedPoint)
    requires Supported(E, cs)
    modifies cs
    ensures cs.Sat() ==> old(cs.Sat())
    ensures cs.Sat() && Shows(E, cs.w, P, k) && Shows(E, cs.w, Q, l) ==> Shows(E, cs.w, R, Added(E, k, l))
    ensures cs.Sat() && Cong(cs.w(P.inf), 1, cs.p) && Cong(cs.w(Q.inf), 1, cs.p) ==> BothInfinite(E, cs.w, P, Q, R)
    ensures cs.honest ==> old(cs.honest) && (old(cs.Sat()) && Doublable(cs.w, P, cs.p) && IsBit(cs.w, Q.inf, cs.p)
                                             ==> cs.Sat())
  {
    hide Mod, IsCurve, Shows, Picks, SameValues, BothInfinite;
    CurveField(E);
    var equalX := AllocNumEquals(cs, P.x, Q.x);
    var equalY := AllocNumEquals(cs, P.y, Q.y);
    var sum := AddInternal(E, cs, P, Q, equalX, k, l);
    var twice := Double(E, cs, P, k);
    var same := SelectPointOrInfinity(cs, twice, equalY);
    R := SelectPoint(cs, same, sum, equalX);
    if cs.Sat() && Shows(E, cs.w, P, k) && Shows(E, cs.w, Q, l) {
      CompleteCases(E, cs.w, P, Q, equalX, equalY, sum, twice, same, R, k, l);
    }
    if cs.Sat() && Cong(cs.w(P.inf), 1, cs.p) && Cong(cs.w(Q.inf), 1, cs.p) {
      InfiniteCases(E, cs.w, P, Q, equalX, equalY, sum, twice, same, R);
    }
  }

  /** Two operands flagged infinite, whatever their coordinates: the second is passed on, or infinity if the x agree. */
  ghost predicate BothInfinite(E: Curve, w: Assignment, P: AllocatedPoint, Q: AllocatedPoint, R: AllocatedPoint) {
    Cong(w(R.inf), 1, E.q) && if Cong(w(P.x), w(Q.x), E.q) then Shows(E, w, R, 0) else SameValues(w, R, Q, E.q)
  }

  /** The two selections that end an addition. */
  ghost predicate Selected(w: Assignment, equalX: Variable, equalY: Variable, sum: AllocatedPoint,
                           twice: AllocatedPoint,
                           same: AllocatedPoint, R: AllocatedPoint, p: Modulus) {
    Picks(w(same.x), w(equalY), w(twice.x), 0, p) && Picks(w(same.y), w(equalY), w(twice.y), 0, p) &&
    Picks(w(same.inf), w(equalY), w(twice.inf), 1, p) &&
    Picks(w(R.x), w(equalX), w(same.x), w(sum.x), p) && Picks(w(R.y), w(equalX), w(same.y), w(sum.y), p) &&
    Picks(w(R.inf), w(equalX), w(same.inf), w(sum.inf), p)
  }

  lemma InfiniteCases(E: Curve, w: Assignment, P: AllocatedPoint, Q: AllocatedPoint, equalX: Variable, equalY: Variable,
                      sum: AllocatedPoint, twice: AllocatedPoint, same: AllocatedPoint, R: AllocatedPoint)
    requires Cong(w(Q.inf), 1, E.q) && Shows(E, w, twice, 0) && SameValues(w, sum, Q, E.q)
    requires IsBit(w, equalX, E.q) && (Cong(w(equalX), 1, E.q) <==> Cong(w(P.x), w(Q.x), E.q)) && IsBit(w, equalY, E.q)
    requires Selected(w, equalX, equalY, sum, twice, same, R, E.q)
    ensures BothInfinite(E, w, P, Q, R)
  {
    hide Mod;
  }

  lemma CompleteCases(E: Curve, w: Assignment, P: AllocatedPoint, Q: AllocatedPoint, equalX: Variable, equalY: Variable,
                      sum: AllocatedPoint, twice: AllocatedPoint, same: AllocatedPoint, R: AllocatedPoint, k: int,
                      l: int)
    requires IsCurve(E) && Shows(E, w, P, k) && Shows(E, w, Q, l)
    requires IsBit(w, equalX, E.q) && (Cong(w(equalX), 1, E.q) <==> Cong(w(P.x), w(Q.x), E.q))
    requires IsBit(w, equalY, E.q) && (Cong(w(equalY), 1, E.q) <==> Cong(w(P.y), w(Q.y), E.q))
    requires Cong(w(equalX), 0, E.q) && Summable(E, k, l) ==> Shows(E, w, sum, Mod(k + l, E.r))
    requires Shows(E, w, twice, Mod(k + k, E.r)) && Selected(w, equalX, equalY, sum, twice, same, R, E.q)
    ensures Shows(E, w, R, Added(E, k, l))
  {
    hide Mod, IsCurve, Added, Clash;
    ShowsCarried(E, w, P, k);
    ShowsCarried(E, w, Q, l);
    CarriedEqual(E, k, l);
    if !Cong(w(P.x), w(Q.x), E.q) {
      ShowsSame(E, w, sum, R, Mod(k + l, E.r));
    } else if k == l {
      ShowsSame(E, w, twice, R, Mod(k + l, E.r));
    } else {
      assert Added(E, k, l) == 0;
    }
  }

  lemma ShowsSame(E: Curve, w: Assignment, P: AllocatedPoint, R: AllocatedPoint, k: int)
    requires Shows(E, w, P, k) && Cong(w(R.x), w(P.x), E.q) && Cong(w(R.y), w(P.y), E.q) &&
             Cong(w(R.inf), w(P.inf), E.q)
    ensures Shows(E, w, R, k)
  {
  }

  /** Carried coordinates tell equal, opposite and different points apart, except for a clash. */
  lemma CarriedEqual(E: Curve, k: int, l: int)
    requires IsCurve(E) && (k == 0 || Finite(E, k)) && (l == 0 || Finite(E, l))
    ensures Cong(CarriedX(E, k), CarriedX(E, l), E.q) ==>
              (k == l && Cong(CarriedY(E, k), CarriedY(E, l), E.q)) ||
              (k != l && !Cong(CarriedY(E, k), CarriedY(E, l), E.q) && Added(E, k, l) == 0)
    ensures k == l || !Cong(CarriedX(E, k), CarriedX(E, l), E.q) ==> Added(E, k, l) == Mod(k + l, E.r)
    ensures k != 0 && l != 0 && E.X(k) == E.X(l) ==> Cong(CarriedX(E, k), CarriedX(E, l), E.q)
  {
    hide Mod, IsCurve;
    if Cong(CarriedX(E, k), CarriedX(E, l), E.q) && k != l {
      CarriedCases(E, k, l);
    }
  }

  lemma CarriedCases(E: Curve, k: int, l: int)
    requires IsCurve(E) && (k == 0 || Finite(E, k)) && (l == 0 || Finite(E, l))
    requires Cong(CarriedX(E, k), CarriedX(E, l), E.q) && k != l
    ensures !Cong(CarriedY(E, k), CarriedY(E, l), E.q) && Added(E, k, l) == 0
  {
    assert Mod(0, E.q) == 0;
    hide Mod, IsCurve;
    if k != 0 {
      Coordinates(E, k);
      SmallMod(E.X(k), E.q);
      SmallMod(E.Y(k), E.q);
      NegativeDiffers(E, k);
    }
    if l != 0 {
      Coordinates(E, l);
      SmallMod(E.X(l), E.q);
      SmallMod(E.Y(l), E.q);
      NegativeDiffers(E, l);
    }
    if k != 0 && l != 0 {
      SameXCases(E, k, l);
      OppositeSum(E, k);
    }
  }

  lemma OppositeSum(E: Curve, k: int)
    ensures Mod(k + (E.r - k), E.r) == 0
  {
  }
}
