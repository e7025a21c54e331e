/**
 The scalar-multiplication circuit: incomplete additions for the low bits, complete ones for the rest.
 Whatever satisfies its constraints makes the output the scalar's multiple of the point.
 */
module EccScalarMul {
  import opened PowersOfTwo
  import opened PrimeField
  import opened Curve
  import opened Constraints
  import opened Gadgets
  import opened EccCircuit

  /** The point n * k. */
  function Times(E: Curve, k: int, n: int): (m: int)
    ensures 0 <= m < E.r
  {
    Mod(k * n, E.r)
  }

  lemma TimesAdd(E: Curve, k: int, a: int, b: int)
    ensures Mod(Times(E, k, a) + Times(E, k, b), E.r) == Times(E, k, a + b)
  {
    hide Mod;
    ModCong(k * a, E.r);
    ModCong(k * b, E.r);
    assert k * (a + b) == k * a + k * b;
    CongSum(Mod(k * a, E.r) + Mod(k * b, E.r), k * (a + b), Mod(k * a, E.r), k * a, Mod(k * b, E.r), k * b, E.r);
  }

  lemma TimesOne(E: Curve, k: int)
    requires Finite(E, k)
    ensures Times(E, k, 1) == k && Times(E, k, -1) == E.r - k
  {
    assert k * 1 == k && k * -1 == -k;
    SmallMod(k, E.r);
    ModShift(-k, E.r);
    SmallMod(E.r - k, E.r);
  }

  /** A multiple below the prime order is not infinity. */
  lemma TimesFinite(E: Curve, k: int, n: int)
    requires Prime(E.r) && Finite(E, k) && 0 < n < E.r
    ensures Finite(E, Times(E, k, n))
  {
    if Times(E, k, n) == 0 {
      NoZeroDivisors(k, n, E.r);
    }
  }

  /**
   The incomplete additions never meet their exceptional case: m P and 2^i P, with 1 <= m < 2^i and
   m + 2^i below the order, are neither equal nor opposite.
   */
  lemma IncompleteSafe(E: Curve, k: int, m: int, t: int)
    requires IsCurve(E) && Prime(E.r) && Finite(E, k) && 1 <= m < t && m + t < E.r
    ensures Finite(E, Times(E, k, m)) && Finite(E, Times(E, k, t)) && E.X(Times(E, k, m)) != E.X(Times(E, k, t))
  {
    hide IsCurve, Times;
    TimesFinite(E, k, m);
    TimesFinite(E, k, t);
    var a, b := Times(E, k, m), Times(E, k, t);
    if E.X(a) == E.X(b) {
      SameX(E, a, b);
      TimesFinite(E, k, t - m);
      TimesFinite(E, k, t + m);
      TimesAdd(E, k, m, t);
      TimesAdd(E, k, m, t - m);
      SumIsOrder(a, b, Times(E, k, t - m), E.r);
    }
  }

  lemma SumIsOrder(a: int, b: int, d: int, r: Modulus)
    requires 0 < a < r && 0 < b < r && 0 < d < r && Mod(a + d, r) == b
    ensures a != b && (b == r - a ==> Mod(a + b, r) == 0)
  {
  }

  // ---------- the value of the bits ----------

  function BitVal(w: Assignment, b: Variable, p: Modulus): int {
    Mod(w(b), p)
  }

  /** The number whose low n bits the assignment gives. */
  function BitsValue(w: Assignment, bits: seq<Variable>, n: nat, p: Modulus): int
    requires n <= |bits|
  {
    if n == 0 then 0 else BitsValue(w, bits, n - 1, p) + BitVal(w, bits[n - 1], p) * Pow2(n - 1)
  }

  ghost predicate AllBits(w: Assignment, bits: seq<Variable>, p: Modulus) {
    forall i :: 0 <= i < |bits| ==> IsBit(w, bits[i], p)
  }

  lemma BitIs(w: Assignment, b: Variable, p: Modulus)
    requires IsBit(w, b, p)
    ensures BitVal(w, b, p) == 0 || BitVal(w, b, p) == 1
    ensures Cong(w(b), BitVal(w, b, p), p)
  {
    assert Mod(0, p) == 0 && Mod(1, p) == 1;
    ModCong(w(b), p);
  }

  /** The multiple in the accumulator: bit 0 is taken to be 1. */
  function Assumed(w: Assignment, bits: seq<Variable>, n: nat, p: Modulus): int
    requires 1 <= n <= |bits|
  {
    1 + BitsValue(w, bits, n, p) - BitVal(w, bits[0], p)
  }

  lemma {:induction false} AssumedRange(w: Assignment, bits: seq<Variable>, n: nat, p: Modulus)
    requires 1 <= n <= |bits| && AllBits(w, bits, p)
    ensures 1 <= Assumed(w, bits, n, p) < Pow2(n)
  {
    hide Mod, BitVal;
    BitIs(w, bits[n - 1], p);
    if n == 1 {
      assert BitsValue(w, bits, 0, p) == 0 && Pow2(0) == 1;
      assert BitsValue(w, bits, 1, p) == BitVal(w, bits[0], p) * 1;
    } else {
      AssumedRange(w, bits, n - 1, p);
      var b := BitVal(w, bits[n - 1], p);
      assert b * Pow2(n - 1) == if b == 0 then 0 else Pow2(n - 1);
    }
  }

  // ---------- the circuit ----------

  /** What the theorem supposes of the input and the assignment. */
  ghost predicate Given(E: Curve, w: Assignment, P: AllocatedPoint, bits: seq<Variable>, k: int) {
    Finite(E, k) && Shows(E, w, P, k) && AllBits(w, bits, E.q)
  }

  method SelectFinite(cs: ConstraintSystem, P: FinitePoint, Q: FinitePoint, cond: Variable) returns (R: FinitePoint)
    modifies cs
    ensures cs.Sat() ==> old(cs.Sat()) && Picks(cs.w(R.x), cs.w(cond), cs.w(P.x), cs.w(Q.x), cs.p) &&
                         Picks(cs.w(R.y), cs.w(cond), cs.w(P.y), cs.w(Q.y), cs.p)
    ensures cs.honest ==> old(cs.honest) && (old(cs.Sat()) && IsBit(cs.w, cond, cs.p) ==> cs.Sat())
  {
    hide Mod, Picks;
    var x := ConditionallySelect(cs, P.x, Q.x, cond);
    var y := ConditionallySelect(cs, P.y, Q.y, cond);
    R := FinitePoint(x, y);
  }

  ghost predicate IncompleteState(E: Curve, w: Assignment, acc: FinitePoint, p: FinitePoint, bits: seq<Variable>,
                                  i: nat, k: int) {
    1 <= i <= |bits| && ShowsFinite(E, w, acc.x, acc.y, Times(E, k, Assumed(w, bits, i, E.q))) &&
    ShowsFinite(E, w, p.x, p.y, Times(E, k, Pow2(i)))
  }

  lemma StartState(E: Curve, w: Assignment, P: AllocatedPoint, p: FinitePoint, bits: seq<Variable>, k: int)
    requires Given(E, w, P, bits, k) && |bits| >= 1 && ShowsFinite(E, w, p.x, p.y, Mod(k + k, E.r))
    ensures IncompleteState(E, w, FinitePoint(P.x, P.y), p, bits, 1, k)
  {
    hide Mod;
    TimesOne(E, k);
    TimesAdd(E, k, 1, 1);
    assert Pow2(1) == 2;
    var b := BitVal(w, bits[0], E.q);
    assert BitsValue(w, bits, 0, E.q) == 0 && Pow2(0) == 1;
    assert BitsValue(w, bits, 1, E.q) == b * 1;
  }

  /** One round: the sum is formed, then taken if the bit is 1. */
  lemma RoundState(E: Curve, w: Assignment, acc: FinitePoint, p: FinitePoint, sum: FinitePoint, acc': FinitePoint,
                   p': FinitePoint,
                   bits: seq<Variable>, i: nat, k: int)
    requires 1 <= i < |bits| && AllBits(w, bits, E.q) && IncompleteState(E, w, acc, p, bits, i, k)
    requires var a, t := Times(E, k, Assumed(w, bits, i, E.q)), Times(E, k, Pow2(i));
      ShowsFinite(E, w, sum.x, sum.y, Mod(a + t, E.r)) && ShowsFinite(E, w, p'.x, p'.y, Mod(t + t, E.r))
    requires Picks(w(acc'.x), w(bits[i]), w(sum.x), w(acc.x), E.q) &&
             Picks(w(acc'.y), w(bits[i]), w(sum.y), w(acc.y), E.q)
    ensures IncompleteState(E, w, acc', p', bits, i + 1, k)
  {
    hide Mod, Times, BitVal, BitsValue, Pow2, ShowsFinite;
    BitIs(w, bits[i], E.q);
    BitsNext(w, bits, i, E.q);
    var m := Assumed(w, bits, i, E.q);
    TimesAdd(E, k, m, Pow2(i));
    TimesAdd(E, k, Pow2(i), Pow2(i));
    if BitVal(w, bits[i], E.q) == 1 {
      FiniteSame(E, w, sum, acc', Times(E, k, m + Pow2(i)));
    } else {
      FiniteSame(E, w, acc, acc', Times(E, k, m));
    }
  }

  lemma FiniteSame(E: Curve, w: Assignment, P: FinitePoint, R: FinitePoint, k: int)
    requires ShowsFinite(E, w, P.x, P.y, k) && Cong(w(R.x), w(P.x), E.q) && Cong(w(R.y), w(P.y), E.q)
    ensures ShowsFinite(E, w, R.x, R.y, k)
  {
  }

  // ---------- infinity on the cusp: what the low-bit loop makes of (0, 0) when a = 0 ----------

  /** The accumulator is still (0, 0), and p is some other point of the cusp. */
  ghost predicate StrayState(w: Assignment, acc: FinitePoint, p: FinitePoint, q: Modulus) {
    AtOrigin(w, acc, q) && OnCusp(w, p, q) && !Cong(w(p.y), 0, q)
  }

  lemma OriginIsOnCusp(w: Assignment, P: FinitePoint, q: Modulus)
    requires AtOrigin(w, P, q)
    ensures OnCusp(w, P, q)
  {
    hide Mod;
    var x, y := w(P.x), w(P.y);
    ZeroProduct(y, y, q);
    ZeroProduct(x, x * x, q);
  }

  lemma StrayApart(w: Assignment, acc: FinitePoint, p: FinitePoint, q: Modulus)
    requires Prime(q) && q > 3 && StrayState(w, acc, p, q)
    ensures !Cong(w(p.x), w(acc.x), q) && !Cong(2 * w(p.y), 0, q)
  {
    hide Mod, OnCusp;
    CuspZero(w, p, q);
    if Cong(2 * w(p.y), 0, q) {
      SmallUnit(q);
      NoZeroDivisors(2, w(p.y), q);
    }
  }

  lemma StrayStep(w: Assignment, acc: FinitePoint, p: FinitePoint, sum: FinitePoint, acc': FinitePoint, p': FinitePoint,
                  bit: Variable, q: Modulus)
    requires StrayState(w, acc, p, q) && AtOrigin(w, sum, q) && IsBit(w, bit, q)
    requires Picks(w(acc'.x), w(bit), w(sum.x), w(acc.x), q) && Picks(w(acc'.y), w(bit), w(sum.y), w(acc.y), q)
    requires OnCusp(w, p', q) && !Cong(w(p'.y), 0, q)
    ensures StrayState(w, acc', p', q)
  {
    hide Mod, OnCusp;
  }

  // ---------- the loop over the low bits ----------

  /** Every value that the loop's honest prover inverts is invertible. */
  ghost predicate Ready(E: Curve, w: Assignment, acc: FinitePoint, p: FinitePoint, P: AllocatedPoint,
                        bits: seq<Variable>,
                        i: nat, k: int) {
    (Given(E, w, P, bits, k) && IncompleteState(E, w, acc, p, bits, i, k)) ||
    (E.a == 0 && AllBits(w, bits, E.q) && StrayState(w, acc, p, E.q))
  }

  /** What the loop starts from: a finite point, or (0, 0) when a = 0. */
  ghost predicate Startable(E: Curve, w: Assignment, P: AllocatedPoint, bits: seq<Variable>, k: int) {
    Given(E, w, P, bits, k) || (E.a == 0 && AllBits(w, bits, E.q) && AtOrigin(w, FinitePoint(P.x, P.y), E.q))
  }

  /** The double-and-add loop over the low bits. */
  method IncompleteLoop(E: Curve, cs: ConstraintSystem, P: AllocatedPoint, bits: seq<Variable>, split: nat,
                        ghost k: int)
    returns (acc: FinitePoint, p: FinitePoint)
    requires Supported(E, cs) && Prime(E.r) && 1 <= split <= |bits| && Pow2(split) < E.r
    modifies cs
    ensures cs.Sat() ==> old(cs.Sat())
    ensures cs.Sat() && Given(E, cs.w, P, bits, k) ==> IncompleteState(E, cs.w, acc, p, bits, split, k)
    ensures cs.Sat() && E.a == -3 ==> !AtOrigin(cs.w, FinitePoint(P.x, P.y), cs.p)
    ensures cs.honest ==> old(cs.honest)
    ensures cs.honest && old(cs.Sat()) && Startable(E, cs.w, P, bits, k) ==> cs.Sat()
    ensures cs.honest && old(cs.Sat()) && E.a == 0 && AllBits(cs.w, bits, E.q) &&
            AtOrigin(cs.w, FinitePoint(P.x, P.y), cs.p)
      ==> StrayState(cs.w, acc, p, cs.p)
  {
    hide Mod, IsCurve, ShowsFinite, Shows, AllBits, IncompleteState, Picks, Pow2, Times, Assumed, OnCusp, AtOrigin;
    acc := FinitePoint(P.x, P.y);
    ghost var stray := E.a == 0 && AllBits(cs.w, bits, E.q) && AtOrigin(cs.w, acc, cs.p);
    ghost var given := Given(E, cs.w, P, bits, k);
    if given {
      ShowsGiven(E, cs.w, P, k);
      TwiceYNonZero(E, cs.w, acc, k);
    }
    p := DoubleIncomplete(E, cs, acc, k);
    if cs.Sat() && given {
      StartState(E, cs.w, P, p, bits, k);
    }
    if stray {
      OriginIsOnCusp(cs.w, acc, cs.p);
    }
    for i := 1 to split
      invariant cs.Sat() ==> old(cs.Sat())
      invariant cs.Sat() && given ==> IncompleteState(E, cs.w, acc, p, bits, i, k)
      invariant cs.Sat() && E.a == -3 ==> !AtOrigin(cs.w, FinitePoint(P.x, P.y), cs.p)
      invariant cs.honest ==> old(cs.honest)
      invariant cs.honest && old(cs.Sat()) && (given || stray) ==> cs.Sat()
      invariant cs.honest && old(cs.Sat()) && stray ==> StrayState(cs.w, acc, p, cs.p)
    {
      acc, p := IncompleteRound(E, cs, acc, p, P, bits, i, split, k);
    }
  }

  lemma ShowsGiven(E: Curve, w: Assignment, P: AllocatedPoint, k: int)
    requires Finite(E, k) && Shows(E, w, P, k)
    ensures ShowsFinite(E, w, P.x, P.y, k) && Cong(w(P.inf), 0, E.q)
  {
  }

  method IncompleteRound(E: Curve, cs: ConstraintSystem, acc: FinitePoint, p: FinitePoint, ghost P: AllocatedPoint,
                         bits: seq<Variable>, i: nat, ghost split: nat, ghost k: int)
    returns (acc': FinitePoint, p': FinitePoint)
    requires Supported(E, cs) && Prime(E.r) && 1 <= i < split <= |bits| && Pow2(split) < E.r
    modifies cs
    ensures cs.Sat() ==> old(cs.Sat())
    ensures cs.Sat() && Given(E, cs.w, P, bits, k) && IncompleteState(E, cs.w, acc, p, bits, i, k)
      ==> IncompleteState(E, cs.w, acc', p', bits, i + 1, k)
    ensures cs.Sat() && E.a == 0 && AllBits(cs.w, bits, E.q) && StrayState(cs.w, acc, p, E.q)
      ==> StrayState(cs.w, acc', p', E.q)
    ensures cs.honest ==> old(cs.honest)
    ensures cs.honest && old(cs.Sat()) && Ready(E, cs.w, acc, p, P, bits, i, k) ==> cs.Sat()
  {
    hide Mod, IsCurve, ShowsFinite, Shows, AllBits, Picks, Pow2, Times, Assumed, OnCusp, AtOrigin;
    CurveField(E);
    ghost var a, t := Times(E, k, Assumed(cs.w, bits, i, E.q)), Times(E, k, Pow2(i));
    ghost var given := Given(E, cs.w, P, bits, k) && IncompleteState(E, cs.w, acc, p, bits, i, k);
    ghost var stray := E.a == 0 && AllBits(cs.w, bits, E.q) && StrayState(cs.w, acc, p, E.q);
    if given || stray {
      BitAt(cs.w, bits, i, E.q);
    }
    if given {
      AssumedRange(cs.w, bits, i, E.q);
      Pow2Sum(i, split);
      IncompleteSafe(E, k, Assumed(cs.w, bits, i, E.q), Pow2(i));
      DifferentX(E, cs.w, acc, p, a, t);
      TwiceYNonZero(E, cs.w, p, t);
    }
    if stray {
      StrayApart(cs.w, acc, p, cs.p);
    }
    var sum := AddIncomplete(E, cs, acc, p, a, t);
    acc' := SelectFinite(cs, sum, acc, bits[i]);
    p' := DoubleIncomplete(E, cs, p, t);
    if cs.Sat() && given {
      RoundState(E, cs.w, acc, p, sum, acc', p', bits, i, k);
    }
    if cs.Sat() && stray {
      StrayStep(cs.w, acc, p, sum, acc', p', bits[i], cs.p);
    }
  }

  lemma DifferentX(E: Curve, w: Assignment, P: FinitePoint, Q: FinitePoint, k: int, l: int)
    requires IsCurve(E) && ShowsFinite(E, w, P.x, P.y, k) && ShowsFinite(E, w, Q.x, Q.y, l) && E.X(k) != E.X(l)
    ensures !Cong(w(Q.x), w(P.x), E.q)
  {
    hide Mod, IsCurve;
    Coordinates(E, k);
    Coordinates(E, l);
    SmallMod(E.X(k), E.q);
    SmallMod(E.X(l), E.q);
  }

  lemma BitAt(w: Assignment, bits: seq<Variable>, i: nat, p: Modulus)
    requires AllBits(w, bits, p) && i < |bits|
    ensures IsBit(w, bits[i], p)
  {
    hide Mod;
  }

  lemma Pow2Sum(i: nat, split: nat)
    requires i < split
    ensures Pow2(i) + Pow2(i) <= Pow2(split)
  {
    Pow2Monotone(i + 1, split);
  }

  // ---------- undoing the assumption about bit 0 ----------

  /** The accumulator holds the multiple that assumes bit 0 to be 1. */
  ghost predicate Slack(E: Curve, w: Assignment, P: AllocatedPoint, acc: FinitePoint, bits: seq<Variable>, split: nat,
                        k: int) {
    1 <= split <= |bits| && Given(E, w, P, bits, k) &&
    ShowsFinite(E, w, acc.x, acc.y, Times(E, k, Assumed(w, bits, split, E.q)))
  }

  /** P's flag says infinity, whatever its coordinates. */
  ghost predicate FlaggedInfinite(E: Curve, w: Assignment, P: AllocatedPoint, bits: seq<Variable>) {
    AllBits(w, bits, E.q) && Cong(w(P.inf), 1, E.q)
  }

  /** The accumulator minus the point when bit 0 is 0; the default point when P is infinity. */
  method RemoveSlack(E: Curve, cs: ConstraintSystem, P: AllocatedPoint, acc: FinitePoint, bits: seq<Variable>,
                     ghost split: nat, ghost k: int)
    returns (R: AllocatedPoint)
    requires Supported(E, cs) && Prime(E.r) && 1 <= split <= |bits| && Pow2(split) < E.r
    modifies cs
    ensures cs.Sat() ==> old(cs.Sat())
    ensures cs.Sat() && Slack(E, cs.w, P, acc, bits, split, k)
      ==> Shows(E, cs.w, R, Times(E, k, BitsValue(cs.w, bits, split, E.q)))
    ensures cs.Sat() && FlaggedInfinite(E, cs.w, P, bits) ==> Shows(E, cs.w, R, 0)
    ensures cs.honest ==> old(cs.honest)
    ensures cs.honest && old(cs.Sat()) && (Slack(E, cs.w, P, acc, bits, split, k) || FlaggedInfinite(E, cs.w, P, bits))
      ==> cs.Sat()
  {
    hide Mod, IsCurve, ShowsFinite, Shows, AllBits, Picks, Pow2, Times, BitsValue, BitVal, Added, BothInfinite;
    ghost var m := Assumed(cs.w, bits, split, E.q);
    var a := AllocatedPoint(acc.x, acc.y, P.inf);
    ghost var given := Slack(E, cs.w, P, acc, bits, split, k);
    if given {
      ShowsGiven(E, cs.w, P, k);
      ShowsAllocated(E, cs.w, acc, P, Times(E, k, m));
      BitAt(cs.w, bits, 0, E.q);
      FiniteNotZero(E, k);
      TwiceYNonZero(E, cs.w, acc, Times(E, k, m));
    }
    if FlaggedInfinite(E, cs.w, P, bits) {
      BitAt(cs.w, bits, 0, E.q);
    }
    var neg := Negate(E, cs, P, k);
    var less := AddPoints(E, cs, a, neg, Times(E, k, m), E.r - k);
    var res := SelectPoint(cs, a, less, bits[0]);
    var zero := AllocZero(cs);
    var one := AllocOne(cs);
    var x := ConditionallySelect(cs, zero, res.x, P.inf);
    var y := ConditionallySelect(cs, zero, res.y, P.inf);
    R := AllocatedPoint(x, y, res.inf);
    if cs.Sat() && given {
      AssumedRange(cs.w, bits, split, E.q);
      TimesFinite(E, k, m);
      FiniteAdded(E, Times(E, k, m), k);
      PickOther(cs.w(x), cs.w(P.inf), cs.w(zero), cs.w(res.x), cs.p);
      PickOther(cs.w(y), cs.w(P.inf), cs.w(zero), cs.w(res.y), cs.p);
      SlackRemoved(E, cs.w, a, less, res, R, P, bits, split, k);
    }
    if cs.Sat() && FlaggedInfinite(E, cs.w, P, bits) {
      DefaultTaken(E, cs.w, P, a, neg, less, res, zero, R, bits[0]);
    }
  }

  /** Two finite operands cannot clash. */
  lemma FiniteAdded(E: Curve, m: int, k: int)
    requires Finite(E, m) && Finite(E, k)
    ensures Added(E, m, E.r - k) == Mod(m + (E.r - k), E.r)
  {
    hide Mod;
  }

  lemma DefaultTaken(E: Curve, w: Assignment, P: AllocatedPoint, a: AllocatedPoint, neg: AllocatedPoint,
                     less: AllocatedPoint,
                     res: AllocatedPoint, zero: Variable, R: AllocatedPoint, bit: Variable)
    requires Cong(w(P.inf), 1, E.q) && a.inf == P.inf && IsBit(w, bit, E.q) && Cong(w(zero), 0, E.q)
    requires BothInfinite(E, w, a, neg, less) && Picks(w(res.inf), w(bit), w(a.inf), w(less.inf), E.q) &&
             R.inf == res.inf
    requires Picks(w(R.x), w(P.inf), w(zero), w(res.x), E.q) && Picks(w(R.y), w(P.inf), w(zero), w(res.y), E.q)
    ensures Shows(E, w, R, 0)
  {
    hide Mod;
  }

  lemma PickOther(v: int, s: int, x: int, y: int, p: Modulus)
    requires Picks(v, s, x, y, p) && Cong(s, 0, p)
    ensures Cong(v, y, p)
  {
  }

  lemma ShowsAllocated(E: Curve, w: Assignment, acc: FinitePoint, P: AllocatedPoint, m: int)
    requires ShowsFinite(E, w, acc.x, acc.y, m) && Cong(w(P.inf), 0, E.q)
    ensures Shows(E, w, AllocatedPoint(acc.x, acc.y, P.inf), m)
  {
  }

  lemma SlackRemoved(E: Curve, w: Assignment, a: AllocatedPoint, less: AllocatedPoint, res: AllocatedPoint,
                     R: AllocatedPoint,
                     P: AllocatedPoint, bits: seq<Variable>, split: nat, k: int)
    requires Finite(E, k) && 1 <= split <= |bits| && AllBits(w, bits, E.q) && Cong(w(P.inf), 0, E.q)
    requires var m := Times(E, k, Assumed(w, bits, split, E.q));
      Shows(E, w, a, m) && Shows(E, w, less, Mod(m + (E.r - k), E.r))
    requires Picks(w(res.x), w(bits[0]), w(a.x), w(less.x), E.q) &&
             Picks(w(res.y), w(bits[0]), w(a.y), w(less.y), E.q) &&
             Picks(w(res.inf), w(bits[0]), w(a.inf), w(less.inf), E.q)
    requires Cong(w(R.x), w(res.x), E.q) && Cong(w(R.y), w(res.y), E.q) && R.inf == res.inf
    ensures Shows(E, w, R, Times(E, k, BitsValue(w, bits, split, E.q)))
  {
    hide Mod, Shows, Times, BitVal, BitsValue;
    var b, m := BitVal(w, bits[0], E.q), Assumed(w, bits, split, E.q);
    BitIs(w, bits[0], E.q);
    TimesOne(E, k);
    TimesAdd(E, k, m, -1);
    if b == 1 {
      ShowsSame(E, w, a, R, Times(E, k, m));
    } else {
      ShowsSame(E, w, less, R, Times(E, k, m - 1));
    }
  }

  // ---------- the remaining bits, with complete additions ----------

  /** The point that the circuit computes from the first n bits. */
  function Computed(E: Curve, w: Assignment, bits: seq<Variable>, split: nat, n: nat, k: int): int
    requires split <= n <= |bits|
  {
    if n == split then
      Times(E, k, BitsValue(w, bits, n, E.q))
    else
      var m := Computed(E, w, bits, split, n - 1, k);
      if BitVal(w, bits[n - 1], E.q) == 1 then Added(E, m, Times(E, k, Pow2(n - 1))) else m
  }

  ghost predicate CompleteState(E: Curve, w: Assignment, acc: AllocatedPoint, p: AllocatedPoint, bits: seq<Variable>,
                                split: nat, i: nat, k: int) {
    split <= i <= |bits| && Shows(E, w, acc, Computed(E, w, bits, split, i, k)) && Shows(E, w, p, Times(E, k, Pow2(i)))
  }

  /** Bit `split` is 1 and the bits above it are 0. */
  ghost predicate Drifts(w: Assignment, bits: seq<Variable>, split: nat, n: nat, p: Modulus)
    requires n <= |bits|
  {
    split < n && Cong(w(bits[split]), 1, p) && forall j :: split < j < n ==> Cong(w(bits[j]), 0, p)
  }

  /**
   Both operands are flagged infinite; p0 is what the low-bit loop left.  Its coordinates reach the
   accumulator exactly when the bits drift and its x is not 0.
   */
  ghost predicate InfiniteState(E: Curve, w: Assignment, acc: AllocatedPoint, p: AllocatedPoint, p0: AllocatedPoint,
                                bits: seq<Variable>, split: nat, i: nat) {
    split <= i <= |bits| && Cong(w(acc.inf), 1, E.q) && Cong(w(p.inf), 1, E.q) &&
    (if i == split then p == p0 else Shows(E, w, p, 0)) &&
    (if Drifts(w, bits, split, i, E.q) && !Cong(w(p0.x), 0, E.q) then SameValues(w, acc, p0, E.q)
     else Shows(E, w, acc, 0))
  }

  lemma DriftsNext(w: Assignment, bits: seq<Variable>, split: nat, i: nat, p: Modulus)
    requires split <= i < |bits| && IsBit(w, bits[i], p)
    ensures Drifts(w, bits, split, i + 1, p) <==>
              if Cong(w(bits[i]), 1, p) then i == split else Drifts(w, bits, split, i, p)
  {
    ZeroIsNotOne(p);
    hide Mod;
  }

  lemma InfiniteStep(E: Curve, w: Assignment, acc: AllocatedPoint, p: AllocatedPoint, p0: AllocatedPoint,
                     sum: AllocatedPoint,
                     acc': AllocatedPoint, p': AllocatedPoint, bits: seq<Variable>, split: nat, i: nat)
    requires i < |bits| && InfiniteState(E, w, acc, p, p0, bits, split, i) && IsBit(w, bits[i], E.q)
    requires BothInfinite(E, w, acc, p, sum) && Shows(E, w, p', 0)
    requires Picks(w(acc'.x), w(bits[i]), w(sum.x), w(acc.x), E.q) &&
             Picks(w(acc'.y), w(bits[i]), w(sum.y), w(acc.y), E.q) &&
             Picks(w(acc'.inf), w(bits[i]), w(sum.inf), w(acc.inf), E.q)
    ensures InfiniteState(E, w, acc', p', p0, bits, split, i + 1)
  {
    DriftsNext(w, bits, split, i, E.q);
    ZeroIsNotOne(E.q);
    hide Mod, Drifts;
  }

  /** One round of the complete phase. */
  method CompleteRound(E: Curve, cs: ConstraintSystem, acc: AllocatedPoint, p: AllocatedPoint, bit: Variable,
                       ghost p0: AllocatedPoint, ghost bits: seq<Variable>, ghost split: nat, ghost i: nat,
                       ghost k: int)
    returns (acc': AllocatedPoint, p': AllocatedPoint)
    requires Supported(E, cs) && split <= i < |bits| && bit == bits[i]
    modifies cs
    ensures cs.Sat() ==> old(cs.Sat())
    ensures cs.Sat() && AllBits(cs.w, bits, E.q) && CompleteState(E, cs.w, acc, p, bits, split, i, k)
      ==> CompleteState(E, cs.w, acc', p', bits, split, i + 1, k)
    ensures cs.Sat() && AllBits(cs.w, bits, E.q) && InfiniteState(E, cs.w, acc, p, p0, bits, split, i)
      ==> InfiniteState(E, cs.w, acc', p', p0, bits, split, i + 1)
    ensures cs.honest ==> old(cs.honest)
    ensures cs.honest && old(cs.Sat()) && AllBits(cs.w, bits, E.q) &&
            (CompleteState(E, cs.w, acc, p, bits, split, i, k) || InfiniteState(E, cs.w, acc, p, p0, bits, split, i))
      ==> cs.Sat()
  {
    hide Mod, IsCurve, Shows, AllBits, Picks, Pow2, Times, BitsValue, Computed, Added, Doublable, BothInfinite, Drifts;
    if AllBits(cs.w, bits, E.q) {
      BitAt(cs.w, bits, i, E.q);
    }
    ghost var a, t := Computed(E, cs.w, bits, split, i, k), Times(E, k, Pow2(i));
    if CompleteState(E, cs.w, acc, p, bits, split, i, k) {
      ShowsDoublable(E, cs.w, acc, a);
      ShowsDoublable(E, cs.w, p, t);
      FlagOfShown(E, cs.w, p, t);
    }
    if InfiniteState(E, cs.w, acc, p, p0, bits, split, i) {
      InfiniteDoublable(cs.w, acc, cs.p);
      InfiniteDoublable(cs.w, p, cs.p);
    }
    var sum := AddPoints(E, cs, acc, p, a, t);
    acc' := SelectPoint(cs, sum, acc, bit);
    p' := Double(E, cs, p, t);
    if cs.Sat() && AllBits(cs.w, bits, E.q) {
      if CompleteState(E, cs.w, acc, p, bits, split, i, k) {
        CompleteStep(E, cs.w, acc, p, sum, acc', p', bits, split, i, k);
      }
      if InfiniteState(E, cs.w, acc, p, p0, bits, split, i) {
        InfiniteStep(E, cs.w, acc, p, p0, sum, acc', p', bits, split, i);
      }
    }
  }

  lemma InfiniteDoublable(w: Assignment, P: AllocatedPoint, p: Modulus)
    requires Cong(w(P.inf), 1, p)
    ensures Doublable(w, P, p) && IsBit(w, P.inf, p)
  {
    hide Mod;
  }

  lemma CompleteStep(E: Curve, w: Assignment, acc: AllocatedPoint, p: AllocatedPoint, sum: AllocatedPoint,
                     acc': AllocatedPoint, p': AllocatedPoint, bits: seq<Variable>, split: nat, i: nat, k: int)
    requires i < |bits| && AllBits(w, bits, E.q) && CompleteState(E, w, acc, p, bits, split, i, k)
    requires var a, t := Computed(E, w, bits, split, i, k), Times(E, k, Pow2(i));
      Shows(E, w, sum, Added(E, a, t)) && Shows(E, w, p', Mod(t + t, E.r))
    requires Picks(w(acc'.x), w(bits[i]), w(sum.x), w(acc.x), E.q) &&
             Picks(w(acc'.y), w(bits[i]), w(sum.y), w(acc.y), E.q) &&
             Picks(w(acc'.inf), w(bits[i]), w(sum.inf), w(acc.inf), E.q)
    ensures CompleteState(E, w, acc', p', bits, split, i + 1, k)
  {
    hide Mod, Times, BitVal, Shows, BitsValue, Pow2, Added;
    BitIs(w, bits[i], E.q);
    BitsNext(w, bits, i, E.q);
    var a, t := Computed(E, w, bits, split, i, k), Times(E, k, Pow2(i));
    TimesAdd(E, k, Pow2(i), Pow2(i));
    if BitVal(w, bits[i], E.q) == 1 {
      ShowsSame(E, w, sum, acc', Added(E, a, t));
    } else {
      ShowsSame(E, w, acc, acc', a);
    }
  }

  lemma BitsNext(w: Assignment, bits: seq<Variable>, i: nat, p: Modulus)
    requires i < |bits| && (BitVal(w, bits[i], p) == 0 || BitVal(w, bits[i], p) == 1)
    ensures BitsValue(w, bits, i + 1, p) == BitsValue(w, bits, i, p) + if BitVal(w, bits[i], p) == 1 then Pow2(i) else 0
    ensures Pow2(i + 1) == Pow2(i) + Pow2(i)
  {
    hide BitVal;
    var b := BitVal(w, bits[i], p);
    assert b * Pow2(i) == if b == 1 then Pow2(i) else 0;
  }

  /** The loop over the remaining bits. */
  method CompleteLoop(E: Curve, cs: ConstraintSystem, acc: AllocatedPoint, p: AllocatedPoint, bits: seq<Variable>,
                      split: nat,
                      ghost k: int)
    returns (R: AllocatedPoint)
    requires Supported(E, cs) && split <= |bits|
    modifies cs
    ensures cs.Sat() ==> old(cs.Sat())
    ensures cs.Sat() && AllBits(cs.w, bits, E.q) && CompleteState(E, cs.w, acc, p, bits, split, split, k)
      ==> Shows(E, cs.w, R, Computed(E, cs.w, bits, split, |bits|, k))
    ensures cs.Sat() && AllBits(cs.w, bits, E.q) && Shows(E, cs.w, acc, 0) && Cong(cs.w(p.inf), 1, cs.p)
      ==> Cong(cs.w(R.inf), 1, cs.p) &&
          if Drifts(cs.w, bits, split, |bits|, E.q) && !Cong(cs.w(p.x), 0, cs.p) then SameValues(cs.w, R, p, cs.p)
          else Shows(E, cs.w, R, 0)
    ensures cs.honest ==> old(cs.honest)
    ensures cs.honest && old(cs.Sat()) && AllBits(cs.w, bits, E.q) &&
            (CompleteState(E, cs.w, acc, p, bits, split, split, k) ||
             (Shows(E, cs.w, acc, 0) && Cong(cs.w(p.inf), 1, cs.p)))
      ==> cs.Sat()
  {
    hide Mod, IsCurve, AllBits, Shows, CompleteState, Computed, Drifts, SameValues, InfiniteState;
    R := acc;
    var pc := p;
    ghost var finite := AllBits(cs.w, bits, E.q) && CompleteState(E, cs.w, acc, p, bits, split, split, k);
    ghost var infinite := AllBits(cs.w, bits, E.q) && Shows(E, cs.w, acc, 0) && Cong(cs.w(p.inf), 1, cs.p);
    if infinite {
      InfiniteStart(E, cs.w, acc, p, bits, split);
    }
    for i := split to |bits|
      invariant cs.Sat() ==> old(cs.Sat())
      invariant cs.Sat() && finite ==> CompleteState(E, cs.w, R, pc, bits, split, i, k)
      invariant cs.Sat() && infinite ==> InfiniteState(E, cs.w, R, pc, p, bits, split, i)
      invariant cs.honest ==> old(cs.honest)
      invariant cs.honest && old(cs.Sat()) && (finite || infinite) ==> cs.Sat()
    {
      R, pc := CompleteRound(E, cs, R, pc, bits[i], p, bits, split, i, k);
    }
    if cs.Sat() && finite {
      CompleteEnd(E, cs.w, R, pc, bits, split, k);
    }
    if cs.Sat() && infinite {
      InfiniteEnd(E, cs.w, R, pc, p, bits, split);
    }
  }

  lemma InfiniteStart(E: Curve, w: Assignment, acc: AllocatedPoint, p: AllocatedPoint, bits: seq<Variable>, split: nat)
    requires split <= |bits| && Shows(E, w, acc, 0) && Cong(w(p.inf), 1, E.q)
    ensures InfiniteState(E, w, acc, p, p, bits, split, split)
  {
    hide Mod;
  }

  lemma InfiniteEnd(E: Curve, w: Assignment, R: AllocatedPoint, pc: AllocatedPoint, p: AllocatedPoint,
                    bits: seq<Variable>,
                    split: nat)
    requires InfiniteState(E, w, R, pc, p, bits, split, |bits|)
    ensures Cong(w(R.inf), 1, E.q)
    ensures if Drifts(w, bits, split, |bits|, E.q) && !Cong(w(p.x), 0, E.q) then SameValues(w, R, p, E.q)
            else Shows(E, w, R, 0)
  {
    hide Mod, Drifts, SameValues, Shows;
  }

  lemma CompleteEnd(E: Curve, w: Assignment, R: AllocatedPoint, pc: AllocatedPoint, bits: seq<Variable>, split: nat,
                    k: int)
    requires CompleteState(E, w, R, pc, bits, split, |bits|, k)
    ensures Shows(E, w, R, Computed(E, w, bits, split, |bits|, k))
  {
    hide Mod, Shows, Computed;
  }

  // ---------- the whole circuit ----------

  /** How many low bits go through the incomplete loop. */
  function SplitAt(n: nat, numBits: nat): (split: nat)
    requires numBits >= 3
  {
    if n <= numBits - 2 then n else numBits - 2
  }

  /** P is infinity with its own coordinates, and the bits are bits. */
  ghost predicate GivenInfinity(E: Curve, w: Assignment, P: AllocatedPoint, bits: seq<Variable>) {
    Shows(E, w, P, 0) && AllBits(w, bits, E.q)
  }

  /**
   Scalar multiplication.  For every assignment that satisfies the constraints: when P is a finite
   point and the bits are bits, the output is the computed point; when P is flagged infinite, so is
   the output.  The values an honest prover assigns do satisfy the constraints, except that with
   a = -3 no assignment does for P at infinity; with a = 0 the honest output for infinity is the
   default point exactly when the bits do not drift.
   */
  method ScalarMul(E: Curve, cs: ConstraintSystem, P: AllocatedPoint, bits: seq<Variable>, numBits: nat, ghost k: int)
    returns (R: AllocatedPoint)
    requires Supported(E, cs) && Prime(E.r) && |bits| >= 1 && numBits >= 3 && Pow2(numBits - 2) < E.r
    modifies cs
    ensures cs.Sat() ==> old(cs.Sat())
    ensures cs.Sat() && Given(E, cs.w, P, bits, k)
      ==> Shows(E, cs.w, R, Computed(E, cs.w, bits, SplitAt(|bits|, numBits), |bits|, k))
    ensures cs.Sat() && E.a == -3 ==> !Shows(E, cs.w, P, 0)
    ensures cs.Sat() && FlaggedInfinite(E, cs.w, P, bits) ==> Cong(cs.w(R.inf), 1, cs.p)
    ensures cs.Sat() && FlaggedInfinite(E, cs.w, P, bits) && !Drifts(cs.w, bits, SplitAt(|bits|, numBits), |bits|, cs.p)
      ==> Shows(E, cs.w, R, 0)
    ensures cs.honest ==> old(cs.honest)
    ensures cs.honest && old(cs.Sat()) && Given(E, cs.w, P, bits, k) ==> cs.Sat()
    ensures cs.honest && old(cs.Sat()) && E.a == 0 && GivenInfinity(E, cs.w, P, bits)
      ==> cs.Sat() && (Shows(E, cs.w, R, 0) <==> !Drifts(cs.w, bits, SplitAt(|bits|, numBits), |bits|, cs.p))
  {
    hide Mod, IsCurve, ShowsFinite, AllBits, Pow2, Times, BitsValue, Assumed, Shows, Computed, Drifts, AtOrigin,
         StrayState;
    var split := SplitAt(|bits|, numBits);
    Pow2Monotone(split, numBits - 2);
    if Shows(E, cs.w, P, 0) {
      InfinityAtOrigin(E, cs.w, P);
    }
    var acc, p := IncompleteLoop(E, cs, P, bits, split, k);
    var res := RemoveSlack(E, cs, P, acc, bits, split, k);
    var pc := AllocatedPoint(p.x, p.y, P.inf);
    if cs.Sat() && Given(E, cs.w, P, bits, k) {
      ShowsGiven(E, cs.w, P, k);
      ShowsAllocated(E, cs.w, p, P, Times(E, k, Pow2(split)));
      ComputedStart(E, cs.w, bits, split, k);
    }
    R := CompleteLoop(E, cs, res, pc, bits, split, k);
    if cs.Sat() && E.a == 0 && StrayState(cs.w, acc, p, cs.p) {
      CurveField(E);
      StrayOutput(E, cs.w, acc, p, R);
    }
  }

  lemma ComputedStart(E: Curve, w: Assignment, bits: seq<Variable>, split: nat, k: int)
    requires split <= |bits|
    ensures Computed(E, w, bits, split, split, k) == Times(E, k, BitsValue(w, bits, split, E.q))
  {
    hide Mod, Times, BitsValue;
  }

  lemma InfinityAtOrigin(E: Curve, w: Assignment, P: AllocatedPoint)
    requires Shows(E, w, P, 0)
    ensures AtOrigin(w, FinitePoint(P.x, P.y), E.q) && Cong(w(P.inf), 1, E.q)
  {
  }

  /** The stray point is not the default one. */
  lemma StrayOutput(E: Curve, w: Assignment, acc: FinitePoint, p: FinitePoint, R: AllocatedPoint)
    requires Prime(E.q) && StrayState(w, acc, p, E.q)
    ensures !Cong(w(p.x), 0, E.q)
    ensures Cong(w(R.x), w(p.x), E.q) ==> !Shows(E, w, R, 0)
  {
    hide Mod, OnCusp;
    CuspZero(w, p, E.q);
  }
}
