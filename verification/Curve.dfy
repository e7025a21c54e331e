/**
 A cyclic group of points of a short Weierstrass curve, given by the multiple k of a generator that
 each point is, and by its affine coordinates, which obey the chord-and-tangent law.
 */
module Curve {
  import opened PrimeField

  /** Coordinates lie in F_q; the group has order r; k = 0 is the point at infinity. */
  datatype Curve = Curve(q: Modulus, r: Modulus, a: int, X: int -> int, Y: int -> int, Index: (int, int) -> int)

  /** k names a point other than infinity. */
  predicate Finite(E: Curve, k: int) {
    0 < k < E.r
  }

  /** lam is the slope of the line through points k and l with different x. */
  ghost predicate Chord(E: Curve, k: int, l: int, lam: int) {
    Finite(E, k) && Finite(E, l) && E.X(k) != E.X(l) && Cong(lam * (E.X(k) - E.X(l)), E.Y(k) - E.Y(l), E.q)
  }

  /** lam is the slope of the tangent at point k. */
  ghost predicate Tangent(E: Curve, k: int, lam: int) {
    Finite(E, k) && Cong(lam * (2 * E.Y(k)), 3 * (E.X(k) * E.X(k)) + E.a, E.q)
  }

  /** m is the third point of the line through k and l with slope lam, reflected. */
  ghost predicate Third(E: Curve, k: int, l: int, lam: int, m: int) {
    Finite(E, m) && Cong(E.X(m), lam * lam - (E.X(k) + E.X(l)), E.q) &&
    Cong(E.Y(m), lam * (E.X(l) - E.X(m)) - E.Y(l), E.q)
  }

  ghost predicate IsCurve(E: Curve) {
    Prime(E.q) && E.q > 2 && E.r % 2 == 1 &&
    (forall k {:trigger Finite(E, k)} :: Finite(E, k) ==>
      Canonical(E.X(k), E.q) && Canonical(E.Y(k), E.q) && E.Index(E.X(k), E.Y(k)) == k &&
      E.X(E.r - k) == E.X(k) && Cong(E.Y(E.r - k), -E.Y(k), E.q)) &&
    (forall k, l {:trigger Finite(E, k), Finite(E, l)} ::
       Finite(E, k) && Finite(E, l) && E.X(k) == E.X(l) ==> l == k || l == E.r - k) &&
    (forall k, l, lam {:trigger Chord(E, k, l, lam)} :: Chord(E, k, l, lam) ==> Third(E, k, l, lam, Mod(k + l, E.r))) &&
    (forall k, lam {:trigger Tangent(E, k, lam)} :: Tangent(E, k, lam) ==> Third(E, k, k, lam, Mod(k + k, E.r)))
  }

  /** The point l or its negative. */
  function Signed(E: Curve, l: int, sign: bool): int {
    if sign then l else E.r - l
  }

  // ---------- facts about one or two points ----------

  lemma Coordinates(E: Curve, k: int)
    requires IsCurve(E) && Finite(E, k)
    ensures Canonical(E.X(k), E.q) && Canonical(E.Y(k), E.q) && E.Index(E.X(k), E.Y(k)) == k
    ensures Finite(E, E.r - k) && E.X(E.r - k) == E.X(k) && Cong(E.Y(E.r - k), -E.Y(k), E.q)
  {
    hide Mod, Chord, Tangent, Third;
  }

  lemma SameX(E: Curve, k: int, l: int)
    requires IsCurve(E) && Finite(E, k) && Finite(E, l) && E.X(k) == E.X(l)
    ensures l == k || l == E.r - k
  {
    hide Mod, Chord, Tangent, Third;
  }

  lemma ChordLaw(E: Curve, k: int, l: int, lam: int)
    requires IsCurve(E) && Chord(E, k, l, lam)
    ensures Third(E, k, l, lam, Mod(k + l, E.r))
  {
    hide Mod, Chord, Tangent, Third;
  }

  lemma TangentLaw(E: Curve, k: int, lam: int)
    requires IsCurve(E) && Tangent(E, k, lam)
    ensures Third(E, k, k, lam, Mod(k + k, E.r))
  {
    hide Mod, Chord, Tangent, Third;
  }

  /** A point and its negative differ, because the order is odd. */
  lemma NegativeDiffers(E: Curve, k: int)
    requires IsCurve(E) && Finite(E, k)
    ensures E.r - k != k && E.Y(E.r - k) != E.Y(k) && E.Y(k) != 0
  {
    hide Mod, Chord, Tangent, Third;
    Coordinates(E, k);
    Coordinates(E, E.r - k);
    OddNotDouble(E.r, k);
    if E.Y(k) == 0 {
      CongCanonicalEqual(E.Y(E.r - k), 0, E.q);
    }
  }

  lemma OddNotDouble(r: int, k: int)
    requires r % 2 == 1
    ensures r - k != k
  {
  }

  /** Two points with the same x are equal or opposite, and their y say which. */
  lemma SameXCases(E: Curve, k: int, l: int)
    requires IsCurve(E) && Finite(E, k) && Finite(E, l) && E.X(k) == E.X(l)
    ensures E.Y(k) == E.Y(l) <==> l == k
    ensures E.Y(k) != E.Y(l) <==> l == E.r - k
  {
    hide Mod, IsCurve;
    SameX(E, k, l);
    NegativeDiffers(E, k);
  }

  /** Twice y is not zero in the field. */
  lemma DoubleYNonZero(E: Curve, k: int)
    requires IsCurve(E) && Finite(E, k)
    ensures Mod(2 * E.Y(k), E.q) != 0
  {
    hide Mod, IsCurve;
    NegativeDiffers(E, k);
    Coordinates(E, k);
    assert Prime(E.q) && E.q > 2 by { CurveField(E); }
    SmallMod(2, E.q);
    SmallMod(E.Y(k), E.q);
    SmallMod(0, E.q);
    if Mod(2 * E.Y(k), E.q) == 0 {
      NoZeroDivisors(2, E.Y(k), E.q);
    }
  }

  lemma CurveField(E: Curve)
    requires IsCurve(E)
    ensures Prime(E.q) && E.q > 2 && E.r % 2 == 1
  {
  }

  lemma SmallMod(x: int, p: Modulus)
    requires 0 <= x < p
    ensures Mod(x, p) == x
  {
  }

  /** The difference of two different x is not zero in the field. */
  lemma ChordNonZero(E: Curve, k: int, l: int)
    requires IsCurve(E) && Finite(E, k) && Finite(E, l) && E.X(k) != E.X(l)
    ensures Mod(E.X(k) - E.X(l), E.q) != 0
  {
    hide Mod, IsCurve;
    Coordinates(E, k);
    Coordinates(E, l);
    SmallMod(0, E.q);
    if Mod(E.X(k) - E.X(l), E.q) == 0 {
      CongAdd(E.X(k) - E.X(l), 0, E.X(l), E.X(l), E.q);
      CongCanonicalEqual(E.X(k), E.X(l), E.q);
    }
  }

  // ---------- the law is inhabited ----------

  /** The five points of y^2 = x^3 - 3 x + 1 over F_7: infinity, (0, 1), (4, 5), (4, 2) and (0, 6). */
  ghost predicate IsSmall(E: Curve) {
    E.q == 7 && E.r == 5 && E.a == -3 &&
    (forall k :: E.X(k) == if k == 2 || k == 3 then 4 else 0) &&
    (forall k :: E.Y(k) == if k == 1 then 1 else if k == 2 then 5 else if k == 3 then 2 else 6) &&
    (forall x, y :: E.Index(x, y) == if y == 1 then 1 else if y == 5 then 2 else if y == 2 then 3 else 4)
  }

  lemma CurveExists(E: Curve)
    requires IsSmall(E)
    ensures IsCurve(E) && Chord(E, 1, 2, 1)
  {
    hide Mod, Third;
    assert Prime(7);
    forall k | Finite(E, k) ensures Cong(E.Y(5 - k), -E.Y(k), 7) {
      SmallNegative(E, k);
    }
    SmallLines(E);
  }

  lemma SmallNegative(E: Curve, k: int)
    requires IsSmall(E) && Finite(E, k)
    ensures Cong(E.Y(5 - k), -E.Y(k), 7)
  {
    hide Mod;
    ModIsRemainder(E.Y(5 - k), 7);
    ModIsRemainder(-E.Y(k), 7);
  }

  lemma SmallLines(E: Curve)
    requires IsSmall(E)
    ensures forall k, l, lam {:trigger Chord(E, k, l, lam)} :: Chord(E, k, l, lam)
              ==> Third(E, k, l, lam, Mod(k + l, 5))
    ensures forall k, lam {:trigger Tangent(E, k, lam)} :: Tangent(E, k, lam) ==> Third(E, k, k, lam, Mod(k + k, 5))
  {
    hide Mod, Third, Chord, Tangent, IsSmall;
    forall k, l, lam | Chord(E, k, l, lam) ensures Third(E, k, l, lam, Mod(k + l, 5)) {
      SmallLine(E, k, l, lam);
    }
    forall k, lam | Tangent(E, k, lam) ensures Third(E, k, k, lam, Mod(k + k, 5)) {
      SmallLine(E, k, k, lam);
    }
  }

  /** Each line is one of finitely many, because its slope is known modulo 7. */
  lemma SmallLine(E: Curve, k: int, l: int, lam: int)
    requires IsSmall(E) && (Chord(E, k, l, lam) || (k == l && Tangent(E, k, lam)))
    ensures Third(E, k, l, lam, Mod(k + l, 5))
  {
    var v, m := Mod(lam, 7), Mod(k + l, 5);
    ModIsRemainder(k + l, 5);
    hide Mod;
    ModCong(lam, 7);
    if k != l {
      var d, n := E.X(k) - E.X(l), E.Y(k) - E.Y(l);
      CongMul(v, lam, d, d, 7);
      ModIsRemainder(v * d, 7);
      ModIsRemainder(n, 7);
    } else {
      var d, n := 2 * E.Y(k), 3 * (E.X(k) * E.X(k)) - 3;
      CongMul(v, lam, d, d, 7);
      ModIsRemainder(v * d, 7);
      ModIsRemainder(n, 7);
    }
    SmallThird(E, k, l, v, m);
    CongMul(v, lam, v, lam, 7);
    CongSub(v * v, lam * lam, E.X(k) + E.X(l), E.X(k) + E.X(l), 7);
    CongMul(v, lam, E.X(l) - E.X(m), E.X(l) - E.X(m), 7);
    CongSub(v * (E.X(l) - E.X(m)), lam * (E.X(l) - E.X(m)), E.Y(l), E.Y(l), 7);
  }

  /** The slopes of the lines through two points that are not opposite. */
  function Slope(k: int, l: int): int {
    if k == l then (if k == 1 then 2 else if k == 2 then 1 else if k == 3 then 6 else 5)
    else if k + l == 3 then 1 else if k + l == 4 then 2 else if k + l == 6 then 5 else 6
  }

  lemma SlopeIs(k: int, l: int, d: int, n: int, v: int)
    requires 0 < k < 5 && 0 < l < 5 && k + l != 5 && 0 <= v < 7 && (v * d) % 7 == n % 7
    requires var y := (i: int) => if i == 1 then 1 else if i == 2 then 5 else if i == 3 then 2 else 6;
      if k == l then d == 2 * y(k) && n == (if k == 2 || k == 3 then 45 else -3)
      else d == (if k == 2 || k == 3 then 4 else -4) && n == y(k) - y(l)
    ensures v == Slope(k, l)
  {
  }

  lemma SmallThird(E: Curve, k: int, l: int, v: int, m: int)
    requires IsSmall(E) && Finite(E, k) && Finite(E, l) && 0 <= v < 7 && m == (k + l) % 5
    requires if k != l then E.X(k) != E.X(l) && (v * (E.X(k) - E.X(l))) % 7 == (E.Y(k) - E.Y(l)) % 7
             else (v * (2 * E.Y(k))) % 7 == (3 * (E.X(k) * E.X(k)) - 3) % 7
    ensures Third(E, k, l, v, m)
  {
    hide Mod;
    if k == l {
      SlopeIs(k, l, 2 * E.Y(k), 3 * (E.X(k) * E.X(k)) - 3, v);
    } else {
      SlopeIs(k, l, E.X(k) - E.X(l), E.Y(k) - E.Y(l), v);
    }
    SmallSum(E, k, l, m);
  }

  lemma SmallSum(E: Curve, k: int, l: int, m: int)
    requires IsSmall(E) && Finite(E, k) && Finite(E, l) && k + l != 5 && m == (k + l) % 5
    ensures Third(E, k, l, Slope(k, l), m)
  {
    hide Mod;
    var v := Slope(k, l);
    var s, t := v * v - (E.X(k) + E.X(l)), v * (E.X(l) - E.X(m)) - E.Y(l);
    ModIsRemainder(s, 7);
    ModIsRemainder(t, 7);
    ModIsRemainder(E.X(m), 7);
    ModIsRemainder(E.Y(m), 7);
  }
}
