/** Affine additions into many buckets at once, with a single shared field inversion. */
module AffineBatch {
  import opened PrimeField
  import opened Curve

  datatype Affine = Affine(x: int, y: int)

  datatype BucketAffine = NoPoint | At(pt: Affine)

  /** One pending addition: base `base` goes into bucket `buck`, negated unless `sign`. */
  datatype SchedulePoint = SchedulePoint(base: nat, buck: nat, sign: bool)

  datatype Slope = Cancel | Line(num: int, den: int)

  /** The coordinates of point k. */
  function Coords(E: Curve, k: int): Affine {
    Affine(E.X(k), E.Y(k))
  }

  function Show(E: Curve, k: int): BucketAffine {
    if k == 0 then NoPoint else At(Coords(E, k))
  }

  predicate IsPoint(E: Curve, k: int) {
    0 <= k < E.r
  }

  ghost predicate Shows(E: Curve, buckets: seq<BucketAffine>, ks: seq<int>) {
    |buckets| == |ks| && forall b :: 0 <= b < |ks| ==> IsPoint(E, ks[b]) && buckets[b] == Show(E, ks[b])
  }

  ghost predicate Based(E: Curve, bases: seq<Affine>, ls: seq<int>) {
    |bases| == |ls| && forall i :: 0 <= i < |ls| ==> Finite(E, ls[i]) && bases[i] == Coords(E, ls[i])
  }

  /** Numerator and denominator of the slope for bucket + base or bucket - base; no slope when they cancel. */
  function SlopeOf(E: Curve, bucket: Affine, base: Affine, sign: bool): Slope {
    if bucket.x == base.x then
      if (bucket.y == base.y) != !sign then
        Line(Mod(base.x * base.x + base.x * base.x + base.x * base.x + E.a, E.q), Mod(bucket.y + bucket.y, E.q))
      else
        Cancel
    else
      Line(Mod(if sign then bucket.y - base.y else bucket.y + base.y, E.q), Mod(bucket.x - base.x, E.q))
  }

  /** The sum's coordinates, from the slope. */
  function SumPoint(E: Curve, bucket: Affine, base: Affine, sign: bool, lam: int): Affine {
    var x := Mod(lam * lam - (bucket.x + base.x), E.q);
    Affine(x, Mod(lam * (base.x - x) + (if sign then -base.y else base.y), E.q))
  }

  function Sum2(E: Curve, k: int, l: int, sign: bool): int {
    Mod(k + Signed(E, l, sign), E.r)
  }

  // ---------- one addition ----------

  lemma SlopeCancels(E: Curve, k: int, l: int, sign: bool)
    requires IsCurve(E) && Finite(E, k) && Finite(E, l)
    ensures SlopeOf(E, Coords(E, k), Coords(E, l), sign) == Cancel
      <==> E.X(k) == E.X(l) && Signed(E, l, sign) == E.r - k
    ensures SlopeOf(E, Coords(E, k), Coords(E, l), sign) == Cancel ==> Sum2(E, k, l, sign) == 0
  {
    hide Mod, IsCurve;
    if E.X(k) == E.X(l) {
      SameXCases(E, k, l);
      NegativeDiffers(E, k);
      OrderIsZero(E.r);
    }
  }

  lemma OrderIsZero(r: Modulus)
    ensures Mod(r, r) == 0
  {
  }

  lemma SlopeNonZero(E: Curve, k: int, l: int, sign: bool)
    requires IsCurve(E) && Finite(E, k) && Finite(E, l)
    ensures var s := SlopeOf(E, Coords(E, k), Coords(E, l), sign); s.Line? ==> s.den != 0
  {
    hide Mod, IsCurve;
    if E.X(k) == E.X(l) {
      DoubleYNonZero(E, k);
    } else {
      ChordNonZero(E, k, l);
    }
  }

  /** With the right slope, the formula gives the coordinates of the sum. */
  lemma SumPointIs(E: Curve, k: int, l: int, sign: bool, lam: int)
    requires IsCurve(E) && Finite(E, k) && Finite(E, l)
    requires var s := SlopeOf(E, Coords(E, k), Coords(E, l), sign); s.Line? && Cong(lam * s.den, s.num, E.q)
    ensures Finite(E, Sum2(E, k, l, sign))
    ensures SumPoint(E, Coords(E, k), Coords(E, l), sign, lam) == Coords(E, Sum2(E, k, l, sign))
  {
    hide Mod, IsCurve, Third, Chord, Tangent, SumPoint;
    var m := Signed(E, l, sign);
    Coordinates(E, l);
    if E.X(k) == E.X(l) {
      DoubleSlope(E, k, l, sign, lam);
      TangentLaw(E, k, lam);
      SameXCases(E, k, l);
      SumFromThird(E, k, l, sign, k, lam);
    } else {
      ChordSlope(E, k, l, sign, lam);
      ChordLaw(E, k, m, lam);
      SumFromThird(E, k, l, sign, m, lam);
    }
  }

  lemma DoubleSlope(E: Curve, k: int, l: int, sign: bool, lam: int)
    requires IsCurve(E) && Finite(E, k) && Finite(E, l) && E.X(k) == E.X(l)
    requires var s := SlopeOf(E, Coords(E, k), Coords(E, l), sign); s.Line? && Cong(lam * s.den, s.num, E.q)
    ensures Signed(E, l, sign) == k && Tangent(E, k, lam)
  {
    hide Mod, IsCurve;
    SameXCases(E, k, l);
    NegativeDiffers(E, k);
    var x, y := E.X(k), E.Y(k);
    ModCong(x * x + x * x + x * x + E.a, E.q);
    ModCong(y + y, E.q);
    CongScale(lam, Mod(y + y, E.q), y + y, E.q);
    CongSame(lam * (y + y), x * x + x * x + x * x + E.a, lam * (2 * y), 3 * (x * x) + E.a, E.q);
  }

  lemma ChordSlope(E: Curve, k: int, l: int, sign: bool, lam: int)
    requires IsCurve(E) && Finite(E, k) && Finite(E, l) && E.X(k) != E.X(l)
    requires var s := SlopeOf(E, Coords(E, k), Coords(E, l), sign); s.Line? && Cong(lam * s.den, s.num, E.q)
    ensures Chord(E, k, Signed(E, l, sign), lam)
  {
    hide Mod, IsCurve;
    Coordinates(E, l);
    var m := Signed(E, l, sign);
    var dx, dy := E.X(k) - E.X(l), if sign then E.Y(k) - E.Y(l) else E.Y(k) + E.Y(l);
    ModCong(dx, E.q);
    ModCong(dy, E.q);
    CongScale(lam, Mod(dx, E.q), dx, E.q);
    SignedY(E, l, sign);
    CongSub(E.Y(k), E.Y(k), E.Y(m), if sign then E.Y(l) else -E.Y(l), E.q);
    CongTo(E.Y(k) - E.Y(m), E.Y(k) - (if sign then E.Y(l) else -E.Y(l)), dy, E.q);
  }

  lemma SignedY(E: Curve, l: int, sign: bool)
    requires IsCurve(E) && Finite(E, l)
    ensures Cong(E.Y(Signed(E, l, sign)), if sign then E.Y(l) else -E.Y(l), E.q)
    ensures Finite(E, Signed(E, l, sign)) && E.X(Signed(E, l, sign)) == E.X(l)
  {
    hide Mod, IsCurve;
    Coordinates(E, l);
  }

  lemma SumFromThird(E: Curve, k: int, l: int, sign: bool, m: int, lam: int)
    requires IsCurve(E) && Finite(E, k) && Finite(E, l) && m == Signed(E, l, sign)
    requires Third(E, k, m, lam, Sum2(E, k, l, sign))
    ensures Finite(E, Sum2(E, k, l, sign))
    ensures SumPoint(E, Coords(E, k), Coords(E, l), sign, lam) == Coords(E, Sum2(E, k, l, sign))
  {
    hide Mod, IsCurve, Sum2;
    var s := Sum2(E, k, l, sign);
    Coordinates(E, s);
    SignedY(E, l, sign);
    var x := lam * lam - (E.X(k) + E.X(l));
    ModCong(x, E.q);
    CongCanonicalEqual(Mod(x, E.q), E.X(s), E.q);
    var y0 := if sign then E.Y(l) else -E.Y(l);
    var line := lam * (E.X(l) - E.X(s));
    CongSub(line, line, E.Y(m), y0, E.q);
    ModCong(line - y0, E.q);
    CongCanonicalEqual(Mod(line - y0, E.q), E.Y(s), E.q);
  }

  // ---------- the shared inversion ----------

  /** The product of the denominators. */
  function Product(E: Curve, slopes: seq<Slope>): (acc: int)
  {
    if |slopes| == 0 then 1 else
    var acc := Product(E, slopes[..|slopes| - 1]);
    var s := slopes[|slopes| - 1];
    if s.Cancel? then acc else Mod(acc * s.den, E.q)
  }

  lemma {:induction false} ProductNonZero(E: Curve, slopes: seq<Slope>)
    requires Prime(E.q) && forall i :: 0 <= i < |slopes| ==> slopes[i].Line? ==> 0 < slopes[i].den < E.q
    ensures 0 < Product(E, slopes) < E.q
  {
    if |slopes| == 0 {
    } else {
      hide Mod;
      ProductNonZero(E, slopes[..|slopes| - 1]);
      var acc, s := Product(E, slopes[..|slopes| - 1]), slopes[|slopes| - 1];
      if s.Line? {
        SmallMod(acc, E.q);
        SmallMod(s.den, E.q);
        SmallMod(0, E.q);
        if Mod(acc * s.den, E.q) == 0 {
          NoZeroDivisors(acc, s.den, E.q);
        }
      }
    }
  }

  /** Going back one step: the inverse of the longer product gives this slope and the shorter inverse. */
  lemma BackStep(E: Curve, acc: int, shorter: int, s: Slope, t: int)
    requires s.Line? && Cong(acc * Mod(shorter * s.den, E.q), 1, E.q) && t == Mod(shorter * s.num, E.q)
    ensures Cong(Mod(acc * t, E.q) * s.den, s.num, E.q)
    ensures Cong(Mod(acc * s.den, E.q) * shorter, 1, E.q)
  {
    hide Mod;
    var q := E.q;
    ModCong(shorter * s.den, q);
    CongScale(acc, Mod(shorter * s.den, q), shorter * s.den, q);
    ModCong(shorter * s.num, q);
    ModCong(acc * t, q);
    ModCong(acc * s.den, q);
    CongMul(Mod(acc * s.den, q), acc * s.den, shorter, shorter, q);
    Regroup(acc, shorter, s.den, s.num);
    CongTo(Mod(acc * s.den, q) * shorter, (acc * s.den) * shorter, acc * (shorter * s.den), q);
    CongScale(acc, t, shorter * s.num, q);
    CongMul(Mod(acc * t, q), acc * (shorter * s.num), s.den, s.den, q);
    CongMul(acc * (shorter * s.den), 1, s.num, s.num, q);
    CongTo(Mod(acc * t, q) * s.den, (acc * (shorter * s.num)) * s.den, (acc * (shorter * s.den)) * s.num, q);
  }

  lemma Regroup(a: int, b: int, d: int, n: int)
    ensures (a * d) * b == a * (b * d)
    ensures (a * (b * n)) * d == (a * (b * d)) * n
  {
  }

  // ---------- the batch ----------

  predicate DistinctBuckets(points: seq<SchedulePoint>) {
    forall i, j :: 0 <= i < j < |points| ==> points[i].buck != points[j].buck
  }

  predicate Scheduled(points: seq<SchedulePoint>, b: nat) {
    exists i :: 0 <= i < |points| && points[i].buck == b
  }

  /** The entries point at occupied buckets and at bases. */
  predicate Ready(points: seq<SchedulePoint>, ks: seq<int>, bases: nat) {
    forall i :: 0 <= i < |points| ==> points[i].buck < |ks| && ks[points[i].buck] != 0 && points[i].base < bases
  }

  /** The slopes of all entries, for the buckets as they are before the batch. */
  ghost function Slopes(E: Curve, points: seq<SchedulePoint>, ks: seq<int>, ls: seq<int>): (s: seq<Slope>)
    requires Ready(points, ks, |ls|)
    ensures |s| == |points|
  {
    seq(|points|, i requires 0 <= i < |points| =>
      SlopeOf(E, Coords(E, ks[points[i].buck]), Coords(E, ls[points[i].base]), points[i].sign))
  }

  /** The point bucket i's entry leaves behind. */
  function Result(E: Curve, pt: SchedulePoint, ks: seq<int>, ls: seq<int>): int
    requires pt.buck < |ks| && pt.base < |ls|
  {
    Sum2(E, ks[pt.buck], ls[pt.base], pt.sign)
  }

  lemma SlopesNonZero(E: Curve, points: seq<SchedulePoint>, ks: seq<int>, ls: seq<int>)
    requires IsCurve(E) && Ready(points, ks, |ls|)
    requires forall b :: 0 <= b < |ks| ==> IsPoint(E, ks[b])
    requires forall i :: 0 <= i < |ls| ==> Finite(E, ls[i])
    ensures forall i :: 0 <= i < |points| ==> var s := Slopes(E, points, ks, ls)[i]; s.Line? ==> 0 < s.den < E.q
  {
    hide IsCurve, Mod, SlopeOf;
    forall i | 0 <= i < |points| ensures var s := Slopes(E, points, ks, ls)[i]; s.Line? ==> 0 < s.den < E.q {
      var k, l := ks[points[i].buck], ls[points[i].base];
      SlopeNonZero(E, k, l, points[i].sign);
      SlopeCanonical(E, Coords(E, k), Coords(E, l), points[i].sign);
    }
  }

  lemma SlopeCanonical(E: Curve, bucket: Affine, base: Affine, sign: bool)
    ensures var s := SlopeOf(E, bucket, base, sign); s.Line? ==> Canonical(s.den, E.q)
  {
    hide Mod;
  }

  /** First pass: the numerators, each with the product of the denominators before it. */
  method Forward(E: Curve, buckets: array<BucketAffine>, points: seq<SchedulePoint>, bases: seq<Affine>,
                 t: array<int>, z: array<int>,
                 ghost ks: seq<int>, ghost ls: seq<int>)
    returns (acc: int)
    requires Shows(E, buckets[..], ks) && Based(E, bases, ls) && Ready(points, ks, |ls|) && DistinctBuckets(points)
    requires t.Length == z.Length == |points| && t != z
    modifies buckets, t, z
    ensures var slopes := Slopes(E, points, ks, ls);
      acc == Product(E, slopes) &&
      forall j :: 0 <= j < |points| ==>
        buckets[points[j].buck] == (if slopes[j].Cancel? then NoPoint else Show(E, ks[points[j].buck])) &&
        (slopes[j].Line? ==> t[j] == Mod(Product(E, slopes[..j]) * slopes[j].num, E.q) && z[j] == slopes[j].den)
    ensures forall b :: 0 <= b < |ks| && !Scheduled(points, b) ==> buckets[b] == Show(E, ks[b])
  {
    hide Mod, Product, SlopeOf;
    ghost var slopes := Slopes(E, points, ks, ls);
    acc := 1;
    EmptyProduct(E, slopes);
    for i := 0 to |points|
      invariant acc == Product(E, slopes[..i])
      invariant forall j :: 0 <= j < |points| ==>
        buckets[points[j].buck] == (if j < i && slopes[j].Cancel? then NoPoint else Show(E, ks[points[j].buck]))
      invariant forall j :: 0 <= j < i && slopes[j].Line? ==>
        t[j] == Mod(Product(E, slopes[..j]) * slopes[j].num, E.q) && z[j] == slopes[j].den
      invariant forall b :: 0 <= b < |ks| && !Scheduled(points, b) ==> buckets[b] == Show(E, ks[b])
    {
      var pt := points[i];
      ProductSnoc(E, slopes, i);
      match buckets[pt.buck]
      case NoPoint =>
      case At(bucket) =>
        var slope := SlopeOf(E, bucket, bases[pt.base], pt.sign);
        match slope
        case Cancel =>
          buckets[pt.buck] := NoPoint;
        case Line(num, den) =>
          z[i] := den;
          t[i] := Mod(acc * num, E.q);
          acc := Mod(acc * den, E.q);
    }
    assert slopes[..|points|] == slopes;
  }

  lemma EmptyProduct(E: Curve, slopes: seq<Slope>)
    ensures Product(E, slopes[..0]) == 1
  {
  }

  lemma ProductSnoc(E: Curve, slopes: seq<Slope>, i: nat)
    requires i < |slopes|
    ensures Product(E, slopes[..i + 1]) ==
      if slopes[i].Cancel? then Product(E, slopes[..i]) else Mod(Product(E, slopes[..i]) * slopes[i].den, E.q)
  {
    hide Mod;
    assert slopes[..i + 1][..i] == slopes[..i];
  }

  /** Second pass, from the last entry back: peel one denominator at a time off the inverse. */
  method Backward(E: Curve, buckets: array<BucketAffine>, points: seq<SchedulePoint>, bases: seq<Affine>,
                  t: array<int>, z: array<int>,
                  inverse: int, ghost ks: seq<int>, ghost ls: seq<int>)
    requires IsCurve(E) && buckets.Length == |ks| && Based(E, bases, ls) && Ready(points, ks, |ls|) &&
             DistinctBuckets(points)
    requires forall b :: 0 <= b < |ks| ==> IsPoint(E, ks[b])
    requires t.Length == z.Length == |points|
    requires var slopes := Slopes(E, points, ks, ls);
      Cong(inverse * Product(E, slopes), 1, E.q) &&
      forall j :: 0 <= j < |points| ==>
        buckets[points[j].buck] == (if slopes[j].Cancel? then NoPoint else Show(E, ks[points[j].buck])) &&
        (slopes[j].Line? ==> t[j] == Mod(Product(E, slopes[..j]) * slopes[j].num, E.q) && z[j] == slopes[j].den)
    requires forall b :: 0 <= b < |ks| && !Scheduled(points, b) ==> buckets[b] == Show(E, ks[b])
    modifies buckets
    ensures forall j :: 0 <= j < |points| ==> buckets[points[j].buck] == Show(E, Result(E, points[j], ks, ls))
    ensures forall b :: 0 <= b < |ks| && !Scheduled(points, b) ==> buckets[b] == Show(E, ks[b])
  {
    hide Mod, Product, SlopeOf, IsCurve, Sum2, SumPoint;
    ghost var slopes := Slopes(E, points, ks, ls);
    var acc := inverse;
    var i := |points|;
    assert slopes[..i] == slopes;
    while i > 0
      invariant 0 <= i <= |points|
      invariant Cong(acc * Product(E, slopes[..i]), 1, E.q)
      invariant forall j :: 0 <= j < |points| ==>
        buckets[points[j].buck] == if i <= j || slopes[j].Cancel? then
            (if slopes[j].Cancel? then NoPoint else Show(E, Result(E, points[j], ks, ls)))
          else Show(E, ks[points[j].buck])
      invariant forall b :: 0 <= b < |ks| && !Scheduled(points, b) ==> buckets[b] == Show(E, ks[b])
    {
      i := i - 1;
      var pt := points[i];
      ProductSnoc(E, slopes, i);
      match buckets[pt.buck]
      case NoPoint =>
      case At(bucket) =>
        var lam := Mod(acc * t[i], E.q);
        BackStep(E, acc, Product(E, slopes[..i]), slopes[i], t[i]);
        acc := Mod(acc * z[i], E.q);
        SumPointIs(E, ks[pt.buck], ls[pt.base], pt.sign, lam);
        buckets[pt.buck] := At(SumPoint(E, bucket, bases[pt.base], pt.sign, lam));
    }
    forall j | 0 <= j < |points| && slopes[j].Cancel? ensures Result(E, points[j], ks, ls) == 0 {
      SlopeCancels(E, ks[points[j].buck], ls[points[j].base], points[j].sign);
    }
  }

  /**
   Every scheduled bucket becomes bucket + base or bucket - base, whether the two points are
   different, equal or opposite; the other buckets stay; and the one inversion is never of zero.
   */
  method BatchAdd(E: Curve, buckets: array<BucketAffine>, points: seq<SchedulePoint>, bases: seq<Affine>,
                  ghost ks: seq<int>, ghost ls: seq<int>)
    requires IsCurve(E) && Shows(E, buckets[..], ks) && Based(E, bases, ls)
    requires Ready(points, ks, |ls|) && DistinctBuckets(points)
    modifies buckets
    ensures forall j :: 0 <= j < |points| ==> buckets[points[j].buck] == Show(E, Result(E, points[j], ks, ls))
    ensures forall b :: 0 <= b < |ks| && !Scheduled(points, b) ==> buckets[b] == Show(E, ks[b])
  {
    hide Mod, Product, SlopeOf, IsCurve, Sum2, SumPoint;
    var t, z := new int[|points|](_ => 0), new int[|points|](_ => 0);
    var acc := Forward(E, buckets, points, bases, t, z, ks, ls);
    CurveField(E);
    SlopesNonZero(E, points, ks, ls);
    ProductNonZero(E, Slopes(E, points, ks, ls));
    var inverse := Inv(acc, E.q);
    assert Cong(inverse * acc, 1, E.q) by {
      assert acc * inverse == inverse * acc;
    }
    Backward(E, buckets, points, bases, t, z, inverse, ks, ls);
  }
}
